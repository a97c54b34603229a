/** Counting login failures in a sliding window. Times and durations are in nanoseconds. */
module RateLimiting {
  import opened Text

  const LOGIN_WINDOW: int := 15 * 60 * 1_000_000_000
  const USER_FAILURES: nat := 5
  const IP_FAILURES: nat := 20
  const MANY_KEYS: nat := 10000

  function LimitFor(key: string): nat {
    if StartsAt(key, "ip:", 0) then IP_FAILURES else USER_FAILURES
  }

  type Failures = map<string, seq<int>>

  function Since(failures: Failures, key: string): seq<int> {
    if key in failures then failures[key] else []
  }

  /** The failures after the cutoff. */
  function Live(fs: seq<int>, cutoff: int): seq<int> {
    if fs == [] then [] else
      var n := |fs| - 1;
      if fs[n] > cutoff then Live(fs[..n], cutoff) + [fs[n]] else Live(fs[..n], cutoff)
  }

  ghost predicate InOrder(fs: seq<int>) {
    forall i, j | 0 <= i < j < |fs| :: fs[i] <= fs[j]
  }

  ghost predicate AtMost(fs: seq<int>, t: int) {
    forall i | 0 <= i < |fs| :: fs[i] <= t
  }

  /** What is kept of a history: all but some first failures no later than the cutoff. */
  ghost predicate Kept(fs: seq<int>, history: seq<int>, cutoff: int) {
    exists n: nat :: n <= |history| && fs == history[n..] && AtMost(history[..n], cutoff)
  }

  lemma {:induction false} LiveSplits(x: seq<int>, y: seq<int>, cutoff: int)
    ensures Live(x + y, cutoff) == Live(x, cutoff) + Live(y, cutoff)
  {
    if y == [] {
      assert x + y == x;
    } else {
      var n := |y| - 1;
      LiveSplits(x, y[..n], cutoff);
      assert (x + y)[..|x + y| - 1] == x + y[..n] && (x + y)[|x + y| - 1] == y[n];
    }
  }

  lemma {:induction false} NoneLive(fs: seq<int>, cutoff: int)
    requires AtMost(fs, cutoff)
    ensures Live(fs, cutoff) == []
  {
    if fs != [] {
      NoneLive(fs[..|fs| - 1], cutoff);
    }
  }

  lemma {:induction false} AllLive(fs: seq<int>, cutoff: int)
    requires forall i | 0 <= i < |fs| :: fs[i] > cutoff
    ensures Live(fs, cutoff) == fs
  {
    if fs != [] {
      AllLive(fs[..|fs| - 1], cutoff);
    }
  }

  /** What is dropped is never missed: at any later cutoff the same failures are live. */
  lemma KeptLive(fs: seq<int>, history: seq<int>, cutoff: int, later: int)
    requires Kept(fs, history, cutoff) && cutoff <= later
    ensures Live(fs, later) == Live(history, later)
  {
    var n: nat :| n <= |history| && fs == history[n..] && AtMost(history[..n], cutoff);
    assert history == history[..n] + fs;
    LiveSplits(history[..n], fs, later);
    NoneLive(history[..n], later);
  }

  lemma KeptDrops(fs: seq<int>, history: seq<int>, cutoff: int, later: int, i: nat)
    requires Kept(fs, history, cutoff) && cutoff <= later && i <= |fs| && AtMost(fs[..i], later)
    ensures Kept(fs[i..], history, later)
  {
    var n: nat :| n <= |history| && fs == history[n..] && AtMost(history[..n], cutoff);
    assert history[..n + i] == history[..n] + fs[..i] && fs[i..] == history[n + i..];
  }

  lemma KeptMore(fs: seq<int>, history: seq<int>, cutoff: int, t: int)
    requires Kept(fs, history, cutoff)
    ensures Kept(fs + [t], history + [t], cutoff)
  {
    var n: nat :| n <= |history| && fs == history[n..] && AtMost(history[..n], cutoff);
    assert fs + [t] == (history + [t])[n..] && (history + [t])[..n] == history[..n];
  }

  ghost predicate Ticks(now: nat -> int) {
    forall i, j | 0 <= i <= j :: now(i) <= now(j)
  }

  lemma TicksOn(now: nat -> int, i: nat, j: nat)
    requires Ticks(now) && i <= j
    ensures now(i) <= now(j)
  {
  }

  /** There are failures, and all of them after the cutoff. */
  predicate StillCounts(fs: seq<int>, cutoff: int) {
    fs != [] && forall i | 0 <= i < |fs| :: fs[i] > cutoff
  }

  lemma LiveCounts(fs: seq<int>, cutoff: int, earlier: int)
    requires earlier <= cutoff
    ensures Live(fs, cutoff) != [] ==> StillCounts(Live(fs, cutoff), earlier)
  {
    OverCutoff(fs, cutoff);
  }

  ghost predicate KeyKept(failures: Failures, history: Failures, key: string, past: int, window: int) {
    Kept(Since(failures, key), Since(history, key), past - window)
  }

  /** The failures filed stand for the history: none dropped is inside a window that ends at or after past. */
  ghost predicate Stands(failures: Failures, history: Failures, past: int, window: int) {
    && (forall k | k in history :: InOrder(history[k]) && AtMost(history[k], past))
    && forall k :: KeyKept(failures, history, k, past, window)
  }

  lemma NothingStands(past: int, window: int)
    ensures Stands(map[], map[], past, window)
  {
    forall k
      ensures KeyKept(map[], map[], k, past, window)
    {
      var none := Since(map[], k);
      assert none == none[0..] && AtMost(none[..0], past - window);
    }
  }

  lemma StandsLater(failures: Failures, history: Failures, past: int, later: int, window: int)
    requires Stands(failures, history, past, window) && past <= later
    ensures Stands(failures, history, later, window)
  {
    forall k
      ensures KeyKept(failures, history, k, later, window)
    {
      assert KeyKept(failures, history, k, past, window);
      KeptDrops(Since(failures, k), Since(history, k), past - window, later - window, 0);
      assert Since(failures, k)[0..] == Since(failures, k);
    }
  }

  function Refiled(failures: Failures, key: string, fs: seq<int>): Failures {
    if fs == [] then failures - {key} else failures[key := fs]
  }

  lemma OthersStand(failures: Failures, failures': Failures, history: Failures, history': Failures, past: int,
                    window: int, key: string)
    requires Stands(failures, history, past, window)
    requires forall k | k != key :: Since(failures', k) == Since(failures, k) && Since(history', k) == Since(history, k)
    requires KeyKept(failures', history', key, past, window)
    requires InOrder(Since(history', key)) && AtMost(Since(history', key), past)
    ensures Stands(failures', history', past, window)
  {
    hide Kept, InOrder, AtMost;
    forall k
      ensures KeyKept(failures', history', k, past, window)
      ensures k in history' ==> InOrder(history'[k]) && AtMost(history'[k], past)
    {
      assert KeyKept(failures, history, k, past, window);
      if k in history' && k != key && k !in history {
        NothingInOrder(past);
      }
    }
  }

  lemma NothingInOrder(t: int)
    ensures InOrder([]) && AtMost([], t)
  {
  }

  lemma SinceInOrder(failures: Failures, history: Failures, past: int, window: int, key: string)
    requires Stands(failures, history, past, window)
    ensures InOrder(Since(history, key)) && AtMost(Since(history, key), past)
    ensures KeyKept(failures, history, key, past, window)
    ensures InOrder(Since(failures, key)) && AtMost(Since(failures, key), past)
  {
    assert KeyKept(failures, history, key, past, window);
  }

  /** Dropping a key's first failures outside the window leaves just those inside it, and nothing is missed. */
  lemma PruneStands(failures: Failures, history: Failures, t: int, window: int, key: string, i: nat)
    requires Stands(failures, history, t, window) && i <= |Since(failures, key)|
    requires var fs := Since(failures, key); AtMost(fs[..i], t - window) && (i < |fs| ==> fs[i] > t - window)
    ensures Stands(Refiled(failures, key, Since(failures, key)[i..]), history, t, window)
    ensures Since(failures, key)[i..] == Live(Since(history, key), t - window)
  {
    hide Live, Kept, Stands, InOrder;
    var fs, cutoff := Since(failures, key), t - window;
    SinceInOrder(failures, history, t, window, key);
    PruneLive(fs, Since(history, key), cutoff, i);
    KeptDrops(fs, Since(history, key), cutoff, cutoff, i);
    assert Since(Refiled(failures, key, fs[i..]), key) == fs[i..];
    OthersStand(failures, Refiled(failures, key, fs[i..]), history, history, t, window, key);
  }

  lemma PruneLive(fs: seq<int>, history: seq<int>, cutoff: int, i: nat)
    requires Kept(fs, history, cutoff) && InOrder(fs) && i <= |fs| && AtMost(fs[..i], cutoff)
    requires (i < |fs| ==> fs[i] > cutoff)
    ensures fs[i..] == Live(history, cutoff)
  {
    hide Live, Kept;
    KeptLive(fs, history, cutoff, cutoff);
    NoneLive(fs[..i], cutoff);
    AllLive(fs[i..], cutoff);
    LiveSplits(fs[..i], fs[i..], cutoff);
    assert fs == fs[..i] + fs[i..];
  }

  lemma InOrderMore(fs: seq<int>, t: int)
    requires InOrder(fs) && AtMost(fs, t)
    ensures InOrder(fs + [t]) && AtMost(fs + [t], t)
  {
  }

  lemma FailStands(failures: Failures, history: Failures, t: int, window: int, key: string)
    requires Stands(failures, history, t, window)
    ensures Stands(failures[key := Since(failures, key) + [t]], history[key := Since(history, key) + [t]], t, window)
  {
    hide Kept, Stands;
    SinceInOrder(failures, history, t, window, key);
    InOrderMore(Since(history, key), t);
    hide InOrder, AtMost;
    KeptMore(Since(failures, key), Since(history, key), t - window, t);
    OthersStand(failures, failures[key := Since(failures, key) + [t]], history,
      history[key := Since(history, key) + [t]], t, window, key);
  }

  lemma ResetStands(failures: Failures, history: Failures, t: int, window: int, key: string)
    requires Stands(failures, history, t, window)
    ensures Stands(failures - {key}, history - {key}, t, window)
  {
    NothingStands(t, window);
    assert KeyKept(map[], map[], key, t, window);
    OthersStand(failures, failures - {key}, history, history - {key}, t, window, key);
  }

  /** The limiter. Every method runs whole, under its lock. */
  class RateLimiter {
    /** The clock, by how often it has been read. */
    const now: nat -> int
    const window: int
    var readings: nat
    var failures: Failures
    /** Every failure of each key since it was last reset. */
    ghost var history: Failures

    ghost predicate Valid()
      reads this
    {
      Ticks(now) && window > 0 && Stands(failures, history, Past(), window)
    }

    /** The last reading, or one no later than any. */
    ghost function Past(): int
      reads this
    {
      if readings == 0 then now(0) else now(readings - 1)
    }

    /** The failures of a key that count against it at a time. */
    ghost function Counting(key: string, t: int): seq<int>
      reads this
    {
      Live(Since(history, key), t - window)
    }

    constructor NewLoginLimiter(now: nat -> int)
      requires Ticks(now)
      ensures Valid() && history == map[] && this.now == now && window == LOGIN_WINDOW && readings == 0
    {
      this.now, window, readings, failures, history := now, LOGIN_WINDOW, 0, map[], map[];
      new;
      NothingStands(Past(), window);
    }

    method Now() returns (t: int)
      requires Valid()
      modifies `readings
      ensures Valid() && readings == old(readings) + 1 && t == now(old(readings)) == Past() && t >= old(Past())
    {
      hide Stands;
      t := now(readings);
      assert Past() <= t;
      StandsLater(failures, history, Past(), t, window);
      readings := readings + 1;
    }

    /** Leaves on file just the failures of a key that still count. */
    method Prune(key: string) returns (fs: seq<int>, ghost t: int)
      requires Valid()
      modifies `readings, `failures
      ensures Valid() && readings == old(readings) + 1 && t == now(old(readings))
      ensures fs == Since(failures, key) == Counting(key, t)
      ensures failures == if fs == [] then old(failures) - {key} else old(failures)[key := fs]
    {
      hide Stands, Live, Ticks;
      var cutoff := Now();
      t, cutoff := cutoff, cutoff - window;
      fs := Since(failures, key);
      var i := 0;
      while i < |fs| && fs[i] <= cutoff
        invariant 0 <= i <= |fs| && AtMost(fs[..i], cutoff)
      {
        i := i + 1;
      }
      PruneStands(failures, history, t, window, key, i);
      fs := fs[i..];
      failures := Refiled(failures, key, fs);
    }

    /** Admits a key with fewer failures in the window than its limit; otherwise says how long until its oldest
        one leaves. */
    method Allow(key: string) returns (ok: bool, wait: int)
      requires Valid()
      modifies `readings, `failures
      ensures Valid()
      ensures ok <==> |old(Counting(key, now(readings)))| < LimitFor(key)
      ensures ok ==> wait == 0 && readings == old(readings) + 1
      ensures !ok ==> readings == old(readings) + 2 && wait == old(Counting(key, now(readings)))[0] + window - Past()
      ensures !ok ==> wait <= window && (wait > 0 <==> Past() < old(Counting(key, now(readings)))[0] + window)
      ensures !ok && Past() == now(old(readings)) ==> wait > 0
    {
      hide Stands, Live, Ticks;
      ghost var t;
      var fs;
      fs, t := Prune(key);
      if |fs| < LimitFor(key) {
        return true, 0;
      }
      SinceInOrder(failures, history, t, window, key);
      WindowOf(Since(history, key), t - window, t);
      OverCutoff(Since(history, key), t - window);
      var t2 := Now();
      ok, wait := false, fs[0] + window - t2;
    }

    /** Records a failure now. */
    method Fail(key: string)
      requires Valid()
      modifies this
      ensures Valid() && readings >= old(readings) + 2
      ensures history == old(history)[key := old(Since(history, key)) + [now(old(readings) + 1)]]
    {
      hide Stands, Live, Ticks;
      var fs, t := Prune(key);
      var t2 := Now();
      FailStands(failures, history, t2, window, key);
      history := history[key := Since(history, key) + [t2]];
      failures := failures[key := fs + [t2]];
      if |failures| > MANY_KEYS {
        Sweep();
      }
    }

    /** Prunes every key, so a key stays on file only with failures that still counted when the sweep began. */
    method Sweep()
      requires Valid()
      modifies `readings, `failures
      ensures Valid() && readings >= old(readings) && failures.Keys <= old(failures).Keys
      ensures forall k | k in failures :: StillCounts(failures[k], now(old(readings)) - window)
    {
      hide Stands, Live, Ticks, StillCounts;
      var left := failures.Keys;
      ghost var start := readings;
      while left != {}
        invariant Valid() && readings >= start && failures.Keys <= old(failures).Keys
        invariant forall k | k in failures && k !in left :: StillCounts(failures[k], now(start) - window)
        decreases left
      {
        var k :| k in left;
        ghost var at := readings;
        var fs, t := Prune(k);
        TicksOn(now, start, at);
        LiveCounts(Since(history, k), t - window, now(start) - window);
        left := left - {k};
      }
    }

    /** Forgets a key's failures. */
    method Reset(key: string)
      requires Valid()
      modifies `failures, `history
      ensures Valid() && history == old(history) - {key}
    {
      hide Stands;
      ResetStands(failures, history, Past(), window, key);
      failures, history := failures - {key}, history - {key};
    }
  }

  lemma {:induction false} WindowOf(history: seq<int>, cutoff: int, t: int)
    requires AtMost(history, t)
    ensures AtMost(Live(history, cutoff), t)
  {
    if history != [] {
      WindowOf(history[..|history| - 1], cutoff, t);
    }
  }

  lemma {:induction false} LiveInOrder(history: seq<int>, cutoff: int)
    requires InOrder(history)
    ensures InOrder(Live(history, cutoff))
  {
    if history != [] {
      var n := |history| - 1;
      LiveInOrder(history[..n], cutoff);
      WindowOf(history[..n], cutoff, history[n]);
    }
  }

  lemma {:induction false} LiveAgain(history: seq<int>, cutoff: int, later: int)
    requires cutoff <= later
    ensures Live(Live(history, cutoff), later) == Live(history, later)
  {
    if history != [] {
      var n := |history| - 1;
      LiveAgain(history[..n], cutoff, later);
      if history[n] > cutoff {
        assert (Live(history[..n], cutoff) + [history[n]])[..|Live(history[..n], cutoff)|]
          == Live(history[..n], cutoff);
      }
    }
  }

  function Ties(fs: seq<int>, t: int): nat {
    if fs == [] then 0 else Ties(fs[..|fs| - 1], t) + if fs[|fs| - 1] == t then 1 else 0
  }

  lemma {:induction false} LiveOrTied(fs: seq<int>, t: int)
    requires forall i | 0 <= i < |fs| :: fs[i] >= t
    ensures |Live(fs, t)| == |fs| - Ties(fs, t)
  {
    if fs != [] {
      LiveOrTied(fs[..|fs| - 1], t);
    }
  }

  lemma {:induction false} TiesFirst(fs: seq<int>)
    requires fs != []
    ensures Ties(fs, fs[0]) >= 1
  {
    if |fs| > 1 {
      TiesFirst(fs[..|fs| - 1]);
    }
  }

  /** With no more failures, a retry when the wait is over finds all those in the window but the oldest and its ties;
      so it is admitted exactly when these bring it below the limit, and always when just the limit was reached. */
  lemma RetryAfterWait(history: seq<int>, window: int, t: int, limit: nat)
    requires InOrder(history) && limit > 0 && |Live(history, t - window)| >= limit
    ensures var live := Live(history, t - window);
      var retry := live[0] + window;
      && retry > t
      && |Live(history, retry - window)| == |live| - Ties(live, live[0])
      && (|Live(history, retry - window)| < limit <==> |live| - limit < Ties(live, live[0]))
      && (|live| == limit ==> |Live(history, retry - window)| < limit)
  {
    var live := Live(history, t - window);
    LiveInOrder(history, t - window);
    OverCutoff(history, t - window);
    LiveAgain(history, t - window, live[0]);
    LiveOrTied(live, live[0]);
    TiesFirst(live);
  }

  lemma {:induction false} OverCutoff(history: seq<int>, cutoff: int)
    ensures forall i | 0 <= i < |Live(history, cutoff)| :: Live(history, cutoff)[i] > cutoff
  {
    if history != [] {
      OverCutoff(history[..|history| - 1], cutoff);
    }
  }

  /** Six failures, one a tick, with the limit at five: once the wait is over five of them still count. Failures are
      recorded apart from the asking, so several attempts let in at once can pass the limit. */
  lemma RetryStillRefused(history: seq<int>)
    requires history == [0, 1, 2, 3, 4, 5]
    ensures InOrder(history) && |Live(history, 50 - 100)| == 6
    ensures Live(history, 50 - 100)[0] + 100 == 100 && |Live(history, 100 - 100)| == 5
  {
    hide Live;
    AllLive(history, 50 - 100);
    assert history == [0] + [1, 2, 3, 4, 5];
    LiveSplits([0], [1, 2, 3, 4, 5], 0);
    NoneLive([0], 0);
    AllLive([1, 2, 3, 4, 5], 0);
  }

  /** A caller who is refused and asks again when the wait is over, nothing having failed meanwhile, is let in exactly
      when the oldest failure and its ties made the difference. */
  method AskAgain(l: RateLimiter, key: string) returns (ok: bool, wait: int, again: bool)
    requires l.Valid()
    modifies l`readings, l`failures
    ensures l.Valid()
    ensures ok <==> |old(l.Counting(key, l.now(l.readings)))| < LimitFor(key)
    ensures ok ==> again
    ensures !ok && l.now(old(l.readings) + 2) == l.now(old(l.readings) + 1) + wait ==>
      var live := old(l.Counting(key, l.now(l.readings)));
      again <==> |live| - LimitFor(key) < Ties(live, live[0])
  {
    hide RateLimiter.Valid, Live, Ties, Since;
    again := true;
    ghost var t := l.now(l.readings);
    ghost var history := Since(l.history, key);
    HistoryInOrder(l, key);
    ok, wait := l.Allow(key);
    if !ok {
      RetryAfterWait(history, l.window, t, LimitFor(key));
      var rest;
      again, rest := l.Allow(key);
    }
  }

  lemma HistoryInOrder(l: RateLimiter, key: string)
    requires l.Valid()
    ensures InOrder(Since(l.history, key))
  {
    SinceInOrder(l.failures, l.history, l.Past(), l.window, key);
  }

  /** Twenty failures from one address, five for one user, in any fifteen minutes. */
  lemma Limits(key: string, address: string)
    ensures LimitFor("ip:" + address) == 20
    ensures |key| < 3 || key[0] != 'i' || key[1] != 'p' || key[2] != ':' ==> LimitFor(key) == 5
    ensures LOGIN_WINDOW == 900 * 1_000_000_000
  {
    assert ("ip:" + address)[0..3] == "ip:";
    assert StartsAt(key, "ip:", 0) ==> key[0] == key[0..3][0] && key[1] == key[0..3][1] && key[2] == key[0..3][2];
  }
}
