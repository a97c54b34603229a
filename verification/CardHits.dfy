/** What the cache is for: a stored card is returned until it expires, and callers share one read of it. */
module CardHits {
  import opened RecencyList
  import opened CardProtocol

  predicate Timed(st: Step) {
    st.Request? || st.Recheck? || st.Put?
  }

  /** The clock never goes back. */
  ghost predicate ClockRuns(steps: seq<Step>) {
    forall i, j | 0 <= i <= j < |steps| && Timed(steps[i]) && Timed(steps[j]) :: steps[i].now <= steps[j].now
  }

  /** The step looks at entry object n for a card. */
  predicate Looks(w: World, st: Step, n: nat) {
    if st.Request? then
      st.id != "latest" && n == if st.id in w.slots.entries then w.slots.entries[st.id] else st.made
    else st.Recheck? && st.c in w.callers && w.callers[st.c].entry == n
  }

  predicate Puts(w: World, st: Step, n: nat) {
    st.Put? && st.c in w.callers && w.callers[st.c].entry == n
  }

  predicate Fetches(w: World, st: Step, n: nat) {
    st.Fetch? && st.c in w.callers && w.callers[st.c].entry == n
  }

  /** The store at moment m is the last into n before moment i. */
  ghost predicate LastPut(ws: seq<World>, steps: seq<Step>, m: nat, i: nat, n: nat)
    requires m < i <= |steps| < |ws|
  {
    Puts(ws[m], steps[m], n) && forall k | m < k < i :: !Puts(ws[k], steps[k], n)
  }

  lemma StepTaken(cfg: Config, ws: seq<World>, steps: seq<Step>, k: nat)
    requires Run(cfg, ws, steps) && k < |steps|
    ensures Enabled(ws[k], steps[k]) && Apply(cfg, ws[k], steps[k]) == ws[k + 1]
  {
    hide Enabled, Apply;
  }

  // ---- what becomes of a stored card ----

  lemma CardAfterPut(cfg: Config, w: World, st: Step)
    requires Enabled(w, st) && st.Put?
    ensures var n := w.callers[st.c].entry;
      && w.callers[st.c].pc.Fetched? && n in w.heap
      && n in Apply(cfg, w, st).heap && Apply(cfg, w, st).heap[n].card == w.callers[st.c].pc.card
      && Apply(cfg, w, st).heap[n].expires == st.now + cfg.ttl
      && Apply(cfg, w, st).heap[n].id == w.heap[n].id
  {
  }

  /** A card goes only to a store or to a look at or after its time. */
  lemma CardStays(cfg: Config, w: World, st: Step, n: nat)
    requires Enabled(w, st) && n in w.heap && !Puts(w, st, n)
    ensures var w' := Apply(cfg, w, st);
      && n in w'.heap && w'.heap[n].id == w.heap[n].id
      && ((w'.heap[n].card == w.heap[n].card && w'.heap[n].expires == w.heap[n].expires)
          || (Looks(w, st, n) && st.now >= w.heap[n].expires))
  {
    hide RenderCard, Requested;
  }

  /** After its store, an entry object holds the card until a look at or after the store's time plus the lifetime. */
  lemma {:induction false} Stands(cfg: Config, ws: seq<World>, steps: seq<Step>, m: nat, i: nat, n: nat)
    requires Run(cfg, ws, steps) && m < i <= |steps| && LastPut(ws, steps, m, i, n)
    ensures ws[m].callers[steps[m].c].pc.Fetched?
    ensures n in ws[m].heap && n in ws[i].heap && ws[i].heap[n].id == ws[m].heap[n].id
    ensures (ws[i].heap[n].card == ws[m].callers[steps[m].c].pc.card
             && ws[i].heap[n].expires == steps[m].now + cfg.ttl)
         || exists q :: m < q < i && Looks(ws[q], steps[q], n) && steps[q].now >= steps[m].now + cfg.ttl
    decreases i
  {
    hide Apply, Enabled, Looks;
    StepTaken(cfg, ws, steps, i - 1);
    if i == m + 1 {
      CardAfterPut(cfg, ws[m], steps[m]);
    } else {
      Stands(cfg, ws, steps, m, i - 1, n);
      CardStays(cfg, ws[i - 1], steps[i - 1], n);
    }
  }

  /** What a caller has to store is what its own read came to. */
  lemma {:induction false} FetchedFrom(cfg: Config, ws: seq<World>, steps: seq<Step>, i: nat, c: nat) returns (f: nat)
    requires Run(cfg, ws, steps) && i < |ws| && c in ws[i].callers && ws[i].callers[c].pc.Fetched?
    ensures f < i && steps[f].Fetch? && steps[f].c == c && steps[f].ok
    ensures ws[i].callers[c].pc.card == RenderCard(steps[f].lines)
    ensures c in ws[f].callers && ws[f].callers[c].entry == ws[i].callers[c].entry
         && ws[f].callers[c].id == ws[i].callers[c].id
  {
    assert i > 0;
    StepTaken(cfg, ws, steps, i - 1);
    var w, st := ws[i - 1], steps[i - 1];
    FetchedStep(cfg, w, st, c);
    hide *;
    if st.Fetch? && st.c == c {
      f := i - 1;
    } else {
      f := FetchedFrom(cfg, ws, steps, i - 1, c);
    }
  }

  lemma FetchedStep(cfg: Config, w: World, st: Step, c: nat)
    requires Enabled(w, st) && c in Apply(cfg, w, st).callers && Apply(cfg, w, st).callers[c].pc.Fetched?
    ensures var now := Apply(cfg, w, st).callers[c];
      && c in w.callers && w.callers[c].entry == now.entry && w.callers[c].id == now.id
      && if st.Fetch? && st.c == c then st.ok && now.pc.card == RenderCard(st.lines)
         else w.callers[c].pc == now.pc
  {
    hide RenderCard, Requested, Live;
  }

  // ---- hits ----

  /** What a look at an entry object with an unexpired card comes to. */
  lemma LookFinds(cfg: Config, w: World, st: Step, n: nat)
    requires Enabled(w, st) && Looks(w, st, n) && n in w.heap && w.heap[n].card != "" && st.now < w.heap[n].expires
    ensures var pc := Apply(cfg, w, st).callers[st.c].pc;
      && (st.Request? ==> pc.Done? && pc.out.Card? && pc.out.card == w.heap[n].card)
      && (st.Recheck? ==> pc.Releasing? && pc.out.Card? && pc.out.card == w.heap[n].card)
  {
    hide RenderCard, Requested;
  }

  /** While the clock shows less than the time of the last store into an entry object plus the lifetime, whoever looks
      there gets the card of that store, which is what the storing caller's own read came to: a request at once, a
      caller that waited for the lock as soon as it has it. Neither goes on to read. */
  lemma {:induction false} StoredCardIsReturned(cfg: Config, ws: seq<World>, steps: seq<Step>, m: nat, i: nat, n: nat)
    returns (f: nat)
    requires Run(cfg, ws, steps) && ClockRuns(steps) && m < i < |steps|
    requires LastPut(ws, steps, m, i, n) && Looks(ws[i], steps[i], n) && steps[i].now < steps[m].now + cfg.ttl
    ensures f < m && steps[f].Fetch? && steps[f].ok && steps[f].c == steps[m].c && Fetches(ws[f], steps[f], n)
    ensures var pc := ws[i + 1].callers[steps[i].c].pc;
      && (steps[i].Request? ==> pc.Done? && pc.out.Card? && pc.out.card == RenderCard(steps[f].lines))
      && (steps[i].Recheck? ==> pc.Releasing? && pc.out.Card? && pc.out.card == RenderCard(steps[f].lines))
  {
    hide Apply, Enabled, RenderCard;
    Stands(cfg, ws, steps, m, i, n);
    f := FetchedFrom(cfg, ws, steps, m, steps[m].c);
    CardIsNeverEmpty(steps[f].lines);
    StepTaken(cfg, ws, steps, i);
    LookFinds(cfg, ws[i], steps[i], n);
  }

  /** A card read for one snapshot is found by requests for that snapshot only. */
  lemma {:induction false} FoundUnderItsId(cfg: Config, ws: seq<World>, steps: seq<Step>, m: nat, i: nat, n: nat)
    requires Run(cfg, ws, steps) && m < i < |steps| && LastPut(ws, steps, m, i, n)
    requires steps[i].Request? && steps[i].id in ws[i].slots.entries && ws[i].slots.entries[steps[i].id] == n
    ensures steps[m].c in ws[m].callers && ws[m].callers[steps[m].c].id == steps[i].id
  {
    hide Apply, Enabled, Traced, Valid, Recent, Ids, Take;
    Stands(cfg, ws, steps, m, i, n);
    RunHolds(cfg, ws, steps, m);
    RunHolds(cfg, ws, steps, i);
    hide Run;
  }

  // ---- one fetch ----

  /** While somebody reads for an entry object it has no card. */
  ghost predicate Bare(w: World) {
    forall c | c in w.callers && (w.callers[c].pc.Fetching? || w.callers[c].pc.Fetched?) ::
      w.callers[c].entry in w.heap && w.heap[w.callers[c].entry].card == ""
  }

  lemma BareStep(cfg: Config, w: World, st: Step, c: nat)
    requires OneAtATime(w) && Bare(w) && Enabled(w, st) && c in Apply(cfg, w, st).callers
    requires Apply(cfg, w, st).callers[c].pc.Fetching? || Apply(cfg, w, st).callers[c].pc.Fetched?
    ensures var w' := Apply(cfg, w, st);
      w'.callers[c].entry in w'.heap && w'.heap[w'.callers[c].entry].card == ""
  {
    hide RenderCard, Requested;
    if c != st.c {
      var n := w.callers[c].entry;
      assert Holder(w, c, n);
      assert st.Put? ==> Holder(w, st.c, w.callers[st.c].entry);
    }
  }

  lemma {:induction false} BareHolds(cfg: Config, ws: seq<World>, steps: seq<Step>, i: nat)
    requires Run(cfg, ws, steps) && i < |ws|
    ensures Bare(ws[i])
  {
    if i > 0 {
      BareHolds(cfg, ws, steps, i - 1);
      RunHolds(cfg, ws, steps, i - 1);
      StepTaken(cfg, ws, steps, i - 1);
      hide Apply, Enabled, Ordered, OneAtATime, Traced, Run;
      forall c | c in ws[i].callers && (ws[i].callers[c].pc.Fetching? || ws[i].callers[c].pc.Fetched?)
        ensures ws[i].callers[c].entry in ws[i].heap && ws[i].heap[ws[i].callers[c].entry].card == ""
      {
        BareStep(cfg, ws[i - 1], steps[i - 1], c);
      }
    }
  }

  lemma FetchLeads(cfg: Config, w: World, st: Step, n: nat)
    requires Enabled(w, st) && Fetches(w, st, n)
    ensures w.callers[st.c].pc.Fetching? && n in w.heap
    ensures st.ok ==> Apply(cfg, w, st).callers[st.c].pc.Fetched? && Apply(cfg, w, st).callers[st.c].entry == n
  {
  }

  lemma StillFetched(cfg: Config, w: World, st: Step, c: nat, n: nat)
    requires Enabled(w, st) && c in w.callers && w.callers[c].pc.Fetched? && w.callers[c].entry == n
    ensures Puts(w, st, n)
         || (c in Apply(cfg, w, st).callers && Apply(cfg, w, st).callers[c] == w.callers[c])
  {
    hide RenderCard, Requested, Live;
  }

  /** A caller that has read holds on to its card until it stores it. */
  lemma {:induction false} StoresWhatItRead(cfg: Config, ws: seq<World>, steps: seq<Step>, i: nat, j: nat, n: nat)
    requires Run(cfg, ws, steps) && i < j <= |steps| && Fetches(ws[i], steps[i], n) && steps[i].ok
    requires forall m | i < m < j :: !Puts(ws[m], steps[m], n)
    ensures var c := steps[i].c;
      c in ws[j].callers && ws[j].callers[c].pc.Fetched? && ws[j].callers[c].entry == n
    decreases j
  {
    StepTaken(cfg, ws, steps, j - 1);
    hide Apply, Enabled, Run;
    if j == i + 1 {
      FetchLeads(cfg, ws[i], steps[i], n);
    } else {
      StoresWhatItRead(cfg, ws, steps, i, j - 1, n);
      StillFetched(cfg, ws[j - 1], steps[j - 1], steps[i].c, n);
    }
  }

  lemma {:induction false} LatestPut(ws: seq<World>, steps: seq<Step>, i: nat, j: nat, n: nat) returns (m: nat)
    requires i < j <= |steps| < |ws| && exists k :: i < k < j && Puts(ws[k], steps[k], n)
    ensures i < m < j && LastPut(ws, steps, m, j, n)
    decreases j
  {
    hide Puts;
    m := j - 1;
    if !Puts(ws[m], steps[m], n) {
      m := LatestPut(ws, steps, i, j - 1, n);
    }
  }

  /** Between two reads for one entry object, the first of them a success, there is a store, and since the last such
      store a look at or after its time plus the lifetime. So callers that come while a card is live, or while it is
      being read, pay for one read between them. */
  lemma {:induction false} OneFetchALifetime(cfg: Config, ws: seq<World>, steps: seq<Step>, i: nat, j: nat, n: nat)
    returns (m: nat, q: nat)
    requires Run(cfg, ws, steps) && i < j < |steps|
    requires Fetches(ws[i], steps[i], n) && steps[i].ok && Fetches(ws[j], steps[j], n)
    ensures i < m < q < j && LastPut(ws, steps, m, j, n)
    ensures Looks(ws[q], steps[q], n) && steps[q].now >= steps[m].now + cfg.ttl
  {
    StepTaken(cfg, ws, steps, j);
    hide Apply, Enabled, Run, Bare, LastPut;
    FetchLeads(cfg, ws[j], steps[j], n);
    if forall m | i < m < j :: !Puts(ws[m], steps[m], n) {
      StoresWhatItRead(cfg, ws, steps, i, j, n);
      SingleFlight(cfg, ws, steps, j, steps[i].c, steps[j].c);
      assert false;
    }
    m := LatestPut(ws, steps, i, j, n);
    Stands(cfg, ws, steps, m, j, n);
    BareHolds(cfg, ws, steps, j);
    var f := FetchedFrom(cfg, ws, steps, m, steps[m].c);
    CardIsNeverEmpty(steps[f].lines);
    NoCard(ws[j], steps[j].c);
    q :| m < q < j && Looks(ws[q], steps[q], n) && steps[q].now >= steps[m].now + cfg.ttl;
  }

  lemma NoCard(w: World, c: nat)
    requires Bare(w) && c in w.callers && w.callers[c].pc.Fetching?
    ensures w.callers[c].entry in w.heap && w.heap[w.callers[c].entry].card == ""
  {
  }

  // ---- a call that finds nothing, and one that waits ----

  /** A caller that reads without failure stores and returns what it read. */
  lemma ReadAndStore(cfg: Config, w: World, c: nat, lines: seq<string>, now: int)
    requires c in w.callers && w.callers[c].pc.Fetching? && w.callers[c].entry in w.heap
    ensures Enabled(w, Fetch(c, true, lines)) && var w1 := Apply(cfg, w, Fetch(c, true, lines));
      && Enabled(w1, Put(c, now)) && var w2 := Apply(cfg, w1, Put(c, now));
      && Enabled(w2, Release(c)) && var w3 := Apply(cfg, w2, Release(c));
      && w3.callers == w.callers[c := w.callers[c].(pc := Done(Card(RenderCard(lines), OwnRead)))]
      && w3.heap.Keys == w.heap.Keys && !w3.heap[w.callers[c].entry].locked
      && forall n | n in w.heap && n != w.callers[c].entry :: w3.heap[n] == w.heap[n]
  {
    hide RenderCard;
  }

  /** A call for a snapshot nobody has asked for goes through: it takes its entry's lock, looks again, reads, stores
      and returns what it read. */
  lemma ColdCall(cfg: Config, w: World, c: nat, id: string, made: nat, lines: seq<string>, now: int)
    requires id != "latest" && id !in w.slots.entries && c !in w.callers && made !in w.heap
    ensures var steps := [Request(c, id, made, now), TakeLock(c), Recheck(c, now), Fetch(c, true, lines), Put(c, now),
                          Release(c)];
      && Enabled(w, steps[0]) && var w1 := Apply(cfg, w, steps[0]);
      && Enabled(w1, steps[1]) && var w2 := Apply(cfg, w1, steps[1]);
      && Enabled(w2, steps[2]) && var w3 := Apply(cfg, w2, steps[2]);
      && Enabled(w3, steps[3]) && var w4 := Apply(cfg, w3, steps[3]);
      && Enabled(w4, steps[4]) && var w5 := Apply(cfg, w4, steps[4]);
      && Enabled(w5, steps[5]) && var w6 := Apply(cfg, w5, steps[5]);
      && w6.callers == w.callers[c := Caller(id, made, Done(Card(RenderCard(lines), OwnRead)))]
      && made in w6.heap && !w6.heap[made].locked
      && forall n | n in w.heap :: n in w6.heap && w6.heap[n] == w.heap[n]
  {
    var w3 := ColdLook(cfg, w, c, id, made, now);
    hide *;
    ReadAndStore(cfg, w3, c, lines, now);
  }

  lemma ColdLook(cfg: Config, w: World, c: nat, id: string, made: nat, now: int) returns (w3: World)
    requires id != "latest" && id !in w.slots.entries && c !in w.callers && made !in w.heap
    ensures Enabled(w, Request(c, id, made, now)) && var w1 := Apply(cfg, w, Request(c, id, made, now));
      && Enabled(w1, TakeLock(c)) && var w2 := Apply(cfg, w1, TakeLock(c));
      && Enabled(w2, Recheck(c, now)) && w3 == Apply(cfg, w2, Recheck(c, now))
      && w3.callers == w.callers[c := Caller(id, made, Fetching)]
      && made in w3.heap && forall n | n in w.heap :: n in w3.heap && w3.heap[n] == w.heap[n]
  {
    hide RenderCard, Requested;
    w3 := Apply(cfg, Apply(cfg, Apply(cfg, w, Request(c, id, made, now)), TakeLock(c)), Recheck(c, now));
  }

  /** A caller whose read fails returns the failure and stores nothing; one that waits may give up; and the alias
      for the latest snapshot is turned away before it touches anything. */
  lemma OtherEnds(cfg: Config, w: World, c: nat, made: nat, now: int)
    ensures c !in w.callers && made !in w.heap ==>
      && Enabled(w, Request(c, "latest", made, now))
      && Apply(cfg, w, Request(c, "latest", made, now))
         == w.(callers := w.callers[c := Caller("latest", made, Done(Latest))])
    ensures c in w.callers && w.callers[c].entry in w.heap && w.callers[c].pc.Waiting? ==>
      && Enabled(w, GiveUp(c))
      && Apply(cfg, w, GiveUp(c)) == w.(callers := w.callers[c := w.callers[c].(pc := Done(GaveUp))])
    ensures c in w.callers && w.callers[c].entry in w.heap && w.callers[c].pc.Fetching? ==>
      && Enabled(w, Fetch(c, false, [])) && var w1 := Apply(cfg, w, Fetch(c, false, []));
      && Enabled(w1, Release(c)) && var w2 := Apply(cfg, w1, Release(c));
      && w2.callers == w.callers[c := w.callers[c].(pc := Done(FetchFailed))]
      && w2.stores == w.stores && w2.fetches == w.fetches && !w2.heap[w.callers[c].entry].locked
      && w2.heap[w.callers[c].entry].card == w.heap[w.callers[c].entry].card
  {
  }

  lemma HolderCanStep(cfg: Config, w: World, c: nat, n: nat) returns (st: Step)
    requires OneAtATime(w) && Holder(w, c, n)
    ensures st.c == c && Enabled(w, st) && !st.GiveUp?
  {
    match w.callers[c].pc
    case Checking => st := Recheck(c, 0);
    case Fetching => st := Fetch(c, false, []);
    case Fetched(_) => st := Put(c, 0);
    case _ => st := Release(c);
  }

  /** A call under way can go on, or waits for a call that can, with nobody giving up. */
  lemma NeverStuck(cfg: Config, w: World, c: nat) returns (st: Step)
    requires OneAtATime(w) && c in w.callers && !w.callers[c].pc.Done?
    ensures Enabled(w, st) && !st.Request? && !st.GiveUp?
    ensures st.c == c || (w.callers[c].pc.Waiting? && Holder(w, st.c, w.callers[c].entry))
  {
    var n := w.callers[c].entry;
    if !w.callers[c].pc.Waiting? {
      st := HolderCanStep(cfg, w, c, n);
    } else if !w.heap[n].locked {
      st := TakeLock(c);
    } else {
      var h :| Holder(w, h, n);
      st := HolderCanStep(cfg, w, h, n);
    }
  }
}
