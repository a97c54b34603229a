# Urara Vision: verified model

Urara Vision reads a directory of table documents into a graph, compares versions of it, draws it, and answers
questions about it with a tool-using language model. This project models the parts whose correctness rests on state,
order or arithmetic, and proves what they promise.

**The chat turn.** A turn takes one of a fixed number of slots, then a reference-counted lock on its conversation,
reads the history, stores the question, runs a budgeted tool loop and stores the answer. `Locks.dfy` holds the
limiter and the lock table twice: as classes whose methods update slots, counts and channels in place, and as the
functions on the table that those methods refine. `TurnProtocol.dfy` interleaves any number of turns, one program
counter each, with writes that may fail or be reported failed after all, beside questions asked outside any
conversation, which take a slot too; every invariant is proved over every run, and once nobody arrives a run has a
bounded number of steps left and, going on while it can, ends with every turn gone. `TurnService.dfy` says what a turn
gets: below the cap it is served, and however others interleave its transcript grows by its own question and answer
and nothing else. `History.dfy`, `AgentLoop.dfy` and `Llm.dfy` carry the transcript to the provider: truncation and
conversion, the loop with its refusals and accounts, and the encoder that merges user turns and moves tool results to
the front. `TurnBudget.dfy` states the budget in characters and rounds, and `Reading.dfy` reads encoded turns back to
the list they were made from. `EndToEnd.dfy` joins them: at any moment of any run of the process, whatever the
provider and the tools return, every request the loop makes, in a conversation or outside one, encodes, and encodes to
turns that alternate, start and end with the user, and answer each assistant's calls one for one in the very next
turn.

**The card cache** (`CardCache.dfy`, `CardHits.dfy`). The map and recency list refine "the most recently requested
distinct IDs"; the fetch protocol over all interleavings keeps one fetch at a time per entry object and cards that come
from reads of the ID asked for; and a stored card answers every look until it expires, so callers share one read a
lifetime.

**The version diff** (`Pairing.dfy`, `DiffKeys.dfy`, `PairKeys.dfy`, `PairTotals.dfy`, `Walking.dfy`, `Diff.dfy`,
`DiffLaws.dfy`). An item is told apart by its own fields, a join by the way it is referred to and not by what it
resolves to, and is listed exactly when it is on one side only or a compared field differs, with those fields.
Repeats of one key are paired so that no other pairing reports less; comparing a model with itself reports nothing;
every count is the number of entries listed; swapping the arguments mirrors the result; where no key clashes the
result is settled, whatever order groups come in; and items are conserved exactly when no key reads as a numbered
repeat of another.

**The graph** (`Registries.dfy`, `Orientation.dfy`, `Resolving.dfy`, `GraphEdges.dfy`, `EdgeLaws.dfy`,
`Sources.dfy`, `GraphBuild.dfy`, `BuildOrder.dfy`). The four writings of a join, from either table and in either
order, are drawn as one edge exactly when the columns determine it; two builds from the same documents, their IDs
distinct, in another order, rows too, draw the same edges, list the same sources and note the
same diagnostics; resolution is total, and its diagnostics count its outcomes; upstream sources fold onto one
identity, and folding again changes nothing.

**The hull** (`Hull.dfy`). Andrew's monotone chain over exact reals: from the local turn tests to containment of
every input point, strictness of every turn, and an area that is never negative.

**Three smaller refinements.** `RateLimiting.dfy` (a pruned list against the whole history), `Citations.dfy`
(bounded search, masking, ranking) with `Namesakes.dfy` (what masking does for bare names), and two scanners with
round trips, `Languages.dfy` and `TableRows.dfy`.

`Text.dfy`, `Sorting.dfy`, `Totals.dfy`, `Options.dfy` and `Models.dfy` are shared.

Where the code and its comments differ, the model follows the code:

- `keys.go` says repeats are numbered "so none is dropped"; `DiffKeys.LossyIndex` gives a list that loses an
  item, and `DiffKeys.IndexIsLossless` says exactly which do.
- `ratelimit.go` calls the wait of a refusal the time until the key may try again; when more failures than the
  limit are in the window that need not be so, as in `RateLimiting.RetryStillRefused`. `RateLimiting.RetryAfterWait`
  and `RateLimiting.AskAgain` say exactly when it is.
- `orient.go` reports an unmatched join key as naming a column of neither table; the test is that a side is missing, or
  that the sides differ and the declaring table documents neither (`Orientation.OrientedFits`).
  `Orientation.UnmatchedMessageWrong` is a join the report is wrong about, `Orientation.OneNameNeverSettled` shows every
  key of a single name is reported, and `Orientation.UnmatchedMessage` says which reports are right.
- `citations.go` blanks full IDs so that a bare name does not cite a namesake. It does keep namesakes out of a mention
  that stands alone (`Namesakes.NamesakesKeptOut`), but identifiers may overlap, and then it need not:
  `Namesakes.NamesakeCited` is an answer that cites one. `Namesakes.BareNameStays` says exactly when a bare name can
  still be found, and `Namesakes.FirstCandidateDecides` which candidate it hangs on.
- `i18ntext.go` joins parts tagged twice; the joined text may spell a new tag (`Languages.TaggedTwiceWritesATag`).
- `loop.go` leaves refused calls out of its records as never run; a call in the reply after a spent budget has not run
  either and is recorded all the same, as in `AgentLoop.RecordedUnrun`. `AgentLoop.EveryCallAccounted` says there are as
  many records as results exactly when that reply makes no calls.

## Model

| member | source | states |
|---|---|---|
| Limits.TurnLimiter.TryAcquire | backend/internal/chat/httpapi/limits.go:34-39 | a slot is handed out exactly when one is free, and never more than the limit |
| Limits.Slot.Release | backend/internal/chat/httpapi/limits.go:52-55 | a slot is given back once, however often its release is called |
| Limits.ConversationLocks.Register | backend/internal/chat/httpapi/limits.go:72-80 | joins the object already in the map or files a new one, and is counted on it; nothing else changes |
| Limits.ConversationLocks.TryTake | backend/internal/chat/httpapi/limits.go:82-87 | the channel send goes through exactly when nobody is in it |
| Limits.ConversationLocks.Drop | backend/internal/chat/httpapi/limits.go:97-103 | one count is given back and the entry goes from the map with the last |
| Limits.ConversationLocks.Tracked | backend/internal/chat/httpapi/limits.go:106-110 | the size of the lock map, which TrackedConversations counts out |
| Limits.Hold.Unlock | backend/internal/chat/httpapi/limits.go:88-95 | the first call frees the channel and the count; a repeated call changes nothing at all |
| LockTable.InvStep | backend/internal/chat/httpapi/limits.go:72-103 | every step of any turn keeps: clients are filed under the very object they use, its count is the number of clients on it, its channel is full exactly while one of them holds it |
| LockTable.RunHolds | backend/internal/chat/httpapi/limits.go:72-103 | that invariant at every moment of every interleaving |
| LockTable.TrackedWhileCounted | backend/internal/chat/httpapi/limits.go:63-66 | an object is in the map exactly while its count is positive |
| LockTable.OneHolder | backend/internal/chat/httpapi/limits.go:57-87 | turns on one conversation share one object and two never hold it at once |
| LockTable.OthersKeepTheirHold | backend/internal/chat/httpapi/limits.go:82-94 | a turn giving up or unlocking never disturbs another turn or frees its hold |
| LockTable.BlockedByHolder | backend/internal/chat/httpapi/limits.go:82-87 | a waiter can take the lock exactly when no turn holds its conversation |
| LockTable.TrackedConversations | backend/internal/chat/httpapi/limits.go:105-110 | the map's keys are the conversations with a holder or waiter, so its size is zero exactly when all have left |
| TurnProtocol.CountTurns | backend/internal/chat/httpapi/turn.go:79-84 | the number of assistant messages in the history |
| TurnProtocol.InvStep | backend/internal/chat/httpapi/turn.go:51-121 | every step of any turn, failed and misreported writes included, keeps slots counted, lock clients aligned with program counters, transcripts sound and memories true |
| TurnProtocol.RunHolds | backend/internal/chat/httpapi/turn.go:51-121 | that invariant at every moment of every run from an empty store |
| TurnProtocol.ProtocolSafety | backend/internal/chat/httpapi/turn.go:51-121 | at most limit turns hold slots, at most one turn owns a conversation, answers never pass the cap, and each answer directly follows the question of its own turn |
| TurnProtocol.WaitsDescend | backend/internal/chat/httpapi/turn.go:51-64 | whoever is waited for holds a slot and is nearer the end |
| TurnProtocol.WaitChainsAreShort | backend/internal/chat/httpapi/turn.go:51-64 | no chain of waiting turns has more than three of them, so none is a cycle |
| TurnProtocol.NeverStuck | backend/internal/chat/httpapi/turn.go:51-67 | while any turn is unfinished some turn can go on without anyone being refused |
| TurnProtocol.StepLowers | backend/internal/chat/httpapi/turn.go:51-121 | any step but a new conversation or a new turn, failures and refusals included, leaves strictly less to do |
| TurnProtocol.ClosingEnds | backend/internal/chat/httpapi/turn.go:51-121 | once nobody arrives, with or without a conversation, steps are bounded by what is left to do, and no turn can go on exactly when every turn is gone |
| TurnService.ReadServes | backend/internal/chat/httpapi/turn.go:71-91 | a turn that has read its conversation goes on, with what is stored, exactly when it is stored and holds fewer assistant messages than the cap; otherwise, or if the read fails, it lets go |
| TurnService.Asks | backend/internal/chat/httpapi/turn.go:71-99 | below the cap the question is stored and the model is asked with the transcript as it was before the question |
| TurnService.Serves | backend/internal/chat/httpapi/turn.go:71-121 | then, nothing failing, the transcript grows by the question and its answer and nothing else changes; if the model fails, by the question alone |
| TurnService.WholeTurn | backend/internal/chat/httpapi/turn.go:51-121 | with a slot free and nobody in the conversation a turn goes through from slot to release: question and answer stored, slot and lock given back, every other turn where it was |
| TurnService.GivesUp | backend/internal/chat/httpapi/turn.go:59-63 | a turn that waits for its conversation may give up at any time; it gives back its slot and its count and leaves transcripts and held channels as they are |
| TurnService.AloneTurn | backend/internal/chat/httpapi/answer.go:7-19 | a question outside any conversation needs a slot alone and leaves no trace |
| TurnService.NobodyBetween | backend/internal/chat/httpapi/turn.go:71-121 | in any run, between a turn reading its conversation and storing its answer the transcript grows by its own question and the answer the model gave it, and by nothing else |
| TurnService.Comes | backend/internal/chat/httpapi/turn.go:35-58 | a question may come at any time as a turn of its own, blank only outside conversations; a conversation is opened once |
| TurnService.BlockedWhileWaiting | backend/internal/chat/httpapi/turn.go:51-64 | a turn is kept from its slot or its conversation exactly when it waits for some turn |
| Anthropic.AppendUser | backend/internal/chat/llm/anthropic/encode.go:79-93 | a block becomes a new user turn after an assistant, and otherwise enters the last turn behind every result and, if a result, ahead of every text |
| Anthropic.Encode | backend/internal/chat/llm/anthropic/encode.go:23-75 | what it returns reads back as the list it was given; succeeds exactly when tools allow the choice and every message can be sent, names the first fault otherwise, and yields the turns of an independent definition by runs |
| Reading.Decode | backend/internal/chat/llm/anthropic/encode.go:104-119 | texts run together, every tool use a call with its ID, name and arguments, none read as an empty object |
| Anthropic.WireReadsBack | backend/internal/chat/llm/anthropic/encode.go:52-93 | the turns of a list read back as the list: what each assistant message said and called for, every tool result and every user text, in order, and no user turn behind another |
| Anthropic.LegalStep | backend/internal/chat/llm/anthropic/encode.go:52-93 | an assistant message followed by a run that answers it keeps the encoded request legal |
| History.TruncateHistory | backend/internal/chat/agent/history.go:14-23 | the last limit messages, less those before the first user message among them |
| History.ToLLMMessages | backend/internal/chat/agent/history.go:27-38 | user and assistant messages in order, every other role dropped |
| History.ConvertedAdds | backend/internal/chat/agent/history.go:27-38 | message by message, a question is asked, an answer said, and any other role leaves nothing |
| History.TruncatedIsPlain | backend/internal/chat/agent/history.go:14-38 | truncating a well-shaped transcript leaves no answer without its question in front |
| History.PlainIsLegal | backend/internal/chat/agent/history.go:11-38 | such talk, ending on a question, encodes to a legal request |
| History.EstimateTokens | backend/internal/chat/agent/history.go:42-56 | a quarter of the characters of texts and call arguments |
| TurnBudget.CharsAdd | backend/internal/chat/agent/history.go:42-56 | characters add up over messages |
| TurnBudget.CharsOfOne | backend/internal/chat/agent/history.go:42-63 | a message is its text and, if it makes calls, their arguments as one list, none counted as an empty object |
| AgentLoop.RunTools | backend/internal/chat/agent/loop.go:154-189 | succeeds exactly when every call does, with results in call order and advice for unknown tools |
| AgentLoop.Run | backend/internal/chat/agent/loop.go:22-145 | provider calls form one conversation, the first must use a tool; at most max(1, budget) + 1 calls; a legal first request keeps every request legal; the answer accounts for exactly its replies, refusals and results |
| TurnBudget.BudgetKept | backend/internal/chat/agent/loop.go:71-103 | of every reply that calls tools and is followed by another request, its calls were run exactly when a round was left and a quarter of the characters of system prompt, request and reply was below the token limit, and turned away otherwise; so a turn is truncated exactly when its last round failed one of the two |
| TurnBudget.SpentIs | backend/internal/chat/agent/loop.go:74-150 | the budget in characters: the system prompt, the request, the reply and its calls |
| TurnBudget.RequestsAre | backend/internal/chat/agent/loop.go:49-64 | every call sends the system prompt and the tools and only the first must use one; an empty reply is heard as a reply without words or calls |
| TurnBudget.ResultsInOrder | backend/internal/chat/agent/loop.go:91-187 | each result is the output of its call, or the advice for an unknown tool, in round and call order |
| TurnBudget.JoinSnoc | backend/internal/chat/agent/loop.go:167 | the names in that advice, with a separator between each two |
| AgentLoop.EveryCallAccounted | backend/internal/chat/agent/loop.go:71-125 | with distinct call IDs the calls split into run, refused and left over; records are all but the refused; truncated exactly when some call was refused; as many records as results exactly when none is left over |
| AgentLoop.RecordedUnrun | backend/internal/chat/agent/loop.go:70-125 | with a budget of one round and a provider that always asks for a tool, one call is recorded and none has run |
| AgentLoop.PickText | backend/internal/chat/agent/loop.go:105-111 | the last reply that says something, or the apology |
| TurnBudget.TextIsTheLastSaid | backend/internal/chat/agent/loop.go:105-111 | the trimmed text of the last reply that is not blank, or the apology when all are |
| Text.Spaces | backend/internal/chat/agent/loop.go:107 | what is trimmed is white space, character by character |
| AgentLoop.Tally | backend/internal/chat/agent/loop.go:116-133 | records of every call not refused, and the summed usage with whether every reply reported it |
| TurnBudget.UsageAdds | backend/internal/chat/agent/loop.go:117-132 | usage adds up reply by reply, count by count |
| TurnBudget.UsageOfOne | backend/internal/chat/agent/loop.go:126-132 | of one reply it is what was reported, or nothing |
| TurnBudget.RecordsTell | backend/internal/chat/agent/loop.go:116-125 | with nothing refused each call has its record, its name and its arguments or an empty object |
| AgentLoop.Finish | backend/internal/chat/agent/loop.go:105-145 | token counts are all reported or all estimated, never mixed |
| TurnBudget.EstimatesAdd | backend/internal/chat/agent/loop.go:54-66 | both estimates grow by a quarter of the characters of each call and of each reply |
| AgentLoop.AnswerQuestion | backend/internal/chat/agent/agent.go:65-73 | the question goes last behind the truncated history; with a well-shaped history every request can be sent |
| EndToEnd.SoundIsShaped | backend/internal/chat/httpapi/turn.go:76-121 | what the protocol keeps of a transcript is the shape the loop needs of its history |
| EndToEnd.FinalTextSaysSomething | backend/internal/chat/agent/loop.go:105-111 | the text to be stored is never blank |
| EndToEnd.AskAlone | backend/internal/chat/httpapi/debug_answer.go:81-100 | a question outside any conversation is refused exactly when blank or too long once trimmed, and otherwise every provider request encodes to legal turns |
| EndToEnd.AskModel | backend/internal/chat/httpapi/turn.go:69-121 | in any reachable state, every provider request of a turn encodes to legal turns and its answer is one the turn may store |
| CardCaches.CardCache.Slot | backend/internal/chat/agent/card.go:202-215 | finds or makes the entry and leaves map and list as one request does in the specification |
| CardCaches.CardCache.Keep | backend/internal/chat/agent/card.go:207-214 | the new entry leads and exactly what no longer fits leaves both map and list |
| CardCaches.CardCache.Live | backend/internal/chat/agent/card.go:219-224 | an expired card is cleared, an unexpired one returned; the entry stays |
| CardCaches.CardCache.Len | backend/internal/chat/agent/card.go:194-199 | the length of the list is the number of entries of the map, within the limit |
| RecencyList.RequestedIsValid | backend/internal/chat/agent/card.go:202-215 | a request keeps map and list in bijection within the limit |
| RecencyList.RequestRefinesRecent | backend/internal/chat/agent/card.go:134-142 | the list stays the most recently requested distinct IDs that fit |
| RecencyList.RecentByLastRequest | backend/internal/chat/agent/card.go:134-142 | that list holds each requested ID once, by the time of its last request |
| CardProtocol.CardIsNeverEmpty | backend/internal/chat/agent/card.go:24-30 | a rendered card is not empty, so the empty string can mean no card |
| CardProtocol.CardKeepsLines | backend/internal/chat/agent/card.go:24-30 | an inventory whose text has no white space at its ends is rendered line by line as it is, so different inventories give different cards |
| CardProtocol.InvStep | backend/internal/chat/agent/card.go:156-192 | every step of every caller keeps recency order, one holder for each entry's lock, and the origin of every card |
| CardProtocol.CacheRefinesRecency | backend/internal/chat/agent/card.go:202-215 | at every moment of every run the list is exactly the most recently requested IDs that fit |
| CardProtocol.SingleFlight | backend/internal/chat/agent/card.go:169-192 | at most one fetch runs for each entry object, evicted or not |
| CardProtocol.CardsAreFresh | backend/internal/chat/agent/card.go:156-192 | a card returned came from a read of the same ID, made by this call or unexpired when looked at |
| CardHits.StoredCardIsReturned | backend/internal/chat/agent/card.go:156-191 | until the time of the last store into an entry object plus the lifetime, whoever looks there gets the card that was read for that store: a request at once, a waiter as soon as it has the lock |
| CardHits.OneFetchALifetime | backend/internal/chat/agent/card.go:169-192 | between two reads for one entry object, the first a success, there is a store, and since the last store a look at or after its time plus the lifetime |
| CardHits.FoundUnderItsId | backend/internal/chat/agent/card.go:156-192 | what a request finds was stored by a call for the same ID |
| CardHits.ColdCall | backend/internal/chat/agent/card.go:156-192 | a call for an ID not held goes through lock, second look, read and store to its card, and leaves the lock free |
| CardHits.OtherEnds | backend/internal/chat/agent/card.go:156-186 | a failed read is returned and stores nothing, a waiter may give up, and the alias for the latest snapshot touches nothing |
| CardHits.NeverStuck | backend/internal/chat/agent/card.go:169-192 | a call under way can go on, or waits for one that can |
| DiffKeys.OccurrenceInjective | backend/internal/diff/keys.go:114-119 | two numbered names coincide only if one key reads as a repeat of the other |
| DiffKeys.Index | backend/internal/diff/keys.go:30-39 | every item under its key and the number of times that key has come up |
| DiffKeys.IndexIsLossless | backend/internal/diff/keys.go:28-39 | no item is dropped exactly when no key reads as a repeat that another key really has |
| DiffKeys.LossyIndex | backend/internal/diff/keys.go:28-39 | two items under "a" and one under "a#2" lose an item |
| Pairing.PairGroup | backend/internal/diff/keys.go:57-79 | one-to-one, as many pairs as the shorter side, as many equal pairs as the facts both sides share, leftovers on one side only; each item takes the first equal there is, and the rest pair by position |
| Pairing.PairingAgrees | backend/internal/diff/keys.go:41-79 | so a group is paired in one way |
| Pairing.NoBetterPairing | backend/internal/diff/keys.go:41-79 | no pairing has more pairs, nor more equal ones, than that |
| Pairing.BestReportsLeast | backend/internal/diff/keys.go:41-79 | no pairing of a group reports less |
| Pairing.BestMirrored | backend/internal/diff/keys.go:41-79 | pairing the other way leaves as many over on each side and changes as many |
| PairKeys.PairBase | backend/internal/diff/keys.go:55-101 | one group filed under its numbered names on both sides, pairs first |
| PairKeys.PairIndex | backend/internal/diff/keys.go:43-103 | a best pairing of every group, each filed in order; the names on each side are those of plain numbering; two equal lists agree name by name |
| PairTotals.ToldTotal | backend/internal/diff/keys.go:55-101 | what is reported adds up, group by group, to the cost of the pairings |
| PairTotals.ReportsLeast | backend/internal/diff/keys.go:41-101 | no choice of pairings for all groups reports fewer additions, removals and changes |
| PairTotals.ChangesMirrored | backend/internal/diff/keys.go:43-103 | compared the other way as many change |
| PairTotals.PairedAgree | backend/internal/diff/keys.go:43-103 | whatever order the groups come in, items are paired alike and a side is filed alike if none of its keys reads as a repeat that another really has |
| PairTotals.PairingConserves | backend/internal/diff/keys.go:43-103 | each side is shared plus left over exactly when no key reads as a repeat that another really has |
| Walking.Walk | backend/internal/diff/diff.go:241-271 | exactly the keys that differ, in strictly ascending order, each told once, with counts that are the sizes of the three key sets |
| Text.LessAtFirstDifference | backend/internal/diff/diff.go:251 | keys are compared as texts: a shorter beginning, or the smaller character at the first difference, comes first |
| Walking.CountsAreListed | backend/internal/diff/diff.go:238-271 | each count is the number of entries of that kind |
| Walking.ReportMirrored | backend/internal/diff/diff.go:241-271 | walked the other way: the same keys in the same order, counts swapped |
| Walking.NothingToReport | backend/internal/diff/diff.go:241-271 | two sides that agree report nothing |
| Diff.SameIsSameFacts | backend/internal/diff/diff.go:212-218 | the pairing's tests are equality of the facts reported |
| Diff.DifferencesTell | backend/internal/diff/diff.go:280-285 | nothing listed exactly when the facts are equal; turned round the other way |
| Diff.DifferencesExact | backend/internal/diff/diff.go:194-210 | a change is listed exactly if that fact differs, with both values |
| Diff.Section | backend/internal/diff/diff.go:99-111 | a section reports each one-sided item and each pair whose facts differ |
| Diff.ColumnsSilent | backend/internal/diff/diff.go:174-192 | no column is listed exactly when both tables have the same ones saying the same |
| Diff.CompareTables | backend/internal/diff/diff.go:113-129 | tables differing in their own facts or their columns, with their columns, whose counts add up |
| Diff.Compare | backend/internal/diff/diff.go:91-172 | all five parts of the result: section reports over plain or paired keys |
| Diff.CompareItself | backend/internal/diff/diff.go:91-172 | a model compared with itself lists nothing and counts nothing |
| Diff.CompareCounts | backend/internal/diff/diff.go:24-36 | each summary count is the number of listed entries of that kind |
| Diff.CompareMirrored | backend/internal/diff/diff.go:91-172 | swapped arguments swap added with removed in every count and turn every domain, table and column entry round |
| Diff.CompareMirroredRepeats | backend/internal/diff/diff.go:131-169 | joins and lineage rows too keep their changed count when no key reads as a repeat of another |
| Diff.CompareSettled | backend/internal/diff/diff.go:91-172 | two models have one comparison, whatever order groups of repeats come in, if no join or lineage key reads as a repeat that another on its side really has |
| Diff.CompareMirroredSingles | backend/internal/diff/diff.go:131-169 | where no join, or no lineage row, comes up twice in a model, swapping the arguments turns every listed one round |
| Diff.RepeatsReportLeast | backend/internal/diff/diff.go:131-169 | no pairing of repeats would report fewer joins or lineage rows |
| Diff.RepeatsConserved | backend/internal/diff/diff.go:131-169 | old items are shared or removed and new ones shared or added exactly when no key reads as a repeat that another really has |
| Diff.CompareConserves | backend/internal/diff/diff.go:99-129 | domains and tables are conserved exactly when no ID reads as a repeat that another really has |
| Diff.ColumnsConserve | backend/internal/diff/diff.go:174-192 | so are the columns of a pair of tables, by name |
| DiffLaws.JoinsByFields | backend/internal/diff/diff.go:131-149 | where each join comes up once: listed exactly when on one side only or when cardinality, resolution or target table differ; on both sides it is changed, never added or removed, and the entry has the new target and exactly the fields that differ |
| DiffLaws.JoinListed | backend/internal/diff/diff.go:131-149 | nothing but joins of the two models is listed |
| DiffLaws.DeclaredAre | backend/internal/diff/diff.go:220-226 | the joins of a model are those of its tables |
| DiffLaws.RowsByFields | backend/internal/diff/diff.go:151-169 | the same for lineage rows, told apart by table, column and source, listed when notes or derived differ |
| DiffLaws.RowListed | backend/internal/diff/diff.go:151-169 | nothing but lineage rows of the two models is listed |
| DiffLaws.RowsAre | backend/internal/diff/diff.go:228-236 | the lineage rows of a model are those of its tables, each with its table ID |
| DiffLaws.DomainsByFields | backend/internal/diff/diff.go:99-199 | a domain is listed under its ID exactly when on one side only or its title or description differ, with those fields |
| DiffLaws.TablesByFields | backend/internal/diff/diff.go:113-210 | a table is listed under its ID exactly when on one side only, one of its six facts differs or the columns do, with the facts that differ and the columns of the pair |
| DiffLaws.ColumnsByFields | backend/internal/diff/diff.go:174-192 | a column is listed under its name exactly when on one side only or its type, description or keys differ, with those fields |
| DiffLaws.ListedById | backend/internal/diff/diff.go:238-272 | domains and tables come in byte order of their IDs, each once |
| DiffLaws.ListedByKind | backend/internal/diff/diff.go:24-36 | each count is the number of entries of its kind |
| DiffLaws.ColumnTotalsAdd | backend/internal/diff/diff.go:113-129 | the columns counted are those listed under each table |
| Registries.NewRegistry | backend/internal/graph/registry.go:26-41 | under each ID the last table that has it, and under each name its IDs in byte order |
| Registries.PickConformed | backend/internal/graph/resolve.go:95-126 | among the documented candidates, one that says it is conformed if any does, then one with most columns, then the one whose ID comes first; with none documented, the first candidate |
| Registries.PickIgnoresOrder | backend/internal/graph/resolve.go:92-126 | the choice is the same for any order of the candidates |
| Registries.ConformedWhen | backend/internal/graph/registry.go:54-72 | a table is conformed exactly when another document carries its name or it says so itself |
| Registries.SaysConformed | backend/internal/graph/registry.go:74-80 | a document says so exactly when its domain label or its kind holds the word, in any case |
| Registries.MarkedInstances | backend/internal/graph/registry.go:54-72 | a conformed table is told every other instance of its name, in byte order, and nothing else |
| Orientation.OrientedFits | backend/internal/graph/orient.go:14-44 | names are kept, a reading that fits both tables is chosen whenever there is one, and the key counts as settled exactly when the names are equal or the declaring table documents one |
| Orientation.WritingsCollapse | backend/internal/graph/orient.go:16-44 | all four writings of a join name the same columns exactly when the names are equal or just one assignment fits, and then it is that one |
| Orientation.OrderImmaterial | backend/internal/graph/orient.go:16-44 | when the written order does not matter on one table alone |
| Orientation.UnmatchedMessage | backend/internal/graph/orient.go:55-66 | of any join left unsettled, the diagnostic is right exactly when neither side names a column of the other table and, if one is missing, the other names none of the declaring table |
| Orientation.UnmatchedMessageWrong | backend/internal/graph/orient.go:55-66 | an unsettled join with a name that is a column of the other table |
| Orientation.OneNameNeverSettled | backend/internal/graph/orient.go:17-19 | a key that is one name is always reported, wrongly if the declaring table documents it |
| Resolving.ResolveRow | backend/internal/graph/resolve.go:27-80 | one of four outcomes, the binding, the oriented columns and the diagnostics of a row |
| Resolving.ResolvesWhen | backend/internal/graph/resolve.go:27-80 | over the documents: prose is narrative, a name of the own domain binds there first, a name carried elsewhere binds to a table of that name, any other is unresolved |
| Resolving.UnmatchedNoted | backend/internal/graph/orient.go:46-66 | a join key is reported exactly when the row is bound, something was written, and a side is missing or the sides differ and the declaring table documents neither |
| Resolving.NamesAndProse | backend/internal/graph/resolve.go:128-141 | what names a table is made of sixty-four characters, listed; all else is prose |
| Resolving.BoundToRegistered | backend/internal/graph/resolve.go:18-84 | a row is bound exactly when local or conformed, and then to a registered table |
| Resolving.ConformedLeavesDomain | backend/internal/graph/resolve.go:41-80 | a bound row leaves its own domain exactly when it is conformed |
| Resolving.DiagnosticsCount | backend/internal/graph/resolve.go:18-84 | narrative, unresolved and cross-domain diagnostics are as many as the rows resolved that way |
| Resolving.TableTells | backend/internal/graph/resolve.go:18-84 | a table's diagnostics are those of its rows |
| Resolving.ModelTells | backend/internal/graph/resolve.go:18-84 | a model's are those of its tables |
| Resolving.CodesCounted | backend/internal/graph/resolve.go:18-84 | diagnostics of a code are counted one by one |
| Resolving.RowsCounted | backend/internal/graph/resolve.go:18-84 | so are the rows of a table resolved in a way |
| Resolving.OutcomesAdd | backend/internal/graph/resolve.go:18-84 | and over tables they add up |
| GraphEdges.EdgeAtDescribes | backend/internal/graph/edges.go:49-90 | a merged edge shows its first declaration's ends and wording, is conformed if any is, and names each declaring table once |
| GraphEdges.Edges | backend/internal/graph/edges.go:40-108 | one edge for each key declared, no key twice, declaring tables ascending and exact, edges in order |
| GraphEdges.EdgesInOrder | backend/internal/graph/edges.go:98-106 | edges come in order of from table, to table and from column |
| GraphEdges.DirectionByWording | backend/internal/graph/edges.go:33-37 | each way of writing one-to-many, in any case and with blanks, turns the join round and words it many-to-one; many-to-one and one-to-one stay |
| EdgeLaws.KeysApart | backend/internal/graph/edges.go:65 | keys of NUL-free ends are equal only for equal ends |
| EdgeLaws.EdgesCanonical | backend/internal/graph/edges.go:40-108 | the same declarations in any order give the same edges but for the wording |
| EdgeLaws.OrderOfDocumentsImmaterial | backend/internal/graph/edges.go:40-108 | reordering tables or rows leaves the edges as they are but for the wording |
| EdgeLaws.CrossDomainIsConformed | backend/internal/graph/edges.go:70-85 | an edge of a resolved model crosses domains exactly when it is conformed |
| EdgeLaws.TwoSidedEnds | backend/internal/graph/edges.go:55-64 | a join declared from both sides, each in either order, has one pair of ends whenever the columns determine it |
| EdgeLaws.TwoSidedCollapse | backend/internal/graph/edges.go:10-30 | it is drawn as a single edge that lists both tables as declaring it |
| EdgeLaws.FourWritingsOneEdge | backend/internal/graph/edges.go:10-30 | a join declared in all four writings is drawn as one edge exactly when the columns determine it |
| Sources.QualifiedHasDot | backend/internal/graph/sources.go:124-129 | a reference is qualified exactly when it holds a dot, and its name then holds none |
| Sources.SourceRefShape | backend/internal/graph/sources.go:78-83 | a source is letters, digits and underscores with dots inside, no two side by side |
| Sources.RefsAre | backend/internal/graph/sources.go:21-45 | the references are those of the lineage rows of the tables |
| Sources.CountedAre | backend/internal/graph/sources.go:29-45 | a source is counted exactly when some reference that names a source comes to it |
| Sources.CanonicaliseSources | backend/internal/graph/sources.go:90-121 | a name is folded exactly when one qualified source has it, onto that source |
| Sources.FoldsIgnoreOrder | backend/internal/graph/sources.go:90-121 | the folding depends only on which sources are cited |
| Sources.RewrittenWhenSole | backend/internal/graph/sources.go:36-42 | a reference changes exactly when it is bare and one qualified source has its name |
| Sources.FoldingTwice | backend/internal/graph/sources.go:21-45 | folding folded tables changes nothing |
| Sources.ListSources | backend/internal/graph/sources.go:62-71 | every source once, its IDs strictly ascending, with its references, which add up to those counted |
| Sources.SourcesUnique | backend/internal/graph/sources.go:62-71 | the list of sources is settled by how often each is cited, in any order |
| GraphBuild.ResolveTable | backend/internal/graph/resolve.go:22-82 | every row of a table resolved, its diagnostics in row order |
| GraphBuild.Build.MarkConformed | backend/internal/graph/registry.go:54-72 | flags exactly the tables documented twice or declaring it, with their other instances, and counts them |
| GraphBuild.Build.ResolveRelationships | backend/internal/graph/resolve.go:18-84 | the whole model resolved in place, all diagnostics appended, every row counted |
| GraphBuild.CollectRows | backend/internal/graph/sources.go:28-43 | rows rewritten in place and each reference counted once |
| GraphBuild.ProseCounted | backend/internal/graph/sources.go:29-45 | rows citing prose are those whose source is neither blank nor a name of one, counted one by one |
| GraphBuild.Build.CollectSources | backend/internal/graph/sources.go:21-73 | tables rewritten, sources listed, one note for each table citing prose, edges and columns counted |
| GraphBuild.SizesAdd | backend/internal/graph/sources.go:21-30 | relationships and columns add up over tables |
| GraphBuild.BuildModel | backend/internal/graph/build.go:26-43 | the stages together: diagnostics count outcomes, and the sources are those cited, each once, their references summing to the lineage edges |
| BuildOrder.BuildsDrawAlike | backend/internal/graph/build.go:34-37 | with distinct IDs, documents given in another order, their rows too, build the same edges but for the wording |
| BuildOrder.BuildsNoteAlike | backend/internal/graph/build.go:34-37 | and note the same diagnostics, each as often |
| BuildOrder.BuildsCiteAlike | backend/internal/graph/build.go:37 | and the same sources, cited as often |
| GraphBuild.BuiltEdges | backend/internal/graph/build.go:34-37 | in a built model an edge crosses domains exactly when it is conformed |
| Hull.HalfHull | frontend/src/graph/hull.ts:31-46 | the stack is a strictly turning chain over the points swept that keeps all of them on its left |
| Hull.SignedArea | frontend/src/graph/hull.ts:15-23 | the shoelace sum round the ring |
| Hull.AreaOfRing | frontend/src/graph/hull.ts:10-23 | it is twice that of the triangles from the first vertex, base times height for one triangle, and changes sign with the direction |
| Hull.ConvexHull | frontend/src/graph/hull.ts:26-53 | vertices are inputs, every edge keeps every input on its left, every turn is strict unless all inputs are collinear, the area is never negative |
| Hull.RingIsStrict | frontend/src/graph/hull.ts:48-50 | joined halves turn strictly at every vertex, the junctions included |
| Hull.AreaIsNotNegative | frontend/src/graph/hull.ts:51 | a ring that encloses its own vertices has no negative area, so the reversal never happens |
| Hull.RingBounds | frontend/src/graph/hull.ts:83-95 | the least box, with every side reached |
| Hull.RingTopAt | frontend/src/graph/hull.ts:98-115 | the least y among the edges that span x, the box top without one |
| Hull.EdgeTopIsOnEdge | frontend/src/graph/hull.ts:105-113 | the place an edge passes x at lies on its line, on an upright edge at its upper end |
| Hull.HullTopIsAbove | frontend/src/graph/hull.ts:97-115 | no input point lies above the top of its own hull |
| RateLimiting.KeptLive | backend/internal/api/ratelimit.go:66-80 | what was dropped is never missed at a later cutoff |
| RateLimiting.RateLimiter.NewLoginLimiter | backend/internal/api/ratelimit.go:25-27 | an empty history and a window of fifteen minutes |
| RateLimiting.RateLimiter.Prune | backend/internal/api/ratelimit.go:66-80 | leaves exactly the failures of the whole history inside the window |
| RateLimiting.RateLimiter.Allow | backend/internal/api/ratelimit.go:37-45 | admits exactly when fewer than the limit of all failures since the last reset are in the window; a refusal's wait never passes the window, and is positive exactly when the second reading is still before the oldest leaves |
| RateLimiting.RateLimiter.Fail | backend/internal/api/ratelimit.go:47-57 | adds one failure to the history; the sweep changes no answer |
| RateLimiting.RateLimiter.Reset | backend/internal/api/ratelimit.go:59-63 | forgets one key's history and no other |
| RateLimiting.Limits | backend/internal/api/ratelimit.go:9-34 | twenty failures for an address, five for any other key, in fifteen minutes |
| RateLimiting.RateLimiter.Sweep | backend/internal/api/ratelimit.go:51-56 | after a sweep a key is on file only with failures that still counted when it began |
| RateLimiting.RetryAfterWait | backend/internal/api/ratelimit.go:36-45 | a retry when the wait is over is admitted exactly when the oldest and its ties bring the count below the limit |
| RateLimiting.AskAgain | backend/internal/api/ratelimit.go:36-45 | a refused caller who asks again just when the wait is over, nothing having failed, is let in on that condition exactly |
| RateLimiting.RetryStillRefused | backend/internal/api/ratelimit.go:36-45 | six failures in the window of a limit of five: the retry after the wait still finds five |
| Citations.Collect | backend/internal/chat/agent/citations.go:68-77 | identifiers trimmed and deduplicated whatever their case, in discovery order |
| Text.LowerLetters | backend/internal/chat/agent/citations.go:30 | the twenty-six capitals become small letters and nothing else changes |
| Citations.CollectedAre | backend/internal/chat/agent/citations.go:65-77 | exactly the identifiers found, each spelling once |
| Citations.TableIds | backend/internal/chat/agent/citations.go:16 | a domain and a name with one slash, both starting with a letter, a digit or an underscore |
| Citations.BoundedFrom | backend/internal/chat/agent/citations.go:162-175 | the least bounded match at or after a point, or -1 when there is none |
| Citations.AllBounded | backend/internal/chat/agent/citations.go:178-184 | increasing matches that do not overlap, none left out but those overlapping one listed |
| Citations.BoundedInText | backend/internal/chat/agent/citations.go:150-175 | a name stands as a word exactly when no letter, digit or underscore is against it |
| Citations.IndexCodeSpan | backend/internal/chat/agent/citations.go:187-201 | the first code span that opens with the name, or -1 |
| Citations.PlainWordInCode | backend/internal/chat/agent/citations.go:133-201 | a plain word is mentioned in a code span it opens and ends, or a dot follows, and never in prose without one |
| Citations.PlainWords | backend/internal/chat/agent/citations.go:18 | a plain word is made of the twenty-six small letters, listed, and is not empty |
| Citations.Unpin | backend/internal/chat/agent/citations.go:33-40 | each identifier in turn is blanked at its matches in what the ones before it left; the text keeps its length, nothing else is touched, and some of every full mention is blanked |
| Namesakes.PassesAgree | backend/internal/chat/agent/citations.go:33-40 | so a text and a list of identifiers are blanked in one way |
| Namesakes.MentionBlanked | backend/internal/chat/agent/citations.go:33-40 | a full mention no other occurrence overlaps is blanked from end to end |
| Namesakes.NamesakesKeptOut | backend/internal/chat/agent/citations.go:33-40 | no table, its own or a namesake, is mentioned by its bare name inside such a mention |
| Namesakes.BareNameStays | backend/internal/chat/agent/citations.go:33-40 | the bare name of any full mention can still be found there exactly when no blanked span touches that part of it |
| Namesakes.NamesakesCitable | backend/internal/chat/agent/citations.go:133-148 | and then exactly every namesake that is not a plain word is mentioned there |
| Namesakes.FirstCandidateDecides | backend/internal/chat/agent/citations.go:33-40 | where others overlap a mention ahead of its bare name only, that name stays exactly when the first candidate in order to touch the mention does not match it |
| Namesakes.NamesakeCited | backend/internal/chat/agent/citations.go:33-63 | an answer that names two tables in full, one overlapping the other, and cites a third by the bare name left over |
| Citations.FirstMention | backend/internal/chat/agent/citations.go:133-148 | the first place either the identifier or its bare name is mentioned, or -1 |
| Citations.BareMentionsMissSpans | backend/internal/chat/agent/citations.go:33-40 | a mention of a bare name touches no blanked identifier |
| Citations.ExtractCitations | backend/internal/chat/agent/citations.go:25-63 | at most twenty mentioned candidates by first mention and then discovery; one left out comes after all of twenty |
| Citations.CitedInOrder | backend/internal/chat/agent/citations.go:52-61 | twenty at most, by first mention and then in the order retrieved; what is left out was mentioned no earlier |
| Citations.CitedOnce | backend/internal/chat/agent/citations.go:23-25 | no table is cited twice and every one cited was retrieved |
| Citations.CitesUnique | backend/internal/chat/agent/citations.go:52-61 | the citations are determined by the candidates and their first mentions |
| Languages.New | backend/internal/i18ntext/i18ntext.go:39-54 | languages normalised, blank ones passed over |
| Languages.SupportedAre | backend/internal/i18ntext/i18ntext.go:39-54 | the tags of a project are exactly those it lists, normalised, without the blank ones |
| Languages.TagsAreOne | backend/internal/i18ntext/i18ntext.go:61 | case and blanks around a tag do not matter |
| Languages.TagLetters | backend/internal/i18ntext/i18ntext.go:61 | the twenty-six small letters become capitals and nothing else changes; tags are letters, figures and hyphens, listed |
| Languages.FindMarkers | backend/internal/i18ntext/i18ntext.go:134-136 | every tag, in order, none overlapping |
| Languages.Split | backend/internal/i18ntext/i18ntext.go:112-151 | segments cut at the tags, each trimmed and added to its language; the one ahead of every tag goes to the primary language |
| Languages.TranslationIsRead | backend/internal/i18ntext/i18ntext.go:96-151 | prose with one translation behind a tag: whoever asks for the tag is shown the translation, anyone else the rest |
| Languages.FoldedHolds | backend/internal/i18ntext/i18ntext.go:67-77 | languages are listed once and are the keys, whose texts are joined, trimmed and never blank; duplicated ones are those with several parts |
| Languages.InShowsText | backend/internal/i18ntext/i18ntext.go:96-109 | blank exactly when every part was; otherwise the text of the language asked for, else of the primary one, else of the first |
| Languages.TranslatedWhen | backend/internal/i18ntext/i18ntext.go:79-88 | translated exactly when some part with text is in a language other than the primary one |
| Languages.UntaggedTwiceIsMarkerFree | backend/internal/i18ntext/i18ntext.go:96-151 | when no language is tagged twice what is shown holds no tag |
| Languages.Resolve | backend/internal/i18ntext/prose.go:133-141 | prose in one language, blank prose left alone |
| Languages.ResolvingTwice | backend/internal/i18ntext/prose.go:133-141 | resolving again to any language changes nothing when no language was tagged twice |
| Languages.ResolvingTwiceExactly | backend/internal/i18ntext/prose.go:133-141 | for any project's languages, resolving again changes nothing exactly when the resolved text holds no tag |
| Languages.TaggedTwiceWritesATag | backend/internal/i18ntext/i18ntext.go:115-123 | a text tagged twice whose resolved form spells a new tag |
| TableRows.SplitRow | backend/internal/parser/mdtable.go:56-79 | the cells of a row by an independent scanner |
| TableRows.PrintedRowRoundTrip | backend/internal/parser/mdtable.go:54-79 | printing cells and splitting the row gives them back exactly when there are some and each is trimmed |
| TableRows.RowPrintedAgain | backend/internal/parser/mdtable.go:54-79 | printing a split row writes a row with the same cells, however the first was written |

## Left out

- Limits.TurnLimiter.TryAcquire: does not model the timer of a waiting caller; in the turn protocol a turn without a slot may be refused at any step.
- Limits.ConversationLocks.TryTake: the select on a cancelled context is the protocol's GiveUp step, which any waiting turn may take.
- AgentLoop.RunTools: the calls run in parallel in the source; only their outcomes by call index are modelled, and which of several failures comes first is not.
- AgentLoop.Run: the wording of its three notices, text fencing, log lines, latency and the JSON of results are uninterpreted; provider, tools and the length of JSON arguments are parameters.
- TurnProtocol.ProtocolSafety: speaks of one process and of no other writer to a conversation; a write reported failed may have happened, but not after its turn has let go of the lock.
- CardProtocol.InvStep: the card's text beyond being non-empty is a parameter, as the lines of its inventory; the backend read is one atomic step, and Get as a whole is this machine's steps over the class's Slot and Live.
- Pairing.PairGroup: works on the facts the comparison reads instead of calling a test; the two are shown the same by Diff.SameIsSameFacts.
- Diff.CompareMirroredRepeats: compares only counts, as repeats are numbered in the order of the side compared from, so the entries of a repeated join may come in another order when the arguments are swapped.
- DiffLaws.JoinsByFields: is about joins that come up once on each side and hold no bar in from table, target or from column, which the joined key cannot tell apart; what is reported of repeats is Diff.RepeatsReportLeast's.
- Diff.Entry: one record for the four flat entry kinds of the source; the table entry is its own.
- GraphEdges.Edges: leaves open the order of edges tied on from, to and from-column, and leaves edge IDs, which are SHA-1 digests, out.
- BuildOrder.BuildsDrawAlike: needs distinct IDs, as of two documents with one ID the later alone is found by it.
- EdgeLaws.CrossDomainIsConformed: needs IDs built from a slash-free domain and a name, as the parser builds them, and ends free of NUL, which the joined key cannot tell apart.
- Resolving.ResolveRow: relationship IDs, severities and message texts are left out; a diagnostic is its code and table.
- GraphBuild.Build.MarkConformed: the source's registry points at the tables it files; here it is filed again with the marked tables, and relationships changed later are not seen through it, as no stage reads them there.
- GraphBuild.BuildModel: domain counts, isolated-table and drift findings, language checks and the final sort of diagnostics are left out.
- Registries.PickConformed: lower case is that of ASCII letters, which decides the same for the words looked for.
- Hull.HalfHull: one method for the two loops of the source, with the sweep's direction as a parameter; the numbers are exact reals, not floating point.
- RateLimiting.RateLimiter.Allow: the clock is assumed never to go back; it may advance between the two readings of one call.
- Citations.Collect: starts from the strings found by the walk over JSON results; the walk itself is left out. Identifiers and the answer are ASCII as far as case goes.
- Languages.Split: case of tags is that of ASCII letters; tags are made of letters, digits and hyphens, as a manifest admits no others.
- TableRows.SplitRow: finding tables, dividers and headers in a document is left out, as are backtick and bold stripping.
- Rendering of petals, outlines and layout, the HTTP handlers, authentication and configuration, the Postgres and Neo4j stores, the upload path and the user interface are left out: they rest on floating-point fitting, other systems or single-branch checks.
- Reading.Decode: reads the content of a reply; its usage, its stop reason and the random IDs given to calls without one are left out, and the loop takes any reply.
- The Gemini encoder and decoder are left out.
