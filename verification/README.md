# Chord DHT: a verified model

This project models the Chord ring of this repository (package `internal/chord`), together with the nonce
cache of `internal/auth`, and proves what the protocol is for. `dafny verify dfyconfig.toml` checks it.

## What is modelled

* **The identifier circle** (`Ring`, `HexId`, `Powers`). Ids are integers; 0 to 2^160 - 1 are the well-formed
  ones, and `HexId` proves that they are the same thing as 40-digit lower-case hexadecimal strings. The other
  integers stand for malformed text, because peers may send any.
* **Successor lists** (`NodeLists`, `ListOrder`, `NoSkip`, `BaseSize`). The merge, the duplicate removal and the
  order diagnostic are loops, each proved to compute a specification function, about which the theorems are
  stated. `NoSkip` is the predicate of corrected Chord: walking along a list never jumps over a stable-base node.
* **The node** (`NodeSpec`, `ChordNode`). `ChordNode.Node` is the object with its fields and methods; each method
  is proved to change the state exactly as the functions of `NodeSpec` say. Remote calls are parameters, so a
  contract covers every possible reply, timeout and lie. `ShapeRuns` proves what holds in every state one node can
  reach, and `NodeCalls` which of those steps every method performs. `StabilizeLaws`, `ValidationLaws`,
  `PredecessorLaws`, `JoinLaws` and `RecordLaws` say what each method is for in terms of the replies and pings of
  its own calls, without the functions that compute it; `Picks` and `ListLaws` do so for the list operations.
* **The network** (`StableBase`, `StableBaseRuns`, `OneRing`, `Convergence`, `Settled`, `Settling`, `Turns`,
  `FullRounds`, `VnodeRun`, `RectifyRuns`). A state machine over many nodes. Every state a node was ever in stays
  readable, and an action may read any earlier state of its own node and of its peers, so the critical sections of
  the modelled calls interleave in any order and messages take any time.
* **Lookup and its cache** (`Lookup`, `IdealRing`, `LookupTheorems`, `CacheSpec`, `RoutingCache`, `CacheRuns`,
  `FindSuccessor`, `CacheExact`, `RoutingLaws`, `ScoreLaws`, `CacheLaws`). `RoutingCache.Cache` is a map and a
  list of heap-allocated entries.
* **Finger repair** (`FingerSchedule`) and **request acceptance** (`NonceCache`, `NonceRuns`).

## Main results

1. With more base nodes than a successor list has entries, no run of joins, stabilizations, merges, validations,
   rectifications, predecessor checks, evictions and crashes of other nodes makes any list or successor jump over
   a base node, however stale the replies (`StableBaseRuns.NoRunSkipsBase`). The number is exact
   (`BaseSize.BaseSizeIsExact`).
2. Therefore there is at most one ring, in id order, through all base nodes (`OneRing.OneRingInEveryRun`).
3. In failure-free runs every pointer change lowers a rank, so between joins pointers change at most 2N^2 times
   (`Convergence.PointersSettle`). A network is the ideal ring if and only if no node's turn of maintenance moves a
   pointer and every vnode is known to its successor (`Settled.SettledIffIdeal`, `Turns.IdealIffNoTurnMoves`). Every
   join-free run of physical nodes in which all nodes keep taking turns, whatever stale steps interleave, ends in the
   ideal ring within 2N^2 + 1 full rounds (`FullRounds.EveryFairRunReachesIdealRing`), and no step but a join moves
   it any more (`Settling.IdealRingStays`).
4. On the ideal ring every lookup is right for any finger contents and any score, needs at most 161 queries when
   the score is pure id, and is not changed by any cache (`LookupTheorems.LookupCorrect`, `LookupTheorems.HopBound`,
   `CacheExact.EveryAnswerIsRight`). One round of finger repair establishes what the hop bound asks of the fingers
   (`FingerSchedule.OneRoundMakesFingersExact`).
5. The cache is an exact LRU (`CacheRuns.EveryRunIsLru`, `CacheRuns.NothingRecentIsMissing`) that never answers from a
   line past its lifetime and always from one within it (`CacheLaws.RepliesAreFresh`, `CacheLaws.FreshLinesReply`).
6. Among timestamps within 9223372036 seconds of the clock, a (timestamp, nonce) pair is accepted at most once in
   every run if and only if entries live at least (2T + 1) seconds less a nanosecond, T being the tolerance in whole
   seconds (`NonceRuns.AtMostOnceIff`).
7. Whatever peers reply, a node installs only who has answered it in the same call, and prefers a live nearer one
   (`StabilizeLaws.InstalledAnswered`); validation keeps exactly who answered (`ValidationLaws.ValidationLaw`); in every
   interleaving a notification is accepted exactly when the rule says (`RectifyRuns.CommitDecides`); a joiner takes
   exactly what its first usable seed answered (`JoinLaws.JoinLaw`); and a node that leaves an ideal ring closes it
   behind itself if and only if more than two were in it (`PredecessorLaws.LeaveClosesRingIff`).

## Where the code differs from its documentation

* README.md:43 of the repository has vnodes occupy ring positions like physical nodes. The Rectify of a join carries
  the vnode's anchor id (internal/chord/node.go:597, 633), but the Rectify of each Stabilize carries the node's bare
  record without it (internal/chord/maintenance.go:368, 378), which `ValidateNodeInfo` refuses
  (internal/chord/node.go:305-328). A node that comes between a vnode and its successor therefore never learns of the
  vnode, and a play of joins and turns can end at rest short of the ideal ring, with the vnode on nobody's ring:
  `VnodeRun.VnodeStaysUnknown`.
* The default nonce lifetime (600 s) is meant to cover the default window (plus or minus 300 s), but the check truncates
  to whole seconds, and the exact bound is missed by one second less a nanosecond: `NonceRuns.DefaultsFallShort`.
* The window comparison multiplies seconds into nanoseconds in 64 bits and is exact only up to 9223372036 seconds:
  `NonceCache.WindowIsExact`, `NonceCache.WindowWraps`, `NonceRuns.FarTimestampsRepeat`.
* When eviction removes the head of the list while the successor stays, the fallback of find_successor can name a
  wrong node: `StableBaseRuns.EvictedHeadMisleads`. `LookupTheorems.FallbackIff` says exactly when it is taken,
  `LookupTheorems.AnswerRightIffLocal` that it is then always wrong, and `StableBaseRuns.FallbackSkipsIff` exactly when
  it jumps over a base node.
* A node that leaves a ring of two tells the other that it is its own predecessor (internal/chord/maintenance.go:1087-1095
  with protocol.go:121-129), while a ring of one has none: `PredecessorLaws.LeaveClosesRingIff`.

## Model

| member | source | states |
|---|---|---|
| `Ring.OffsetIsModular` | internal/chord/id.go:85-97 | Clockwise offset and advance are subtraction and addition modulo 2^160, and inverse to each other |
| `Ring.IntervalsAreModular` | internal/chord/id.go:99-129 | Both interval tests equal their modular-offset definitions for all valid ids, wrap-around and coinciding ends included |
| `Ring.IntervalSplit` | internal/chord/id.go:115-129 | A point inside an arc splits it into two disjoint arcs and itself |
| `Ring.ThreePoint` | internal/chord/id.go:115-129 | Going round by way of any third id passes at least everything on the direct arc |
| `Ring.OffsetsAdd` | internal/chord/id.go:115-129 | Two offsets add up to the direct one or overshoot it by exactly one turn |
| `HexId.NumberRoundTrip` | internal/chord/id.go:72-83 | Writing any number below 2^160 as an id and reading it back gives the number |
| `HexId.TextRoundTrip` | internal/chord/id.go:60-83 | A text is readable exactly if it is 40 lower-case hex digits, and then writing its number gives the same text back |
| `HexId.TextIntervals` | internal/chord/id.go:99-129 | The interval tests on texts, malformed ones included, agree with the tests on integer codes used in the model |
| `HexId.FingerStartExact` | internal/chord/id.go:85-97 | Finger i starts at clockwise offset 2^i; an index out of range or a malformed id is refused |
| `NodeLists.DedupeNodes` | internal/chord/node.go:767-778 | The loop with its seen map computes Dedupe |
| `NodeLists.DedupeMeaning` | internal/chord/node.go:767-778 | The result has each id once, exactly the ids of the input except the empty and the excluded one, and only input records |
| `Picks.DedupeTakes` | internal/chord/node.go:767-778 | It takes, in order, the first entry of every id that is neither empty nor excluded |
| `Picks.TakesOneWay` | internal/chord/node.go:767-778 | Taking in order, once each, as far as there is room, and passing nothing over without reason, can be done in one way only |
| `NodeLists.MergeSuccessorList` | internal/chord/protocol.go:165-203 | The loop with its seen and anchor-count maps computes Merge |
| `NodeLists.MergeFromShape` | internal/chord/protocol.go:177-198 | The selection is an order-preserving subsequence of the input; an entry is missing from an unfilled list only if a rule rejects it |
| `NodeLists.MergeMeaning` | internal/chord/protocol.go:165-203 | For any peer reply: list shape, order-preserving selection, headed by the successor when it is non-empty and not self, at most max(1, floor(limit*cap)) entries per anchor, nothing omitted without a rule |
| `ListLaws.LimitIs` | internal/chord/protocol.go:166-169 | The length limit and its default |
| `ListLaws.CapIs` | internal/chord/protocol.go:170-177 | The sibling cap is the whole part of limit times cap, with the default, and at least one |
| `ListLaws.MergeIsGreedy` | internal/chord/protocol.go:177-202 | One more remote entry goes behind what the others gave unless that is full or the entry has no id, is self, is there already or has too many siblings; only from nothing does the node itself come |
| `ListOrder.SuccessorListViolations` | internal/chord/maintenance.go:622-650 | The diagnostic's loops compute Violations |
| `ListLaws.ReportIsExact` | internal/chord/maintenance.go:622-650 | The report names exactly the places with an empty id, a repeated id or a step in the wrong order, the mismatched head and the empty list |
| `ListOrder.NeighboursOrderAll` | internal/chord/maintenance.go:641-648 | For any list that does not name self, malformed ids included, checking neighbours decides validity of the ids and the order of all pairs |
| `ListOrder.NoViolationsIff` | internal/chord/maintenance.go:622-650 | For any list of the shape, malformed ids included: the report is empty if and only if the list is non-empty, starts with the successor and has one entry or is ascending from self |
| `ListOrder.MergeKeepsOrder` | internal/chord/protocol.go:165-203 | A merge of an input ascending from self is headed by the successor and passes the diagnostic |
| `NoSkip.WalkConcat` | internal/chord/maintenance.go:454-459 | No-skip of a concatenated walk is no-skip of both parts |
| `NoSkip.ReturnCovers` | internal/chord/protocol.go:179-181 | A walk that comes back to an id it has been at, skipping no base node, has stopped at every base node |
| `NoSkip.DropIsHarmless` | internal/chord/protocol.go:179-193 | With more than r base nodes, an entry dropped as self, duplicate or surplus sibling is no base node, and dropping it opens no gap |
| `NoSkip.MergeSkipsNone` | internal/chord/protocol.go:165-203 | The whole merge, sibling cap, self filter and duplicate filter included, skips no base node |
| `NoSkip.BaseSizeOrdersLists` | internal/chord/maintenance.go:641-648 | A list of at most r entries that skips none of more than r base nodes is strictly ascending and passes the diagnostic |
| `NoSkip.FiveAreNotEnough` | internal/chord/protocol.go:165-203 | With r = 5 and five base nodes the code's merge of skip-free inputs yields a list that skips a base node and is out of order |
| `BaseSize.SmallBaseFails` | README.md:24 | Walking through the whole base and back to the node itself skips nobody but is out of order |
| `BaseSize.BaseSizeIsExact` | README.md:24 | For every node: all skip-free lists of at most r entries are ordered if and only if the base and the node itself are more than r nodes |
| `NodeSpec.JoinRepliesAreJoinLists` | internal/chord/protocol.go:145-163 | The list a join reply carries is the successor's list, that list with the successor in front, or the successor alone |
| `ChordNode.Node.constructor` | internal/chord/node.go:204-291 | A new node: initializing, its own successor, no predecessor, 160 unknown fingers |
| `ChordNode.Node.ActivateSingleNode` | internal/chord/node.go:525-541 | The whole state after activation as a one-node ring |
| `RecordLaws.ActivationLaw` | internal/chord/node.go:525-541 | Every pointer and finger of an activated node is the node itself |
| `ChordNode.Node.MarkFailureOf` | internal/chord/maintenance.go:1202-1231 | Counts the failure, marks fingers, evicts from the list at the threshold; the whole new state |
| `RecordLaws.FailureLaw` | internal/chord/maintenance.go:1202-1231 | Count, list and every finger after one more failure, below the threshold and at it |
| `RecordLaws.WithoutSplits` | internal/chord/maintenance.go:1215-1221 | Eviction takes a node out of every part of a list and leaves the order of the rest |
| `RecordLaws.EvictedAtThreshold` | internal/chord/maintenance.go:1202-1231 | A node with a clean record is listed until exactly the threshold-th failure in a row |
| `ChordNode.Node.MarkSuccess` | internal/chord/maintenance.go:1233-1242 | Clears the count and the suspicion of fingers naming the node |
| `RecordLaws.SuccessLaw` | internal/chord/maintenance.go:1233-1242 | A success clears count and status of that node's records and nothing else |
| `ChordNode.Node.PingLiveness` | internal/chord/maintenance.go:517-533 | Result and state of a guarded ping |
| `ChordNode.Node.ValidateSuccessorList` | internal/chord/maintenance.go:535-616 | Pings, keeps live entries once each up to the limit, extends from the last live entry, writes list and successor: exactly Validation |
| `ValidationLaws.ValidationLaw` | internal/chord/maintenance.go:535-616 | For any answers: the entries that answered stay, once each, in order, up to the limit, and then entries of the last one's list that answered; pointers, counts, fingers and status follow from that choice |
| `ValidationLaws.EveryEntryAnswered` | internal/chord/maintenance.go:548-591 | Every entry left other than self answered a ping of this very validation |
| `ValidationLaws.IsolatedIffNoneAnswers` | internal/chord/maintenance.go:593-604 | The node is isolated if and only if none of its entries answered |
| `ChordNode.Node.Stabilize` | internal/chord/maintenance.go:366-487 | The loop over candidates with all branches: exactly Stabilization, for any replies |
| `StabilizeLaws.StabilizeLaw` | internal/chord/maintenance.go:366-487 | The first candidate that replies, or that ends the search otherwise, decides; a live valid predecessor it names strictly in between is installed, else the candidate itself; pointers, list, status and failure counts; then validation, exactly if somebody was installed and it is switched on |
| `StabilizeLaws.InstalledAnswered` | internal/chord/maintenance.go:410-450 | Whoever is installed replied or answered a ping in this round; a live nearer one is always preferred, and no earlier candidate had replied |
| `ChordNode.Node.HandleRectify` | internal/chord/protocol.go:38-115 | Refusals, ping of the present predecessor, acceptance rule and new predecessor list |
| `PredecessorLaws.RectifyLaw` | internal/chord/protocol.go:38-115 | A welcome candidate becomes the predecessor, and is told so, if and only if there was none, the one there lost this call's ping, or the candidate lies strictly between |
| `ChordNode.Node.CheckPredecessor` | internal/chord/maintenance.go:337-362 | Gives the predecessor up after two failed pings and only then |
| `PredecessorLaws.CheckLaw` | internal/chord/maintenance.go:337-362 | The predecessor goes if and only if there is one to ping and it misses both pings |
| `ChordNode.Node.HandleLeave` | internal/chord/protocol.go:117-143 | New predecessor or merged new successor, unknown roles refused |
| `PredecessorLaws.LeaveLaw` | internal/chord/protocol.go:117-143 | Each leave message writes the pointer it names and no other |
| `PredecessorLaws.LeaveClosesRing` | internal/chord/maintenance.go:1079-1101 | After the two messages of a node that leaves an ideal ring of at least three, all others have the pointers of the ideal ring without it |
| `PredecessorLaws.LeaveClosesRingIff` | internal/chord/maintenance.go:1079-1101 | Of two, the one left is told it is its own predecessor; so the ring is closed if and only if there were more than two |
| `ChordNode.Node.JoinNetworkWithSeeds` | internal/chord/node.go:580-644 | The first usable seed decides the successor, the list and whom the joiner introduces itself to; without one, a single-node ring |
| `JoinLaws.JoinLaw` | internal/chord/node.go:580-644 | The joiner takes and validates exactly the successor and list of the first usable seed; without a client or a usable seed it activates a ring of one instead |
| `JoinLaws.JoinerHasItsSuccessor` | internal/chord/node.go:606-640 | A joiner told of another successor has it if it answers its ping, is cut off if and only if nobody in the merged list answers, and while active is never its own successor |
| `ShapeRuns.ApplyKeepsShape` | internal/chord/maintenance.go:559-616 | Every write, from any stale snapshot and any reply, keeps the list shape |
| `ShapeRuns.ShapeInEveryRun` | internal/chord/protocol.go:165-203 | In every reachable state the list has no duplicate, no empty id, at most the configured length, and self only as the one-element list |
| `ShapeRuns.ReportDecidesOrderInEveryRun` | internal/chord/node.go:415-429 | In every reachable state, lists a lying peer has filled included, the invariant report's neighbour check decides the order of all pairs |
| `NodeCalls.CallFollows` | internal/chord/maintenance.go:366-616 | Every whole call of the node (stabilization, validation, Rectify, predecessor check, leave, join, counting), for any replies, continues every run of critical sections by exactly the actions its replies call for |
| `NodeCalls.ObjectKeepsShape` | internal/chord/protocol.go:165-203 | After any sequence of calls on the object the list has its shape and the report decides the order of all pairs |
| `StableBase.InstallSafe` | internal/chord/maintenance.go:454-459 | Installing a successor on a skip-free arc with a skip-free list leaves the node skip-free |
| `StableBase.InstallFromPeer` | internal/chord/maintenance.go:439-459 | The same when the list is any earlier list of the contact, an isolated contact's included |
| `StableBase.InstallPredecessor` | internal/chord/maintenance.go:442-450 | Adopting the contact's predecessor, whatever the reply claims it to be, keeps the node skip-free |
| `StableBaseRuns.CandidateSafe` | internal/chord/maintenance.go:370-380 | If all earlier candidates are not base nodes, the arc to the next candidate skips none |
| `StableBaseRuns.DecisionSafe` | internal/chord/maintenance.go:380-476 | Stabilize never falls through to the single-node or bootstrap branch and adopts a safe contact |
| `StableBaseRuns.StabilizeSafe` | internal/chord/maintenance.go:366-487 | The commit of Stabilize from a stale own snapshot and stale peer replies keeps the node safe |
| `StableBaseRuns.ValidatedSafe` | internal/chord/maintenance.go:535-616 | Validation and extension, which apply no sibling cap, yield a skip-free list |
| `StableBaseRuns.WithoutSafe` | internal/chord/maintenance.go:1215-1221 | Evicting an entry that is no base node opens no gap |
| `StableBaseRuns.FailedSafe` | internal/chord/maintenance.go:1202-1231 | Counting a failure keeps a node safe, whatever its status has become |
| `StableBaseRuns.AnswerSafe` | internal/chord/lookup.go:61-85 | A local answer, whatever is left of the list, or any answer while the successor is listed, jumps over no base node, nor does the cache line stored for it |
| `StableBaseRuns.CacheAnswerSafe` | internal/chord/routing_cache.go:62-74 | An exact or interval hit on any line ever stored, however outdated, jumps over no base node |
| `StableBaseRuns.JoinSafe` | internal/chord/node.go:606-634 | A join from any earlier answer and any of the lists it may come with leaves the joiner safe |
| `StableBaseRuns.StepSafe` | internal/chord/maintenance.go:366-487 | Every step of the network machine keeps nodes, past states, answers and cache lines safe |
| `StableBaseRuns.NoRunSkipsBase` | README.md:33-39 | In every run no list, successor, answer or cache line ever jumps over a base node |
| `StableBaseRuns.ListsStayOrdered` | internal/chord/maintenance.go:622-650 | In every reachable state each active node's list ascends from itself and its diagnostic is silent |
| `StableBaseRuns.IdealStartIsSafe` | README.md:176 | A ring of all members with lists that follow it is a valid start |
| `StableBaseRuns.FallbackSkipsIff` | internal/chord/lookup.go:75-85 | The fallback answer of a safe node jumps over no base node if and only if none lies after the target and not beyond the node |
| `StableBaseRuns.EvictedHeadMisleads` | internal/chord/lookup.go:75-85 | A joined node whose only list entry three failures have evicted gives a fallback answer that jumps over a base node, the one join source the machine excludes |
| `OneRing.TurnsAreArrivals` | internal/chord/maintenance.go:442-459 | Along successor pointers the distance travelled is one full turn for each arrival at a base node |
| `OneRing.RingTurnsOnce` | internal/chord/maintenance.go:442-459 | A cycle of pointers passes each base node once and winds round the circle once |
| `OneRing.RingInIdOrder` | internal/chord/maintenance.go:442-459 | Following the cycle from a base node, ids ascend clockwise |
| `OneRing.AtMostOneRing` | internal/chord/maintenance.go:442-459 | Any two cycles have the same nodes; one base node suffices |
| `OneRing.OneRingInEveryRun` | README.md:33-39 | In every reachable state the active nodes' successor pointers form at most one ring, through all base nodes |
| `Convergence.StartIsSmooth` | internal/chord/node.go:525-541 | One activated node is a valid start of a failure-free run |
| `Convergence.StabilizeSmooth` | internal/chord/maintenance.go:380-475 | In a failure-free run Stabilize keeps the successor or brings it strictly closer |
| `Convergence.RectifySmooth` | internal/chord/protocol.go:58-83 | Rectify keeps the predecessor or brings it strictly closer |
| `Convergence.ValidateSmooth` | internal/chord/maintenance.go:535-616 | Validation moves no pointer |
| `Convergence.CacheAnswerSmooth` | internal/chord/routing_cache.go:62-74 | An answer from any outdated cache line, the full-circle line of a one-node ring included, does not jump over the first node |
| `Convergence.JoinSmooth` | internal/chord/node.go:606-634 | A join answered from any lookup or any outdated cache line keeps the network smooth |
| `Convergence.StepSmooth` | internal/chord/maintenance.go:366-487 | Every failure-free step keeps the invariant |
| `Convergence.PointerChangesLowerPotential` | internal/chord/maintenance.go:439-475 | A step that changes a pointer strictly lowers the sum of clockwise gaps; no step but a join raises it |
| `Convergence.PointerChangesLowerRank` | internal/chord/maintenance.go:439-475 | It also strictly lowers the number of members the pointers jump over, which no step but a join raises |
| `Convergence.RankBound` | internal/chord/maintenance.go:439-475 | That number is at most twice the square of the number of members |
| `Convergence.PointersSettle` | internal/chord/maintenance.go:439-475 | Between joins the number of pointer changes is bounded by the potential, and by twice the square of the number of members |
| `Settled.RoundIdleIff` | internal/chord/maintenance.go:380-475 | Whether a round with fresh replies moves a pointer can be read off the pointers: a physical node must be known to its successor, a vnode's successor may also know nobody nearer |
| `Settled.KnownIffIdeal` | internal/chord/maintenance.go:380-475 | A smooth network is the ideal ring if and only if every node is alone or known to its successor |
| `Settled.QuietIsIdeal` | internal/chord/maintenance.go:380-475 | If no node's round would change its successor or its target's predecessor, and every vnode is known to its successor, the network is the ideal ring |
| `Settled.IdealIsQuiet` | internal/chord/maintenance.go:380-475 | On the ideal ring no round changes a pointer and every vnode is known to its successor |
| `Settled.QuietIffIdeal` | internal/chord/maintenance.go:380-475 | A network is the ideal ring if and only if it is at rest and every vnode is known to its successor |
| `Settled.SettledIffIdeal` | internal/chord/maintenance.go:380-475 | The same in every state of every failure-free run; physical nodes need no second condition |
| `Settling.IdealRingStays` | internal/chord/maintenance.go:366-487 | No failure-free step but a join, stale replies included, moves a pointer of the ideal ring |
| `Turns.TurnComes` | internal/chord/maintenance.go:366-487 | A turn of a node (fresh replies, the Rectify of its own record to the target of its round, the write, validation) is a piece of a failure-free run that raises no rank |
| `Turns.TurnIdleIff` | internal/chord/maintenance.go:366-487 | A turn leaves all pointers of the network alone if and only if its round is idle |
| `Turns.IdealIffNoTurnMoves` | internal/chord/maintenance.go:366-487 | Any smooth network is the ideal ring if and only if no node's turn moves a pointer and every vnode is known to its successor |
| `Turns.SettledStays` | internal/chord/maintenance.go:366-487 | Once no turn moves a pointer, no sequence of turns ever does |
| `Turns.TurnsSettle` | internal/chord/maintenance.go:366-487 | From every smooth state at most as many turns as the rank is high lead to rest, with the same members |
| `Turns.ReachesIdealRing` | internal/chord/maintenance.go:366-487 | From every reachable state of physical nodes a number of turns at most quadratic in the number of members leads to the ideal ring of the same members |
| `FullRounds.FullRoundsSettle` | internal/chord/maintenance.go:366-487 | Every join-free failure-free run with more full rounds (every node reads, is heard and writes) than the rank is high comes to rest, whatever stale steps interleave |
| `FullRounds.EveryFairRunReachesIdealRing` | internal/chord/maintenance.go:366-487 | For physical nodes every such run ends in the ideal ring, and the rank is at most quadratic in the number of members |
| `VnodeRun.PlayIsRun` | internal/chord/node.go:580-640 | A play of whole turns and whole joins, each join with its own Rectify and validation, leads where a failure-free run leads |
| `VnodeRun.VnodeStaysUnknown` | internal/chord/maintenance.go:368-379 | Two whole joins and two turns from one activated node lead to a network at rest in which no pointer names the vnode's position as successor and which no further turns change |
| `RectifyRuns.ThreadsTold` | internal/chord/protocol.go:43-62 | Each thread's phase reports the predecessor its own call found and the pings its own call lost |
| `RectifyRuns.PredecessorMoves` | internal/chord/protocol.go:60-85 | In every interleaving a step leaves the predecessor, fills an empty one, brings it closer, or acts for a call that had found this same predecessor dead |
| `RectifyRuns.CommitDecides` | internal/chord/protocol.go:66-85 | In every interleaving a Rectify takes its candidate if and only if there is no predecessor, the candidate lies strictly between, or this call had found the present one and lost its ping; a check drops it if and only if it had found this one and lost both |
| `RectifyRuns.RectifyAlone` | internal/chord/protocol.go:38-115 | A Rectify with nothing in between is the whole call |
| `RectifyRuns.CheckAlone` | internal/chord/maintenance.go:337-362 | So is a check |
| `RectifyRuns.FartherNeedsFailure` | internal/chord/maintenance.go:337-362 | Over any stretch of a run the predecessor is farther at the end only if some call gave one up in between |
| `RectifyRuns.NearestCandidateWins` | internal/chord/protocol.go:60-85 | After a notification commits, the predecessor stays at least as close as that candidate until a later call gives one up |
| `Lookup.CollectCandidates` | internal/chord/lookup.go:299-340 | The two passes over fingers and the pass over the list compute Collect |
| `Lookup.CollectMeaning` | internal/chord/lookup.go:299-340 | Every candidate lies strictly between node and target and comes from the tables; no list entry lying there is missed |
| `RoutingLaws.CandidatesLaw` | internal/chord/lookup.go:299-340 | The candidates in their order: trusted fingers on the way from the farthest down, others only if there is none, then list entries from the last up, each id once |
| `Lookup.ClosestPrecedingNode` | internal/chord/lookup.go:230-286 | The scoring loop computes Closest |
| `Lookup.BestMeaning` | internal/chord/lookup.go:246-285 | The loop keeps the first candidate of the highest score |
| `ScoreLaws.IdAlone` | internal/chord/lookup.go:238-244 | With id weight zero nothing but the id counts |
| `ScoreLaws.BitsDecide` | internal/chord/lookup.go:258-268 | Every bit nearer is worth one part in 161 of the id weight |
| `ScoreLaws.LatencyDecides` | internal/chord/lookup.go:270-275 | At equal distance and region a measured latency beats none and a shorter one a longer |
| `ScoreLaws.LatencyScale` | internal/chord/lookup.go:272 | No latency is worth the whole weight, 100 ms half of it |
| `ScoreLaws.RegionDecides` | internal/chord/lookup.go:277-279 | The own region is worth the region weight |
| `Lookup.ClosestIsCandidate` | internal/chord/lookup.go:230-286 | The next hop is the node itself only if there is no candidate, and otherwise lies strictly before the target |
| `Lookup.LookupIterative` | internal/chord/lookup.go:109-153 | The loop with its visited list, from any hop on, computes LookupFrom, for any network |
| `RoutingLaws.RequestLaw` | internal/chord/lookup.go:16-24 | Which requests are refused for their form or hop count |
| `RoutingLaws.RouteLaw` | internal/chord/lookup.go:47-87 | Who leaves, is cut off or was asked before refuses; the successor is answered for the own arc and where nobody nearer is known; otherwise somebody strictly nearer is named |
| `RoutingLaws.LookupFollowsReplies` | internal/chord/lookup.go:109-153 | Whatever the nodes reply, the lookup asks them as they name each other, nobody twice, and ends with the last one's reply, at the hop limit or at a node already asked |
| `IdealRing.ArcOwnerAnswers` | internal/chord/lookup.go:61 | The member whose successor arc contains an id has the first member at or after it as its successor |
| `LookupTheorems.HopsProgress` | internal/chord/lookup.go:311-334 | Every forward strictly lowers (target - current - 1) mod 2^160 |
| `LookupTheorems.NoLoop` | internal/chord/lookup.go:55-59 | Even if all tables change between hops, neither loop check ever fires among nodes that follow the code |
| `LookupTheorems.EndsWithinMembers` | internal/chord/lookup.go:109-153 | Such a lookup ends within as many queries as there are nodes |
| `LookupTheorems.FallbackUnreachable` | internal/chord/lookup.go:75-85 | The fallback is not taken while the successor is in the successor list |
| `LookupTheorems.FallbackIff` | internal/chord/lookup.go:75-85 | A node is its own next hop if and only if no finger of any status and no list entry lies strictly before the target |
| `LookupTheorems.FallbackIsWrong` | internal/chord/lookup.go:75-85 | Among members a fallback answer is never the first member at or after the target |
| `LookupTheorems.AnswerRightIffLocal` | internal/chord/lookup.go:61-85 | With the right successor an answer is right if and only if it is no fallback |
| `LookupTheorems.LookupCorrect` | internal/chord/lookup.go:61-153 | On an ideal ring any lookup returns the first member at or after the id, for any finger contents naming members and any weights |
| `LookupTheorems.HopHalves` | internal/chord/lookup.go:230-286 | With exact fingers and a pure-id score each forward shortens the bit length of the distance to the target's predecessor |
| `LookupTheorems.HopBound` | internal/chord/lookup.go:109-153 | Then the lookup succeeds within 161 queries |
| `RoutingCache.Cache.constructor` | internal/chord/routing_cache.go:28-42 | Empty cache; defaults for non-positive capacity and lifetime |
| `RoutingCache.Cache.Get` | internal/chord/routing_cache.go:45-77 | Map and list stay consistent; an exact line decides by age, else any fresh covering line answers; lines, result and counters |
| `CacheLaws.RepliesAreFresh` | internal/chord/routing_cache.go:45-77 | Whenever a fetch replies, the line last stored for the target it used is within its lifetime, is the one reported, and is for the target or spans it |
| `CacheLaws.FreshLinesReply` | internal/chord/routing_cache.go:45-77 | A target with a line is answered by it exactly while it is within its lifetime, and then loses it; any other exactly if some line within its lifetime spans it |
| `RoutingCache.Cache.Put` | internal/chord/routing_cache.go:81-109 | Replaces or inserts in front, evicting the last line of a full cache; empty ids are ignored |
| `RoutingCache.Cache.InvalidateAll` | internal/chord/routing_cache.go:111-116 | Map and list are emptied together |
| `RoutingCache.Cache.Cleanup` | internal/chord/routing_cache.go:118-127 | The walk over the map in any order drops exactly the expired lines and keeps the order of the others |
| `CacheLaws.CleanKeepsFresh` | internal/chord/routing_cache.go:118-127 | A cleanup keeps exactly the lines within their lifetime |
| `RoutingCache.Cache.Evict` | internal/chord/routing_cache.go:136-139 | One entry leaves map and list together |
| `RoutingCache.Cache.EvictLast` | internal/chord/routing_cache.go:141-148 | The last entry of the list goes |
| `CacheRuns.EveryRunIsLru` | internal/chord/routing_cache.go:45-148 | After any calls: at most capacity lines, distinct targets, in order of the last call that stored or answered from them, each holding the value last stored |
| `CacheRuns.EvictionTakesLeastRecent` | internal/chord/routing_cache.go:94-96 | Making room removes the line touched longest ago and nothing else |
| `CacheRuns.NothingRecentIsMissing` | internal/chord/routing_cache.go:81-109 | Within one lifetime and without invalidation, a touched target is missing only if the cache is full of more recently touched ones |
| `FindSuccessor.HandleFindSuccessor` | internal/chord/lookup.go:15-87 | With or without a cache: request checks, cache, status and loop checks, local answer with its Put, fallback without one, forward; reply and cache contents |
| `FindSuccessor.LookupSuccessor` | internal/chord/lookup.go:90-153 | With or without a cache: the cache, the node's own handler on that same cache, the other nodes, and Put of the answering node's arc unless the answer was cached |
| `FindSuccessor.OwnHandlerIsHopZero` | internal/chord/lookup.go:121-122 | Asking the own handler first is hop 0 of the iterative lookup |
| `CacheLaws.LookupIsRemembered` | internal/chord/lookup.go:139-142 | A lookup resolved by the network is answered from the cache when it is made again within the lifetime |
| `CacheLaws.LocalAnswerIsRemembered` | internal/chord/lookup.go:69-72 | So is a question answered from the own arc |
| `RoutingLaws.OnlyOwnArcIsStored` | internal/chord/lookup.go:61-87 | The handler stores neither fallbacks nor forwards nor refusals |
| `CacheLaws.HitEndsLookup` | internal/chord/lookup.go:95-101 | A lookup whose answer the cache holds asks nobody |
| `CacheLaws.HitAnswersQuery` | internal/chord/lookup.go:26-39 | A query whose answer the cache holds is answered even by a node that leaves, is cut off or was asked before |
| `FindSuccessor.HandleJoin` | internal/chord/protocol.go:9-32 | Refusals, then the looked-up successor with its list |
| `RoutingLaws.JoinReplyLaw` | internal/chord/protocol.go:9-32 | Who is refused, and which of the three lists a joiner is given |
| `CacheExact.HitIsRight` | internal/chord/routing_cache.go:49-73 | On lines that are ring arcs, any exact or interval hit is the right answer, whichever covering line is picked |
| `CacheExact.HandledExact` | internal/chord/lookup.go:15-87 | What the handler stores is an arc of the ring, on a one-member ring the full circle, and what it answers is right |
| `CacheExact.CachesStayExact` | internal/chord/routing_cache.go:45-148 | In every run over any number of shared caches, each Get and each Put a call of its own, all lines are arcs of the ring |
| `CacheExact.EveryAnswerIsRight` | internal/chord/lookup.go:90-142 | In every such run each answer of a cache, a handler or a lookup is the first member at or after the id and equals the uncached lookup's |
| `CacheExact.LookupIsCalls` | internal/chord/lookup.go:109-142 | A whole lookup that misses is a Get and possibly a Put of the own handler and a Put of its own, in this order, among the calls of those runs |
| `CacheExact.LookedUpExact` | internal/chord/lookup.go:90-142 | A whole lookup through the caches is right and stores an arc |
| `CacheExact.JoinAnswerIsRight` | internal/chord/protocol.go:26-31 | A join through any member is given the first member at or after its id |
| `FingerSchedule.ExponentialJumpIndex` | internal/chord/maintenance.go:755-782 | The code's list building yields the closed form JumpIndex |
| `FingerSchedule.JumpIsPermutation` | internal/chord/maintenance.go:755-782 | The jump order is a permutation of the 160 fingers, with its inverse |
| `FingerSchedule.FarFingersFirst` | internal/chord/maintenance.go:755-782 | The twelve fingers that come first, and that the others follow in ascending order |
| `FingerSchedule.FingerTable.NextKFingerIndices` | internal/chord/maintenance.go:733-751 | The scheduled fingers and the new cursor |
| `FingerSchedule.FingerTable.FixFingersBatch` | internal/chord/maintenance.go:659-662 | A batch repairs exactly the scheduled fingers: node, status and validity of each, or suspicion on failure |
| `RecordLaws.LastSuccessDecides` | internal/chord/maintenance.go:703-729 | A finger has what its last successful lookup found, trusted unless a later one failed |
| `RecordLaws.FailedRepairs` | internal/chord/maintenance.go:703-729 | A finger whose lookups all fail keeps its node, but is no longer valid nor trusted |
| `FingerSchedule.RepairedInBatches` | internal/chord/maintenance.go:703-729 | Repairing in two batches is repairing in one |
| `FingerSchedule.FingerTable.RunFixFingersLoop` | internal/chord/maintenance.go:158-175 | Batch after batch, of any sizes, leaves the fingers as one repair along the whole schedule does |
| `FingerSchedule.BatchesFollowOrder` | internal/chord/maintenance.go:319-333 | However batches are cut, the schedule is the jump order without a gap |
| `FingerSchedule.RepairIsFair` | internal/chord/maintenance.go:733-782 | Any 160 consecutive scheduled positions hit each finger exactly once |
| `FingerSchedule.OneRoundMakesFingersExact` | internal/chord/maintenance.go:703-729 | On an ideal ring one round of repairs makes the finger table exact, whatever it held |
| `NonceCache.WindowIsExact` | internal/auth/verifier.go:138-145 | Up to 9223372036 s the 64-bit comparison is the intended one |
| `NonceCache.WindowWraps` | internal/auth/verifier.go:142 | From one second further on, and for as long again, it admits what is out of the window |
| `NonceCache.Cache.Add` | internal/auth/nonce_cache.go:28-46 | Refuses a known nonce; a full cache is cleaned and, if still full, refuses; otherwise records the expiry |
| `NonceCache.Cache.CleanupLocked` | internal/auth/nonce_cache.go:56-62 | The loop removes exactly the entries whose expiry has passed |
| `NonceRuns.Remembered` | internal/auth/nonce_cache.go:28-62 | An accepted nonce stays until a cleanup later than its expiry |
| `NonceRuns.AtMostOnceIff` | internal/auth/verifier.go:132-151 | For near timestamps: no run accepts a pair twice if and only if nothing is ever accepted or the lifetime is at least (2T + 1) s - 1 ns |
| `NonceRuns.FarTimestampsRepeat` | internal/auth/verifier.go:138-145 | Without nearness, from any start of the clock, a pair is accepted twice for every 64-bit lifetime |
| `NonceRuns.DefaultsFallShort` | internal/config/config.go:145-146 | Twice the tolerance plus one second suffices; the default lifetime does not |
| `NonceRuns.Bounded` | internal/auth/nonce_cache.go:36-42 | The cache never holds more than its maximum |
| `NonceRuns.Earned` | internal/auth/nonce_cache.go:44 | Every remembered nonce was accepted by an earlier request |
| `NonceRuns.TurnedAwayIffFull` | internal/auth/nonce_cache.go:32-45 | A nonce never accepted before is turned away, inside the window, exactly when the cache is full of unexpired entries |
| `NonceRuns.FullCacheIsSwept` | internal/auth/nonce_cache.go:36-62 | A cleanup, and a new nonce that finds the cache full, leave exactly what has not expired |

## Left out

- HandleLeave and GracefulLeave in the network machine: merging the new successor with the old list keeps the leaving node behind it, and order returns only with the next Stabilize. HandleLeave is covered by the list shape.
- Isolation recovery, retryBootstrapIfSingleton (a lone active node that joins again through its seeds), the single-node fallback of a join, and rejoining under an id the ring already knows: an isolated node counts as stopped, since a second one-node ring is allowed by design.
- lookupParallel: it caches an arc that starts at the caller; it is off by default, and the cache theorems are about the default.
- The fallback answer of find_successor as a source of joins: `AnswerLookup` asks for a local answer or for the successor to be in the list, which makes the fallback unreachable.
- The sibling cap as an invariant of states: the extension in validateSuccessorList does not apply it, so it is proved of the merge only.
- ChordNode.Node.Stabilize: the routing-cache invalidation and the wake-up that a topology change triggers are not in its contract; `CacheExact` and `CacheRuns` allow an invalidation at any moment.
- ChordNode.Node.HandleRectify: the second predecessor-list entry is the previous predecessor; the source later replaces it in the background by what the new one reports, and nothing modelled reads it.
- ChordNode.Node.JoinNetworkWithSeeds: the warm-up of the first 32 fingers runs in the background and is left out; any later repair is covered by `FingerSchedule`.
- Floating point: scores and the product of list size and sibling cap are reals, without rounding.
- Validation read from an isolated node and written to an active one: isolation is left only by rejoining, which is not modelled.
- Own stale snapshots in failure-free runs: the convergence theorems let peers' replies be stale but take a node's own successor and list as Stabilize finds them; the safety theorems allow both to be stale.
- The legacy FixFingers, which moves the repair cursor without the jump order.
- Len of the nonce cache and the counters of failures and successes in `Turns`: a turn there consists of the writes of pointers, lists and predecessors.
- Debounce counters, timestamps, logging and the topology-change channel.
- Clearing the routing cache on topology changes is the `Invalidate` call of a cache run; when it happens is left open.
- Atomicity: each critical section is one step, and FixFingersBatch repairs one finger after the other; goroutines are replaced by arbitrary order of steps.
- Requests that read the clock and reach the nonce cache in different orders, and the boot grace period: `NonceRuns` takes one non-decreasing clock.
- HTTP, TLS, JSON, configuration, tracker heartbeats and CRLs; Ed25519, SHA-1 and URI parsing (`uriHash` stands for the outcome); RTT, node-info and proof caches.
