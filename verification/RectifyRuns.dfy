/** Rectify and CheckPredecessor under every interleaving.

    Both calls release the node's lock while they ping.  Here each call is a thread that takes a snapshot,
    waits for its pings and then commits; any number of threads run against one node, in any order
    (protocol.go:38-115, maintenance.go:337-362).
 */
module RectifyRuns {
  import opened Ring
  import opened Wrappers
  import opened NodeLists
  import opened NodeSpec

  datatype Task = Rectify(candidate: NodeInfo) | Check

  datatype Thread =
    | Ready(task: Task)
    | Pinging(task: Task, target: NodeInfo, lost: nat)
    | Deciding(task: Task, snap: Option<NodeInfo>, alive: bool)
    | Finished

  datatype World = World(st: NodeState, threads: seq<Thread>)

  /** `Elsewhere` is any step that leaves the predecessor alone: stabilization that finds a successor, validation
      that keeps an entry, failure counting, finger repair, lookups.  Isolation, HandleLeave, a join and
      ActivateSingleNode, which do write the predecessor, are no steps here. */
  datatype Step = Snapshot(t: nat) | Ping(t: nat, answer: bool) | Commit(t: nat) | Elsewhere(st: NodeState)

  function AfterSnapshot(st: NodeState, opts: Options, task: Task): Thread {
    var pings := st.pred.Some? && st.pred.value.id != st.self.id && opts.hasClient;
    match task
    case Rectify(c) =>
      if RectifyRefuses(st, c) then Finished
      else if pings then Pinging(task, st.pred.value, 0)
      else Deciding(task, st.pred, true)
    case Check => if pings then Pinging(task, st.pred.value, 0) else Finished
  }

  /** CheckPredecessor pings directly; HandleRectify goes through the guarded liveness ping. */
  predicate Answers(st: NodeState, opts: Options, th: Thread, answer: bool)
    requires th.Pinging?
  {
    if th.task.Check? then answer else PingAnswer(st.self.id, th.target, opts.hasClient, answer)
  }

  /** A lost ping is repeated once by CheckPredecessor and never by HandleRectify. */
  function AfterPing(th: Thread, ok: bool): Thread
    requires th.Pinging?
  {
    if ok then (if th.task.Check? then Finished else Deciding(th.task, Some(th.target), true))
    else if th.task.Check? && th.lost == 0 then th.(lost := 1)
    else Deciding(th.task, Some(th.target), false)
  }

  function Committed(st: NodeState, opts: Options, th: Thread): NodeState
    requires th.Deciding?
  {
    match th.task
    case Rectify(c) => RectifyCommit(st, opts, c, th.snap, th.alive)
    case Check => if th.snap.Some? then DropPredecessor(st, th.snap.value) else st
  }

  ghost predicate Enabled(w: World, step: Step) {
    match step
    case Snapshot(t) => t < |w.threads| && w.threads[t].Ready?
    case Ping(t, _) => t < |w.threads| && w.threads[t].Pinging?
    case Commit(t) => t < |w.threads| && w.threads[t].Deciding?
    case Elsewhere(st) => st.self == w.st.self && st.pred == w.st.pred
  }

  ghost function Next(w: World, opts: Options, step: Step): World
    requires Enabled(w, step)
  {
    match step
    case Snapshot(t) => w.(threads := w.threads[t := AfterSnapshot(w.st, opts, w.threads[t].task)])
    case Ping(t, answer) =>
      var th := w.threads[t];
      var ok := Answers(w.st, opts, th, answer);
      World(if ok then MarkSuccesses(w.st, {th.target.id}) else w.st, w.threads[t := AfterPing(th, ok)])
    case Commit(t) => World(Committed(w.st, opts, w.threads[t]), w.threads[t := Finished])
    case Elsewhere(st) => w.(st := st)
  }

  ghost predicate IsRun(opts: Options, worlds: seq<World>, steps: seq<Step>) {
    && |worlds| == |steps| + 1
    && (forall t :: 0 <= t < |worlds[0].threads| ==> worlds[0].threads[t].Ready?)
    && forall i :: 0 <= i < |steps| ==> Enabled(worlds[i], steps[i]) && worlds[i + 1] == Next(worlds[i], opts, steps[i])
  }

  // ----- what a call has done so far, read off the run -----

  ghost predicate LosesPing(opts: Options, w: World, step: Step, t: nat) {
    step.Ping? && step.t == t && Enabled(w, step) && !Answers(w.st, opts, w.threads[t], step.answer)
  }

  /** How many pings call `t` has lost in the first `i` steps. */
  ghost function Lost(opts: Options, worlds: seq<World>, steps: seq<Step>, i: nat, t: nat): nat
    requires IsRun(opts, worlds, steps) && i <= |steps|
  {
    if i == 0 then 0
    else Lost(opts, worlds, steps, i - 1, t) + if LosesPing(opts, worlds[i - 1], steps[i - 1], t) then 1 else 0
  }

  /** Call `t` took its snapshot within the first `i` steps and found predecessor `p`. */
  ghost predicate Found(worlds: seq<World>, steps: seq<Step>, i: nat, t: nat, p: NodeInfo)
    requires |worlds| == |steps| + 1 && i <= |steps|
  {
    exists a :: 0 <= a < i && steps[a] == Snapshot(t) && worlds[a].st.pred == Some(p)
  }

  ghost predicate ThreadTold(opts: Options, worlds: seq<World>, steps: seq<Step>, i: nat, t: nat)
    requires IsRun(opts, worlds, steps) && i <= |steps| && t < |worlds[i].threads|
  {
    match worlds[i].threads[t]
    case Ready(_) => Lost(opts, worlds, steps, i, t) == 0 && FoundOnly(worlds, steps, i, t, None)
    case Pinging(task, p, lost) =>
      && Found(worlds, steps, i, t, p) && FoundOnly(worlds, steps, i, t, Some(p))
      && Lost(opts, worlds, steps, i, t) == lost && lost <= (if task.Check? then 1 else 0)
    case Deciding(task, snap, alive) =>
      && FoundOnly(worlds, steps, i, t, snap)
      && if alive then task.Rectify? && Lost(opts, worlds, steps, i, t) == 0
         else snap.Some? && Found(worlds, steps, i, t, snap.value)
              && Lost(opts, worlds, steps, i, t) == if task.Check? then 2 else 1
    case Finished => true
  }

  /** Call `t` has found no predecessor but possibly this one. */
  ghost predicate FoundOnly(worlds: seq<World>, steps: seq<Step>, i: nat, t: nat, snap: Option<NodeInfo>)
    requires |worlds| == |steps| + 1 && i <= |steps|
  {
    forall p :: Found(worlds, steps, i, t, p) ==> snap == Some(p)
  }

  lemma FoundOnlyStays(worlds: seq<World>, steps: seq<Step>, i: nat, t: nat, snap: Option<NodeInfo>)
    requires |worlds| == |steps| + 1 && i < |steps| && FoundOnly(worlds, steps, i, t, snap)
    requires steps[i] == Snapshot(t) && worlds[i].st.pred.Some? ==> worlds[i].st.pred == snap
    ensures FoundOnly(worlds, steps, i + 1, t, snap)
  {
    forall p | Found(worlds, steps, i + 1, t, p) ensures snap == Some(p) {
      var a :| 0 <= a < i + 1 && steps[a] == Snapshot(t) && worlds[a].st.pred == Some(p);
      if a < i {
        assert Found(worlds, steps, i, t, p);
      }
    }
  }

  lemma LostStep(opts: Options, worlds: seq<World>, steps: seq<Step>, i: nat, t: nat)
    requires IsRun(opts, worlds, steps) && i < |steps|
    ensures Lost(opts, worlds, steps, i + 1, t)
         == Lost(opts, worlds, steps, i, t) + if LosesPing(opts, worlds[i], steps[i], t) then 1 else 0
  {
  }

  /** Taking the snapshot is how a call comes to find a predecessor. */
  lemma SnapshotTold(opts: Options, worlds: seq<World>, steps: seq<Step>, i: nat, t: nat)
    requires IsRun(opts, worlds, steps) && i < |steps| && t < |worlds[i].threads| && steps[i] == Snapshot(t)
    requires ThreadTold(opts, worlds, steps, i, t)
    ensures t < |worlds[i + 1].threads| && ThreadTold(opts, worlds, steps, i + 1, t)
  {
    var w := worlds[i];
    assert Enabled(w, steps[i]) && worlds[i + 1] == Next(w, opts, steps[i]);
    LostStep(opts, worlds, steps, i, t);
    if w.st.pred.Some? {
      assert Found(worlds, steps, i + 1, t, w.st.pred.value);
    }
    assert FoundOnly(worlds, steps, i, t, w.st.pred);
    FoundOnlyStays(worlds, steps, i, t, w.st.pred);
  }

  /** Any other step leaves what a call has found as it is. */
  lemma FoundStaysOtherwise(worlds: seq<World>, steps: seq<Step>, i: nat, t: nat, snap: Option<NodeInfo>)
    requires |worlds| == |steps| + 1 && i < |steps| && steps[i] != Snapshot(t) && FoundOnly(worlds, steps, i, t, snap)
    ensures FoundOnly(worlds, steps, i + 1, t, snap)
    ensures snap.Some? && Found(worlds, steps, i, t, snap.value) ==> Found(worlds, steps, i + 1, t, snap.value)
  {
    FoundOnlyStays(worlds, steps, i, t, snap);
  }

  /** What the thread has in hand. */
  function SnapOf(th: Thread): Option<NodeInfo> {
    match th
    case Ready(_) => None
    case Pinging(_, p, _) => Some(p)
    case Deciding(_, snap, _) => snap
    case Finished => None
  }

  lemma OtherStepTold(opts: Options, worlds: seq<World>, steps: seq<Step>, i: nat, t: nat)
    requires IsRun(opts, worlds, steps) && i < |steps| && t < |worlds[i].threads| && steps[i] != Snapshot(t)
    requires ThreadTold(opts, worlds, steps, i, t)
    ensures t < |worlds[i + 1].threads| && ThreadTold(opts, worlds, steps, i + 1, t)
  {
    var w := worlds[i];
    assert Enabled(w, steps[i]) && worlds[i + 1] == Next(w, opts, steps[i]);
    LostStep(opts, worlds, steps, i, t);
    if !w.threads[t].Finished? {
      FoundStaysOtherwise(worlds, steps, i, t, SnapOf(w.threads[t]));
    }
  }

  lemma ThreadStep(opts: Options, worlds: seq<World>, steps: seq<Step>, i: nat, t: nat)
    requires IsRun(opts, worlds, steps) && i < |steps| && t < |worlds[i].threads| == |worlds[i + 1].threads|
    requires ThreadTold(opts, worlds, steps, i, t)
    ensures ThreadTold(opts, worlds, steps, i + 1, t)
  {
    if steps[i] == Snapshot(t) {
      SnapshotTold(opts, worlds, steps, i, t);
    } else {
      OtherStepTold(opts, worlds, steps, i, t);
    }
  }

  /** Each thread's phase reports what its call really saw. */
  lemma {:induction false} ThreadsTold(opts: Options, worlds: seq<World>, steps: seq<Step>, i: nat)
    requires IsRun(opts, worlds, steps) && i <= |steps|
    ensures |worlds[i].threads| == |worlds[0].threads|
    ensures forall t :: 0 <= t < |worlds[i].threads| ==> ThreadTold(opts, worlds, steps, i, t)
  {
    if i > 0 {
      ThreadsTold(opts, worlds, steps, i - 1);
      assert Enabled(worlds[i - 1], steps[i - 1]) && worlds[i - 1 + 1] == Next(worlds[i - 1], opts, steps[i - 1]);
      forall t: nat | t < |worlds[i].threads| ensures ThreadTold(opts, worlds, steps, i, t) {
        ThreadStep(opts, worlds, steps, i - 1, t);
      }
    }
  }

  // ----- safety -----

  /** The predecessor came strictly closer. */
  predicate Closer(before: NodeState, after: NodeState) {
    && before.pred.Some? && after.pred.Some? && before.self == after.self
    && ValidId(before.self.id) && ValidId(before.pred.value.id) && ValidId(after.pred.value.id)
    && Gap(after.pred.value.id, after.self.id) < Gap(before.pred.value.id, before.self.id)
  }

  /** The committing call had itself found this predecessor, and lost the pings it sends to it: one for
      HandleRectify, two for CheckPredecessor. */
  ghost predicate GaveUp(opts: Options, worlds: seq<World>, steps: seq<Step>, i: nat)
    requires IsRun(opts, worlds, steps) && i < |steps|
  {
    && steps[i].Commit? && steps[i].t < |worlds[i].threads|
    && var th := worlds[i].threads[steps[i].t];
    && th.Deciding? && worlds[i].st.pred.Some?
    && (exists p: NodeInfo :: p.id == worlds[i].st.pred.value.id && Found(worlds, steps, i, steps[i].t, p))
    && Lost(opts, worlds, steps, i, steps[i].t) == if th.task.Check? then 2 else 1
  }

  /** In every interleaving a step leaves the predecessor alone, or fills an empty one, or brings it
      closer, or acts on a call that had found this same predecessor dead. */
  lemma PredecessorMoves(opts: Options, worlds: seq<World>, steps: seq<Step>, i: nat)
    requires IsRun(opts, worlds, steps) && i < |steps|
    ensures var before, after := worlds[i].st, worlds[i + 1].st;
            || after.pred == before.pred
            || (before.pred.None? && after.pred.Some?)
            || Closer(before, after)
            || GaveUp(opts, worlds, steps, i)
  {
    ThreadsTold(opts, worlds, steps, i);
    var w, step := worlds[i], steps[i];
    assert Enabled(w, step) && worlds[i + 1] == Next(w, opts, step);
    if step.Commit? && w.st.pred.Some? {
      var th := w.threads[step.t];
      assert ThreadTold(opts, worlds, steps, i, step.t);
      if th.task.Rectify? && InRangeOpenOpen(th.task.candidate.id, w.st.pred.value.id, w.st.self.id) {
        assert Closer(w.st, worlds[i + 1].st);
      } else if worlds[i + 1].st.pred != w.st.pred {
        assert !th.alive;
        assert GaveUp(opts, worlds, steps, i);
      }
    }
  }

  // ----- whole runs -----

  /** How far away the predecessor is; none at all is farther than any. */
  function Distance(st: NodeState): nat {
    if st.pred.Some? && ValidId(st.pred.value.id) && ValidId(st.self.id) then Gap(st.pred.value.id, st.self.id) else M + 1
  }

  /** If the predecessor is farther away at the end of a stretch of a run than at its start, some call
      committed in between after losing its pings to the predecessor of that moment. */
  lemma {:induction false} FartherNeedsFailure(opts: Options, worlds: seq<World>, steps: seq<Step>, i: nat, j: nat)
    requires IsRun(opts, worlds, steps) && i <= j <= |steps|
    ensures Distance(worlds[j].st) <= Distance(worlds[i].st) || exists k :: i <= k < j && GaveUp(opts, worlds, steps, k)
    decreases j
  {
    if i < j {
      FartherNeedsFailure(opts, worlds, steps, i, j - 1);
      PredecessorMoves(opts, worlds, steps, j - 1);
      assert Enabled(worlds[j - 1], steps[j - 1]) && worlds[j - 1 + 1] == Next(worlds[j - 1], opts, steps[j - 1]);
      assert worlds[j].st.self == worlds[j - 1].st.self;
    }
  }

  /** A notification is never lost: at its commit the predecessor is at least as close as the candidate,
      and it stays so until some later call gives a predecessor up. */
  lemma NearestCandidateWins(opts: Options, worlds: seq<World>, steps: seq<Step>, k: nat, j: nat)
    requires IsRun(opts, worlds, steps) && k < j <= |steps| && ValidId(worlds[k].st.self.id)
    requires steps[k].Commit? && worlds[k].threads[steps[k].t].task.Rectify?
    requires worlds[k].st.pred.Some? ==> ValidId(worlds[k].st.pred.value.id)
    requires forall m :: k < m < j ==> !GaveUp(opts, worlds, steps, m)
    ensures var c := worlds[k].threads[steps[k].t].task.candidate;
            ValidId(c.id) ==> Distance(worlds[j].st) <= Gap(c.id, worlds[k].st.self.id)
  {
    assert Enabled(worlds[k], steps[k]) && worlds[k + 1] == Next(worlds[k], opts, steps[k]);
    FartherNeedsFailure(opts, worlds, steps, k + 1, j);
  }

  // ----- what each commit does -----

  /** A commit acts on its own findings exactly: a Rectify makes its candidate the predecessor if and only if there is
      none, or the candidate lies strictly between, or the call had found this predecessor and lost its ping; a
      check drops the predecessor if and only if it had found this one and lost both pings. */
  lemma CommitDecides(opts: Options, worlds: seq<World>, steps: seq<Step>, i: nat)
    requires IsRun(opts, worlds, steps) && i < |steps| && steps[i].Commit?
    ensures Enabled(worlds[i], steps[i])
    ensures var before, after := worlds[i].st, worlds[i + 1].st;
            match worlds[i].threads[steps[i].t].task
            case Rectify(c) =>
              after.pred == if before.pred.None? || InRangeOpenOpen(c.id, before.pred.value.id, before.self.id)
                               || GaveUp(opts, worlds, steps, i)
                            then Some(c) else before.pred
            case Check => after.pred == if GaveUp(opts, worlds, steps, i) then None else before.pred
  {
    ThreadsTold(opts, worlds, steps, i);
    var w, t := worlds[i], steps[i].t;
    assert Enabled(w, steps[i]) && worlds[i + 1] == Next(w, opts, steps[i]);
    assert ThreadTold(opts, worlds, steps, i, t);
    GaveUpIff(opts, worlds, steps, i);
  }

  /** What a committing call carries says whether it gave the present predecessor up. */
  lemma GaveUpIff(opts: Options, worlds: seq<World>, steps: seq<Step>, i: nat)
    requires IsRun(opts, worlds, steps) && i < |steps| && steps[i].Commit? && Enabled(worlds[i], steps[i])
    requires ThreadTold(opts, worlds, steps, i, steps[i].t)
    ensures var th, pred := worlds[i].threads[steps[i].t], worlds[i].st.pred;
            GaveUp(opts, worlds, steps, i)
            <==> pred.Some? && !th.alive && th.snap.Some? && th.snap.value.id == pred.value.id
  {
  }

  /** A call that runs alone is the whole call. */
  lemma RectifyAlone(st: NodeState, opts: Options, candidate: NodeInfo, answer: bool) returns (worlds: seq<World>, steps: seq<Step>)
    ensures IsRun(opts, worlds, steps) && worlds[0] == World(st, [Ready(Rectify(candidate))])
    ensures worlds[|steps|] == World(Rectification(st, opts, candidate, answer), [Finished])
  {
    var w0 := World(st, [Ready(Rectify(candidate))]);
    var w1 := Next(w0, opts, Snapshot(0));
    worlds, steps := [w0, w1], [Snapshot(0)];
    if !RectifyRefuses(st, candidate) {
      if AsksPredecessor(st, opts) {
        var w2 := Next(w1, opts, Ping(0, answer));
        worlds, steps := [w0, w1, w2, Next(w2, opts, Commit(0))], [Snapshot(0), Ping(0, answer), Commit(0)];
      } else {
        worlds, steps := [w0, w1, Next(w1, opts, Commit(0))], [Snapshot(0), Commit(0)];
      }
    }
  }

  lemma CheckAlone(st: NodeState, opts: Options, first: bool, second: bool) returns (worlds: seq<World>, steps: seq<Step>)
    ensures IsRun(opts, worlds, steps) && worlds[0] == World(st, [Ready(Check)])
    ensures worlds[|steps|] == World(PredecessorCheck(st, opts, first, second), [Finished])
  {
    var w0 := World(st, [Ready(Check)]);
    var w1 := Next(w0, opts, Snapshot(0));
    worlds, steps := [w0, w1], [Snapshot(0)];
    if AsksPredecessor(st, opts) {
      var w2 := Next(w1, opts, Ping(0, first));
      worlds, steps := [w0, w1, w2], [Snapshot(0), Ping(0, first)];
      if !first {
        var w3 := Next(w2, opts, Ping(0, second));
        worlds, steps := [w0, w1, w2, w3], [Snapshot(0), Ping(0, first), Ping(0, second)];
        if !second {
          worlds, steps := worlds + [Next(w3, opts, Commit(0))], steps + [Commit(0)];
        }
      }
    }
  }
}
