/** Which successor a Stabilize installs, said of the replies and pings of its own calls (maintenance.go:366-487).

    The candidates are the successor and then the list, each id once; `fetch(k)` is the reply to the state query
    of the k-th of them and `alive(k)` the answer to the ping it may lead to.
 */
module StabilizeLaws {
  import opened Ring
  import opened Wrappers
  import opened NodeLists
  import opened NodeSpec
  import opened Picks

  function Asked(st: NodeState): seq<NodeInfo> {
    Dedupe([st.succ] + st.list, EMPTY)
  }

  /** There is a predecessor the node alone could turn to. */
  predicate KnowsOther(st: NodeState, opts: Options) {
    st.pred.Some? && st.pred.value.id != st.self.id && opts.hasClient
  }

  /** The k-th candidate ends the search: it is the node itself, and nobody else is known or the predecessor is
      alive; or it has answered; or there is nothing to ask with. */
  predicate Ends(st: NodeState, opts: Options, fetch: nat -> Option<PeerState>, alive: nat -> bool, k: nat)
    requires k < |Asked(st)|
  {
    if Asked(st)[k].id == st.self.id then !KnowsOther(st, opts) || (st.pred.value.id != EMPTY && alive(k))
    else !opts.hasClient || fetch(k).Some?
  }

  /** Nobody before the k-th candidate ended the search, and the k-th did, unless there is none left. */
  ghost predicate EndsAt(st: NodeState, opts: Options, fetch: nat -> Option<PeerState>, alive: nat -> bool, k: nat) {
    && k <= |Asked(st)| && (forall j: nat :: j < k ==> !Ends(st, opts, fetch, alive, j))
    && (k < |Asked(st)| ==> Ends(st, opts, fetch, alive, k))
  }

  /** The reply names a valid predecessor strictly between the node and the candidate, and that one is alive. */
  predicate NamesNearer(self: int, candidate: int, reply: PeerState, answer: bool) {
    && reply.pred.Some? && reply.pred.value.id != self
    && InRangeOpenOpen(reply.pred.value.id, self, candidate) && ValidNodeInfo(reply.pred.value) && answer
  }

  datatype Outcome =
    | Installs(contact: int, succ: NodeInfo, remote: seq<NodeInfo>)
    | Alone
    | CutOff

  /** What the calls of the round lead to, when the search ends at `k`. */
  function OutcomeAt(st: NodeState, opts: Options, fetch: nat -> Option<PeerState>, alive: nat -> bool, k: nat): Outcome
    requires k <= |Asked(st)| && (k < |Asked(st)| ==> Ends(st, opts, fetch, alive, k))
  {
    if k == |Asked(st)| then CutOff
    else
      var c := Asked(st)[k];
      if c.id == st.self.id then
        if KnowsOther(st, opts) then
          Installs(st.pred.value.id, st.pred.value, if fetch(k).Some? then fetch(k).value.list else [])
        else Alone
      else if !opts.hasClient then CutOff
      else
        var reply := fetch(k).value;
        if NamesNearer(st.self.id, c.id, reply, alive(k)) then Installs(c.id, reply.pred.value, [c] + reply.list)
        else Installs(c.id, c, reply.list)
  }

  lemma CandidatesAre(st: NodeState)
    ensures Candidates(st) == Asked(st) && Distinct(Asked(st)) && EMPTY !in Ids(Asked(st))
  {
    DedupeMeaning([st.succ] + st.list, EMPTY);
  }

  /** One candidate, and the decision of the whole walk. */
  lemma TryEnds(st: NodeState, opts: Options, fetch: nat -> Option<PeerState>, alive: nat -> bool, k: nat)
    requires k < |Asked(st)|
    ensures var t := Try(st.self.id, st.pred, opts.hasClient, k, Asked(st)[k], fetch(k), alive(k));
            && (t.Some? <==> Ends(st, opts, fetch, alive, k))
            && (t.Some? ==> Fits(st, k, t.value, OutcomeAt(st, opts, fetch, alive, k)))
  {
  }

  predicate Fits(st: NodeState, k: nat, d: Decision, o: Outcome) {
    && d.tried == k
    && match o
       case Installs(contact, succ, remote) =>
         || (d == Bootstrap(k, succ, remote) && contact == succ.id)
         || (d.Adopt? && d.contact.id == contact && d.succ == succ && d.remote == remote)
       case Alone => d == StaySingle(k)
       case CutOff => d == NoCandidate(k)
  }

  lemma {:induction false} DecideFits(st: NodeState, opts: Options, fetch: nat -> Option<PeerState>, alive: nat -> bool, i: nat)
    returns (k: nat)
    requires i <= |Asked(st)| && forall j: nat :: j < i ==> !Ends(st, opts, fetch, alive, j)
    ensures EndsAt(st, opts, fetch, alive, k)
    ensures Fits(st, k, Decide(st, opts.hasClient, Asked(st), i, fetch, alive), OutcomeAt(st, opts, fetch, alive, k))
    decreases |Asked(st)| - i
  {
    k := i;
    if i < |Asked(st)| {
      TryEnds(st, opts, fetch, alive, i);
      if !Ends(st, opts, fetch, alive, i) {
        k := DecideFits(st, opts, fetch, alive, i + 1);
      }
    }
  }

  // ----- failures counted on the way -----

  ghost predicate FailedBefore(st: NodeState, k: nat, id: int)
    requires k <= |Asked(st)|
  {
    exists j: nat :: j < k && Asked(st)[j].id == id != st.self.id
  }

  ghost predicate CountedUpTo(st: NodeState, k: nat, after: map<int, nat>)
    requires k <= |Asked(st)|
  {
    forall id ::
      if FailedBefore(st, k, id) then id in after && after[id] == (if id in st.failures then st.failures[id] else 0) + 1
      else (id in after <==> id in st.failures) && (id in after ==> after[id] == st.failures[id])
  }

  lemma OneMoreFailed(st: NodeState, k: nat, id: int)
    requires k < |Asked(st)|
    ensures FailedBefore(st, k + 1, id) <==> FailedBefore(st, k, id) || Asked(st)[k].id == id != st.self.id
  {
  }

  lemma NewFailure(st: NodeState, k: nat)
    requires k < |Asked(st)|
    ensures !FailedBefore(st, k, Asked(st)[k].id)
  {
    CandidatesAre(st);
  }

  lemma {:induction false} FailuresCounted(st: NodeState, opts: Options, k: nat)
    requires k <= |Asked(st)|
    ensures CountedUpTo(st, k, FailCandidates(st, opts, Asked(st), k).failures)
  {
    if k > 0 {
      var before := FailCandidates(st, opts, Asked(st), k - 1).failures;
      FailuresCounted(st, opts, k - 1);
      NewFailure(st, k - 1);
      forall id ensures FailedBefore(st, k, id) <==> FailedBefore(st, k - 1, id) || Asked(st)[k - 1].id == id != st.self.id {
        OneMoreFailed(st, k - 1, id);
      }
    }
  }

  lemma {:induction false} FailuresKeepPointers(st: NodeState, opts: Options, candidates: seq<NodeInfo>, k: nat)
    requires k <= |candidates|
    ensures var after := FailCandidates(st, opts, candidates, k);
            && after.self == st.self && after.status == st.status && after.pred == st.pred && after.predList == st.predList
            && after.succ == st.succ && after.listValid == st.listValid && |after.fingers| == |st.fingers|
  {
    if k > 0 {
      FailuresKeepPointers(st, opts, candidates, k - 1);
    }
  }

  // ----- the state afterwards -----

  ghost predicate CountsLeft(st: NodeState, k: nat, o: Outcome, after: map<int, nat>)
    requires k <= |Asked(st)|
  {
    forall id ::
      if o.Installs? && (id == o.contact || id == o.succ.id) then id !in after
      else if FailedBefore(st, k, id) then id in after && after[id] == (if id in st.failures then st.failures[id] else 0) + 1
      else (id in after <==> id in st.failures) && (id in after ==> after[id] == st.failures[id])
  }

  /** Pointers and list when the search ends with outcome `o`. */
  predicate PointersLeft(st: NodeState, opts: Options, o: Outcome, after: NodeState) {
    && after.self == st.self && after.predList == st.predList && |after.fingers| == |st.fingers|
    && match o
       case Installs(_, succ, remote) =>
         && after.status == st.status && after.pred == st.pred && after.listValid == st.listValid
         && after.succ == succ && after.list == Merge(st.self, opts.listSize, opts.siblingCap, succ, remote)
         && (st.fingers != [] ==> after.fingers[0] == Finger(succ, Ok, true))
       case Alone =>
         && after.succ == st.self && after.list == [st.self]
         && (if st.succ.id == st.self.id then after.status == st.status && after.pred == st.pred && after.listValid
             else after.status == Isolated && after.pred == None && !after.listValid)
       case CutOff => after.status == Isolated && after.pred == None && after.succ == st.self && after.list == [st.self] && !after.listValid
  }

  function TargetOf(o: Outcome): Option<NodeInfo> {
    if o.Installs? then Some(o.succ) else None
  }

  lemma CommitLeaves(st: NodeState, failed: NodeState, opts: Options, k: nat, d: Decision, o: Outcome)
    requires k <= |Asked(st)| && Fits(st, k, d, o) && CountedUpTo(st, k, failed.failures)
    requires failed.self == st.self && failed.status == st.status && failed.pred == st.pred && failed.predList == st.predList
    requires failed.listValid == st.listValid && |failed.fingers| == |st.fingers|
    ensures var after := Commit(MarkSuccesses(failed, Reached(d)), st.succ.id, opts, d);
            PointersLeft(st, opts, o, after) && CountsLeft(st, k, o, after.failures)
    ensures Target(d) == TargetOf(o)
  {
  }

  /** The write of a round: the first candidate that ends the search decides, and a live nearer predecessor it
      names is preferred to it. */
  lemma WriteLaw(st: NodeState, opts: Options, fetch: nat -> Option<PeerState>, alive: nat -> bool) returns (k: nat)
    ensures EndsAt(st, opts, fetch, alive, k)
    ensures var o := OutcomeAt(st, opts, fetch, alive, k);
            var d := Decide(st, opts.hasClient, Candidates(st), 0, fetch, alive);
            var after := Written(st, opts, Candidates(st), d);
            && PointersLeft(st, opts, o, after) && CountsLeft(st, k, o, after.failures)
            && RectifyTarget(st, opts, fetch, alive) == TargetOf(o)
  {
    CandidatesAre(st);
    k := DecideFits(st, opts, fetch, alive, 0);
    FailuresCounted(st, opts, k);
    FailuresKeepPointers(st, opts, Asked(st), k);
    CommitLeaves(st, FailCandidates(st, opts, Asked(st), k), opts, k,
                 Decide(st, opts.hasClient, Asked(st), 0, fetch, alive), OutcomeAt(st, opts, fetch, alive, k));
  }

  /** What a whole round leaves behind: the write, and then validation, if it is switched on and somebody was
      installed.  A node that is not active does nothing. */
  lemma StabilizeLaw(st: NodeState, opts: Options, fetch: nat -> Option<PeerState>, alive: nat -> bool, p: Probe)
    returns (k: nat, written: NodeState)
    ensures EndsAt(st, opts, fetch, alive, k)
    ensures var o := OutcomeAt(st, opts, fetch, alive, k);
            && PointersLeft(st, opts, o, written) && CountsLeft(st, k, o, written.failures)
            && RectifyTarget(st, opts, fetch, alive) == TargetOf(o)
            && Stabilization(st, opts, fetch, alive, p) ==
                 if st.status != Active then st
                 else if opts.validateAfterStabilize && o.Installs? then Validation(written, opts, p)
                 else written
  {
    k := WriteLaw(st, opts, fetch, alive);
    written := Written(st, opts, Candidates(st), Decide(st, opts.hasClient, Candidates(st), 0, fetch, alive));
  }

  /** Whoever Stabilize installs has answered in this round: it is a candidate that replied, or a live node strictly
      between this node and such a candidate, or, for a node alone, its live predecessor. */
  lemma InstalledAnswered(st: NodeState, opts: Options, fetch: nat -> Option<PeerState>, alive: nat -> bool) returns (k: nat)
    requires RectifyTarget(st, opts, fetch, alive).Some?
    ensures k < |Asked(st)| && opts.hasClient
    ensures var n, c := RectifyTarget(st, opts, fetch, alive).value, Asked(st)[k];
            || (c.id != st.self.id && fetch(k).Some? && n == c
                && !NamesNearer(st.self.id, c.id, fetch(k).value, alive(k)))
            || (c.id != st.self.id && fetch(k).Some? && alive(k) && fetch(k).value.pred == Some(n)
                && InRangeOpenOpen(n.id, st.self.id, c.id) && ValidNodeInfo(n))
            || (c.id == st.self.id && alive(k) && st.pred == Some(n) && n.id != st.self.id)
    ensures forall j: nat :: j < k && Asked(st)[j].id != st.self.id ==> fetch(j).None?
  {
    k := WriteLaw(st, opts, fetch, alive);
    forall j: nat | j < k && Asked(st)[j].id != st.self.id ensures fetch(j).None? {
      assert !Ends(st, opts, fetch, alive, j);
    }
  }
}
