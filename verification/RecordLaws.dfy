/** What a node remembers of others: counts of failures, the status of its fingers, and what repairs make of them
    (maintenance.go:703-729, 1202-1242).
 */
module RecordLaws {
  import opened Ring
  import opened Wrappers
  import opened NodeLists
  import opened NodeSpec
  import opened ShapeRuns
  import FingerSchedule

  function CountOf(st: NodeState, id: int): nat {
    if id in st.failures then st.failures[id] else 0
  }

  /** Everything but the records of failures, fingers and list entries is as before. */
  predicate OnlyRecords(st: NodeState, after: NodeState) {
    && after.self == st.self && after.status == st.status && after.pred == st.pred && after.predList == st.predList
    && after.succ == st.succ && after.listValid == st.listValid && |after.fingers| == |st.fingers|
  }

  /** Taking a node out of a list takes it out of every part of it. */
  lemma {:induction false} WithoutSplits(a: seq<NodeInfo>, b: seq<NodeInfo>, id: int)
    ensures Without(a + b, id) == Without(a, id) + Without(b, id)
    decreases |b|
  {
    if b == [] {
      assert a + b == a;
    } else {
      var n := |b| - 1;
      WithoutSplits(a, b[..n], id);
      assert (a + b)[..|a| + n] == a + b[..n];
    }
  }

  /** One more failure is counted.  Below the threshold the node's fingers become suspicious; when the count reaches it,
      the node leaves the list and the fingers. */
  lemma FailureLaw(st: NodeState, opts: Options, id: int)
    ensures var after := MarkFailure(st, opts, id);
            var out := opts.failedThreshold > 0 && CountOf(st, id) + 1 >= opts.failedThreshold;
            && OnlyRecords(st, after) && after.failures == st.failures[id := CountOf(st, id) + 1]
            && after.list == (if out then Without(st.list, id) else st.list)
            && (forall i :: 0 <= i < |st.fingers| ==>
                  after.fingers[i] == if st.fingers[i].node.id != id then st.fingers[i]
                                      else if out then Finger(st.self, Unknown, false)
                                      else Finger(st.fingers[i].node, Suspicious, false))
  {
  }

  /** A success clears the count and the suspicion. */
  lemma SuccessLaw(st: NodeState, ids: set<int>)
    ensures var after := MarkSuccesses(st, ids);
            && OnlyRecords(st, after) && after.list == st.list
            && (forall id :: CountOf(after, id) == if id in ids then 0 else CountOf(st, id))
            && (forall i :: 0 <= i < |st.fingers| ==>
                  after.fingers[i] == if st.fingers[i].node.id in ids then st.fingers[i].(status := Ok) else st.fingers[i])
  {
  }

  function FailedTimes(st: NodeState, opts: Options, id: int, n: nat): NodeState {
    if n == 0 then st else MarkFailure(FailedTimes(st, opts, id, n - 1), opts, id)
  }

  /** A node with a clean record is listed until exactly the threshold-th failure in a row; without a threshold it
      stays. */
  lemma {:induction false} EvictedAtThreshold(st: NodeState, opts: Options, id: int, n: nat)
    requires CountOf(st, id) == 0
    ensures var after := FailedTimes(st, opts, id, n);
            && CountOf(after, id) == n
            && Ids(after.list) == if opts.failedThreshold > 0 && n >= opts.failedThreshold then Ids(st.list) - {id} else Ids(st.list)
  {
    if n > 0 {
      EvictedAtThreshold(st, opts, id, n - 1);
      FailureLaw(FailedTimes(st, opts, id, n - 1), opts, id);
      WithoutMeaning(FailedTimes(st, opts, id, n - 1).list, id);
    }
  }

  // ----- starting -----

  /** A ring of one: the node is its own successor, list and fingers. */
  lemma ActivationLaw(st: NodeState)
    ensures var after := ActivateSingle(st);
            && after.self == st.self && after.status == Active && after.pred == None && after.succ == st.self
            && after.list == [st.self] && after.listValid && after.failures == st.failures && after.predList == st.predList
            && |after.fingers| == |st.fingers|
            && forall i :: 0 <= i < |st.fingers| ==> after.fingers[i] == Finger(st.self, Ok, st.fingers[i].valid)
  {
  }

  // ----- repairs -----

  /** A finger whose lookups all fail keeps its entry, but an attempted one is no longer valid, nor trusted. */
  lemma {:induction false} FailedRepairs(fingers: seq<Finger>, indices: seq<int>, found: nat -> Option<NodeInfo>, i: int)
    requires |fingers| == BITS && (forall k :: 0 <= k < |indices| ==> 0 <= indices[k] < BITS) && 0 <= i < BITS
    requires forall k: nat :: k < |indices| && indices[k] == i ==> found(k).None?
    ensures var f := fingers[i];
            FingerSchedule.Repaired(fingers, indices, found)[i]
            == if i in indices then Finger(f.node, if f.status == Ok then Suspicious else f.status, false) else f
    decreases |indices|
  {
    if indices != [] {
      var n := |indices| - 1;
      FailedRepairs(fingers, indices[..n], found, i);
      assert indices == indices[..n] + [indices[n]];
    }
  }

  ghost predicate TriedAgain(indices: seq<int>, k: nat)
    requires k < |indices|
  {
    exists j :: k < j < |indices| && indices[j] == indices[k]
  }

  /** A finger has what the last successful lookup for it found; it is trusted unless a later lookup has failed. */
  lemma {:induction false} LastSuccessDecides(fingers: seq<Finger>, indices: seq<int>, found: nat -> Option<NodeInfo>, k: nat)
    requires |fingers| == BITS && (forall j :: 0 <= j < |indices| ==> 0 <= indices[j] < BITS)
    requires k < |indices| && found(k).Some?
    requires forall j: nat :: k < j < |indices| && indices[j] == indices[k] ==> found(j).None?
    ensures FingerSchedule.Repaired(fingers, indices, found)[indices[k]]
            == if TriedAgain(indices, k) then Finger(found(k).value, Suspicious, false) else Finger(found(k).value, Ok, true)
    decreases |indices|
  {
    var n := |indices| - 1;
    if k < n {
      LastSuccessDecides(fingers, indices[..n], found, k);
      TriedStep(indices, k);
    }
  }

  lemma TriedStep(indices: seq<int>, k: nat)
    requires k < |indices| - 1
    ensures TriedAgain(indices, k) <==> TriedAgain(indices[..|indices| - 1], k) || indices[|indices| - 1] == indices[k]
  {
    var n := |indices| - 1;
    if j :| k < j < n && indices[..n][j] == indices[..n][k] {
      assert indices[j] == indices[k];
    }
    if j :| k < j < |indices| && indices[j] == indices[k] {
      assert j < n ==> indices[..n][j] == indices[..n][k];
    }
  }
}
