/** Where a join ends, said of the seeds' answers and the pings of its validation (node.go:580-644). */
module JoinLaws {
  import opened Ring
  import opened Wrappers
  import opened NodeLists
  import opened NodeSpec
  import opened Picks
  import NodeCalls
  import V = ValidationLaws

  /** The state a joiner takes from the answer of a seed. */
  predicate Taken(st: NodeState, opts: Options, succ: NodeInfo, seedList: seq<NodeInfo>, joined: NodeState) {
    && joined.self == st.self && joined.status == Active && joined.pred == None && joined.succ == succ
    && joined.list == Merge(st.self, opts.listSize, opts.siblingCap, succ, seedList)
    && joined.failures == st.failures && joined.predList == st.predList && |joined.fingers| == |st.fingers|
    && (forall j :: 0 < j < |st.fingers| ==> joined.fingers[j] == st.fingers[j])
    && (st.fingers != [] ==> joined.fingers[0] == Finger(succ, Ok, st.fingers[0].valid))
  }

  /** The first usable seed, and nobody else, decides: the joiner takes the successor and the list it answered and
      validates them; without a client or a usable seed it is a ring of one. */
  lemma JoinLaw(st: NodeState, opts: Options, seeds: seq<NodeInfo>, replies: nat -> Option<JoinReply>,
                states: nat -> Option<seq<NodeInfo>>, p: Probe) returns (i: nat, joined: NodeState)
    ensures NodeCalls.UsableAt(st.self.id, seeds, replies, i)
    ensures var after, target := JoinAttempt(st, opts, seeds, replies, states, p), JoinTarget(st.self.id, opts, seeds, replies);
            if !opts.hasClient || i == |seeds| then after == ActivateSingle(st) && target == None
            else
              var succ := replies(i).value.succ;
              && target == Some(succ)
              && Taken(st, opts, succ, NodeCalls.SeedList(opts, replies(i).value, states(i)), joined)
              && after == Validation(joined, opts, p)
  {
    i := NodeCalls.FirstUsableIs(st.self.id, seeds, replies, 0);
    if opts.hasClient && i < |seeds| {
      joined := JoinCommit(st, opts, replies(i).value.succ, NodeCalls.SeedList(opts, replies(i).value, states(i)));
      NodeCalls.JoinIs(st, opts, seeds, replies, states, p, i);
    } else {
      joined := st;
    }
  }

  lemma HeadKept(st: NodeState, opts: Options, p: Probe, c: V.Choice)
    requires V.Chosen(st, opts, p, c) && V.Current(st) != [] && V.AliveAt(st, opts, p)(0)
    ensures c.kept != [] && c.kept[0] == 0
  {
    assert SeenTo(V.Current(st), EffectiveLimit(opts.listSize), c.kept, 0);
  }

  lemma FirstKept(st: NodeState, p: Probe, c: V.Choice, after: NodeState)
    requires InRange(V.Current(st), c.kept) && (c.added != [] ==> p.lastList.Some? && InRange(p.lastList.value, c.added))
    requires V.PointersLeft(st, p, c, after) && st.status == Active
    ensures if c.kept == [] then after.status == Isolated
            else after.status == Active && after.succ == V.Current(st)[c.kept[0]]
  {
  }

  /** The place of the new successor in the list that was validated. */
  lemma NewHead(st: NodeState, opts: Options, p: Probe) returns (at: nat)
    requires st.status == Active && st.list != []
    ensures var after := Validation(st, opts, p);
            && (after.status == Active <==> V.SomeoneAlive(st, opts, p))
            && (after.status == Active ==> at < |st.list| && after.succ == st.list[at])
            && (V.AliveAt(st, opts, p)(0) ==> after.status == Active && at == 0)
  {
    var c := V.ValidationLaw(st, opts, p);
    V.NobodyKept(st, opts, p, c);
    FirstKept(st, p, c, Validation(st, opts, p));
    at := if c.kept == [] then 0 else c.kept[0];
    if V.AliveAt(st, opts, p)(0) {
      HeadKept(st, opts, p, c);
    }
  }

  /** A validation keeps a live head, and whom it installs instead is not the node itself if its list did not name it. */
  lemma ValidatedHead(st: NodeState, opts: Options, p: Probe)
    requires st.status == Active && st.list != [] && st.self.id !in Ids(st.list) && ValidId(st.list[0].id)
    ensures var after := Validation(st, opts, p);
            && (opts.hasClient && p.alive(0) ==> after.status == Active && after.succ == st.list[0])
            && (after.status == Active ==> after.succ.id != st.self.id)
            && (after.status == Active <==> V.SomeoneAlive(st, opts, p))
  {
    var at := NewHead(st, opts, p);
    assert opts.hasClient && p.alive(0) ==> V.AliveAt(st, opts, p)(0);
    assert at < |st.list| ==> st.list[at] in st.list;
  }

  lemma MergedWithSelf(self: NodeInfo, size: int, cap: real, succ: NodeInfo, remote: seq<NodeInfo>)
    requires ValidId(self.id) && ValidId(succ.id) && succ.id != self.id
    ensures var r := Merge(self, size, cap, succ, remote); r != [] && r[0] == succ && self.id !in Ids(r)
  {
    MergeMeaning(self, size, cap, succ, remote);
  }

  /** A joiner whose seed names another successor has that one if it answers its ping; it is cut off if and only if
      nobody in the merged list answers; it is a ring of one only where there was no seed to join through. */
  lemma JoinerHasItsSuccessor(st: NodeState, opts: Options, seeds: seq<NodeInfo>, replies: nat -> Option<JoinReply>,
                              states: nat -> Option<seq<NodeInfo>>, p: Probe) returns (i: nat, joined: NodeState)
    requires ValidId(st.self.id)
    ensures NodeCalls.UsableAt(st.self.id, seeds, replies, i)
    ensures var after := JoinAttempt(st, opts, seeds, replies, states, p);
            if !opts.hasClient || i == |seeds| then after.status == Active && after.succ == st.self && after.list == [st.self]
            else
              var succ := replies(i).value.succ;
              && Taken(st, opts, succ, NodeCalls.SeedList(opts, replies(i).value, states(i)), joined)
              && (succ.id != st.self.id ==>
                    && (p.alive(0) ==> after.status == Active && after.succ == succ)
                    && (after.status == Active ==> after.succ.id != st.self.id)
                    && (after.status == Active <==> V.SomeoneAlive(joined, opts, p)))
  {
    i, joined := JoinLaw(st, opts, seeds, replies, states, p);
    if opts.hasClient && i < |seeds| {
      var succ := replies(i).value.succ;
      if succ.id != st.self.id {
        MergedWithSelf(st.self, opts.listSize, opts.siblingCap, succ, NodeCalls.SeedList(opts, replies(i).value, states(i)));
        ValidatedHead(joined, opts, p);
      }
    }
  }
}
