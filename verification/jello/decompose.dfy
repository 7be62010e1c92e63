/** `decomposeGraph`: for every branch node of the graph list and every
    branch it owns, the nodes whose tag set is exactly that branch are
    moved, in their order, out of the graph list into the branch node's
    sub-node list for the branch (a stable partition followed by cutting
    off the tail). */
module Decompose {
  import opened Sequences
  import opened Graph
  import opened NodeTypes

  /** The partition test for branch `b`: the node's tags are exactly {b}. */
  predicate OnlyIn(w: World, b: BranchId, n: NodeId) {
    n in w.nodes && w.nodes[n].tags == {b}
  }

  function InBranch(w: World, b: BranchId): NodeId -> bool {
    (n: NodeId) => OnlyIn(w, b, n)
  }

  function Outside(w: World, b: BranchId): NodeId -> bool {
    (n: NodeId) => !OnlyIn(w, b, n)
  }

  /** Decomposing only fills in sub-node lists: node kinds, ports and tags,
      the ports themselves, the output node and the id counter stay. */
  predicate OnlySubNodesChanged(w: World, w': World) {
    && w'.nodes.Keys == w.nodes.Keys
    && (forall n | n in w.nodes :: SameButSubNodes(w.nodes[n], w'.nodes[n]))
    && w'.inputs == w.inputs && w'.outputs == w.outputs
    && w'.output == w.output && w'.nextId == w.nextId
  }

  predicate SameButSubNodes(a: Node, b: Node) {
    a.kind == b.kind && a.inputs == b.inputs && a.outputs == b.outputs && a.tags == b.tags
  }

  /** One pass of the inner loop: the nodes of branch `b` leave the graph
      list and become `owner`'s sub-nodes for `b`; no other sub-node list
      changes. */
  function SplitBranch(w: World, owner: NodeId, b: BranchId): (w': World)
    requires owner in w.nodes
    ensures OnlySubNodesChanged(w, w')
    ensures forall n :: n in w'.graph <==> n in w.graph && !OnlyIn(w, b, n)
    ensures b in w'.nodes[owner].subNodes
    ensures forall n :: n in w'.nodes[owner].subNodes[b] <==> n in w.graph && OnlyIn(w, b, n)
    ensures forall n, k | n in w.nodes && k in w.nodes[n].subNodes && (n, k) != (owner, b) ::
              k in w'.nodes[n].subNodes && w'.nodes[n].subNodes[k] == w.nodes[n].subNodes[k]
  {
    var node := w.nodes[owner];
    w.(graph := Keep(w.graph, Outside(w, b)),
       nodes := w.nodes[owner := node.(subNodes := node.subNodes[b := Keep(w.graph, InBranch(w, b))])])
  }

  /** The pass is a stable partition: the remaining list and the moved list
      each keep the original order, and together they hold every listed
      node exactly as often as before. */
  lemma SplitBranchPartitions(w: World, owner: NodeId, b: BranchId)
    requires owner in w.nodes
    ensures var w' := SplitBranch(w, owner, b);
      && IsSubsequence(w'.graph, w.graph)
      && IsSubsequence(w'.nodes[owner].subNodes[b], w.graph)
      && multiset(w'.graph) + multiset(w'.nodes[owner].subNodes[b]) == multiset(w.graph)
  {
    KeepSubsequence(w.graph, Outside(w, b));
    KeepSubsequence(w.graph, InBranch(w, b));
    KeepPartition(w.graph, InBranch(w, b), Outside(w, b));
  }

  /** One (branch node, branch) pair of the nested loops. */
  datatype Job = Job(owner: NodeId, branch: BranchId)

  /** The pairs the nested loops visit, in order. A node's branches are
      read from `w`, which decomposing does not change. */
  function Jobs(w: World, owners: seq<NodeId>): (r: seq<Job>)
    requires forall o | o in owners :: o in w.nodes
    ensures forall j | j in r :: j.owner in owners && j.owner in w.nodes && j.branch in Branches(w.nodes[j.owner])
    ensures forall o, b | o in owners && b in Branches(w.nodes[o]) :: Job(o, b) in r
  {
    if owners == [] then []
    else
      var bs := Branches(w.nodes[owners[0]]);
      var here := Row(owners[0], bs);
      assert forall b | b in bs :: Job(owners[0], b) in here by {
        forall b | b in bs ensures Job(owners[0], b) in here {
          var k :| 0 <= k < |bs| && bs[k] == b;
          assert here[k] == Job(owners[0], b);
        }
      }
      here + Jobs(w, owners[1..])
  }

  /** The pairs of owner `o` with each of the branches `bs`, in order. */
  function Row(o: NodeId, bs: seq<BranchId>): (r: seq<Job>)
    ensures |r| == |bs| && forall k | 0 <= k < |r| :: r[k] == Job(o, bs[k])
  {
    seq(|bs|, k requires 0 <= k < |bs| => Job(o, bs[k]))
  }

  predicate JobsExist(w: World, jobs: seq<Job>) {
    forall j | j in jobs :: j.owner in w.nodes
  }

  /** The nested loops, one pair at a time. */
  function SplitAll(w: World, jobs: seq<Job>): (w': World)
    requires JobsExist(w, jobs)
    ensures OnlySubNodesChanged(w, w')
    decreases |jobs|
  {
    if jobs == [] then w
    else SplitAll(SplitBranch(w, jobs[0].owner, jobs[0].branch), jobs[1..])
  }

  /** A node is moved by some pair of `jobs`: its tags are exactly one of
      their branches. */
  predicate MovedBy(w: World, jobs: seq<Job>, n: NodeId) {
    n in w.nodes && exists j | j in jobs :: w.nodes[n].tags == {j.branch}
  }

  function Remains(w: World, jobs: seq<Job>): NodeId -> bool {
    (n: NodeId) => !MovedBy(w, jobs, n)
  }

  /** After all pairs, the graph list is the original list without the
      moved nodes, in the original order. */
  lemma {:induction false} SplitAllGraph(w: World, jobs: seq<Job>)
    requires JobsExist(w, jobs)
    ensures SplitAll(w, jobs).graph == Keep(w.graph, Remains(w, jobs))
    decreases |jobs|
  {
    if jobs == [] {
      KeepAll(w.graph, Remains(w, jobs));
    } else {
      var j0 := jobs[0];
      var w1 := SplitBranch(w, j0.owner, j0.branch);
      SplitAllGraph(w1, jobs[1..]);
      assert w1.graph == Keep(w.graph, Outside(w, j0.branch));
      forall n | n in w.graph
        ensures Remains(w, jobs)(n) == (Outside(w, j0.branch)(n) && Remains(w1, jobs[1..])(n))
      {
        MovedByFirst(w, jobs, n);
      }
      KeepKeep(w.graph, Outside(w, j0.branch), Remains(w1, jobs[1..]), Remains(w, jobs));
    }
  }

  /** A node is moved by the pairs when the first pair moves it or the
      later pairs, run on what the first leaves, move it. */
  lemma MovedByFirst(w: World, jobs: seq<Job>, n: NodeId)
    requires JobsExist(w, jobs) && jobs != []
    ensures var w1 := SplitBranch(w, jobs[0].owner, jobs[0].branch);
      MovedBy(w, jobs, n) <==> OnlyIn(w, jobs[0].branch, n) || MovedBy(w1, jobs[1..], n)
  {
    var j0 := jobs[0];
    var w1 := SplitBranch(w, j0.owner, j0.branch);
    if n in w.nodes {
      assert SameButSubNodes(w.nodes[n], w1.nodes[n]);
      if MovedBy(w, jobs, n) {
        var j :| j in jobs && w.nodes[n].tags == {j.branch};
        if j != j0 {
          assert jobs == [j0] + jobs[1..];
          assert j in jobs[1..];
        }
      }
      if MovedBy(w1, jobs[1..], n) {
        var j :| j in jobs[1..] && w1.nodes[n].tags == {j.branch};
        assert j in jobs;
      }
      if OnlyIn(w, j0.branch, n) {
        assert j0 in jobs;
      }
    }
  }

  /** Later pairs for other branches leave a stored sub-node list alone. */
  lemma {:induction false} SplitAllKeepsSubNodes(w: World, jobs: seq<Job>, o: NodeId, b: BranchId)
    requires JobsExist(w, jobs)
    requires o in w.nodes && b in w.nodes[o].subNodes
    requires forall j | j in jobs :: j.branch != b
    ensures b in SplitAll(w, jobs).nodes[o].subNodes
    ensures SplitAll(w, jobs).nodes[o].subNodes[b] == w.nodes[o].subNodes[b]
    decreases |jobs|
  {
    if jobs != [] {
      var w1 := SplitBranch(w, jobs[0].owner, jobs[0].branch);
      assert jobs[0] in jobs;
      SplitAllKeepsSubNodes(w1, jobs[1..], o, b);
    }
  }

  /** The branches of the pairs, in order. */
  function Labels(jobs: seq<Job>): seq<BranchId> {
    seq(|jobs|, k requires 0 <= k < |jobs| => jobs[k].branch)
  }

  /** No two pairs name the same branch. */
  predicate DistinctBranches(jobs: seq<Job>) {
    NoDuplicates(Labels(jobs))
  }

  /** The first pair's branch comes up in no later pair, and the later
      pairs are distinct among themselves. */
  lemma DistinctBranchesTail(jobs: seq<Job>)
    requires jobs != [] && DistinctBranches(jobs)
    ensures DistinctBranches(jobs[1..])
    ensures forall j | j in jobs[1..] :: j.branch != jobs[0].branch
  {
    assert Labels(jobs[1..]) == Labels(jobs)[1..];
    NoDuplicatesTail(Labels(jobs));
    forall j | j in jobs[1..] ensures j.branch != jobs[0].branch {
      var k :| 0 <= k < |jobs[1..]| && jobs[1..][k] == j;
      assert Labels(jobs[1..])[k] == j.branch;
    }
  }

  /** Moving branch `b0` out first does not change which nodes, in which
      order, a later pass for another branch `b` moves. */
  lemma SplitOtherBranch(w: World, owner: NodeId, b0: BranchId, b: BranchId)
    requires owner in w.nodes && b != b0
    ensures var w1 := SplitBranch(w, owner, b0);
      Keep(w1.graph, InBranch(w1, b)) == Keep(w.graph, InBranch(w, b))
  {
    var w1 := SplitBranch(w, owner, b0);
    forall n | n in w.graph
      ensures InBranch(w, b)(n) == (Outside(w, b0)(n) && InBranch(w1, b)(n))
    {
    }
    KeepKeep(w.graph, Outside(w, b0), InBranch(w1, b), InBranch(w, b));
  }

  /** When no branch is visited twice, each branch node ends up with the
      nodes of each of its branches, in their original order. */
  lemma {:induction false} SplitAllSubNodes(w: World, jobs: seq<Job>, i: nat)
    requires JobsExist(w, jobs) && DistinctBranches(jobs) && i < |jobs|
    ensures jobs[i].branch in SplitAll(w, jobs).nodes[jobs[i].owner].subNodes
    ensures SplitAll(w, jobs).nodes[jobs[i].owner].subNodes[jobs[i].branch] == Keep(w.graph, InBranch(w, jobs[i].branch))
    decreases |jobs|
  {
    var j0 := jobs[0];
    var w1 := SplitBranch(w, j0.owner, j0.branch);
    assert SplitAll(w, jobs) == SplitAll(w1, jobs[1..]);
    DistinctBranchesTail(jobs);
    if i == 0 {
      SplitAllKeepsSubNodes(w1, jobs[1..], j0.owner, j0.branch);
    } else {
      assert jobs[1..][i - 1] == jobs[i];
      SplitAllSubNodes(w1, jobs[1..], i - 1);
      SplitOtherBranch(w, j0.owner, j0.branch, jobs[i].branch);
    }
  }

  // ---------------------------------------------------------------------
  // decomposeGraph
  // ---------------------------------------------------------------------

  function IsBranchNode(w: World): NodeId -> bool {
    (n: NodeId) => n in w.nodes && w.nodes[n].kind.IfElse?
  }

  /** The branch nodes of the graph list, taken once before the loops:
      the if-else nodes of the graph list, duplicates included. */
  function BranchNodes(w: World): (r: seq<NodeId>)
    ensures forall n :: n in r <==> n in w.graph && n in w.nodes && w.nodes[n].kind.IfElse?
  {
    Keep(w.graph, IsBranchNode(w))
  }

  /** `decomposeGraph` as written: every listed branch node is processed as
      often as it is listed. */
  function DecomposeGraphAsWritten(w: World): (w': World)
    ensures OnlySubNodesChanged(w, w')
  {
    SplitAll(w, Jobs(w, BranchNodes(w)))
  }

  /** `decomposeGraph` processing each branch node once. */
  function DecomposeGraph(w: World): (w': World)
    ensures OnlySubNodesChanged(w, w')
  {
    SplitAll(w, Jobs(w, Dedup(BranchNodes(w))))
  }

  /** The node's tags are exactly one branch of a listed branch node. */
  predicate InSomeBranch(w: World, n: NodeId) {
    n in w.nodes &&
    exists o, b | o in w.graph && o in w.nodes && b in Branches(w.nodes[o]) :: w.nodes[n].tags == {b}
  }

  function Stays(w: World): NodeId -> bool {
    (n: NodeId) => !InSomeBranch(w, n)
  }

  /** Every branch id is owned by at most one node, and no node owns one
      twice (the Swift code draws them as fresh UUIDs). */
  predicate FreshBranchIds(w: World) {
    && (forall o, o', b | o in w.nodes && o' in w.nodes && b in Branches(w.nodes[o]) && b in Branches(w.nodes[o']) :: o == o')
    && (forall o | o in w.nodes :: NoDuplicates(Branches(w.nodes[o])))
  }

  /** Owners listed once with fresh branch ids give pairs with distinct
      branches. */
  lemma {:induction false} JobsDistinct(w: World, owners: seq<NodeId>)
    requires forall o | o in owners :: o in w.nodes
    requires NoDuplicates(owners) && FreshBranchIds(w)
    ensures DistinctBranches(Jobs(w, owners))
    decreases |owners|
  {
    if owners != [] {
      NoDuplicatesTail(owners);
      JobsDistinct(w, owners[1..]);
      JobsLabelsCons(w, owners);
      LaterBranchesDiffer(w, owners);
      NoDuplicatesConcat(Branches(w.nodes[owners[0]]), Labels(Jobs(w, owners[1..])));
    }
  }

  /** The branches of the pairs are the first owner's branches, then those
      of the later owners' pairs. */
  lemma JobsLabelsCons(w: World, owners: seq<NodeId>)
    requires forall o | o in owners :: o in w.nodes
    requires owners != []
    ensures Labels(Jobs(w, owners)) == Branches(w.nodes[owners[0]]) + Labels(Jobs(w, owners[1..]))
  {
    var bs := Branches(w.nodes[owners[0]]);
    LabelsAppend(Row(owners[0], bs), Jobs(w, owners[1..]));
    LabelsRow(owners[0], bs);
  }

  lemma LabelsAppend(a: seq<Job>, b: seq<Job>)
    ensures Labels(a + b) == Labels(a) + Labels(b)
  {
  }

  lemma LabelsRow(o: NodeId, bs: seq<BranchId>)
    ensures Labels(Row(o, bs)) == bs
  {
  }

  /** With owners listed once and fresh branch ids, none of the first
      owner's branches is named by a later owner's pair. */
  lemma LaterBranchesDiffer(w: World, owners: seq<NodeId>)
    requires forall o | o in owners :: o in w.nodes
    requires owners != [] && NoDuplicates(owners) && FreshBranchIds(w)
    ensures forall x | x in Branches(w.nodes[owners[0]]) :: x !in Labels(Jobs(w, owners[1..]))
  {
    var rest := Jobs(w, owners[1..]);
    forall x, k | x in Branches(w.nodes[owners[0]]) && 0 <= k < |rest| ensures Labels(rest)[k] != x {
      assert rest[k] in rest;
      assert owners[0] !in owners[1..];
      assert rest[k].owner != owners[0];
    }
  }

  /** With the branch nodes of the list as owners, being moved by their
      pairs is belonging to a single branch of a listed branch node. */
  lemma MovedByBranchNodes(w: World, owners: seq<NodeId>, n: NodeId)
    requires forall o :: o in owners <==> o in w.graph && o in w.nodes && w.nodes[o].kind.IfElse?
    ensures MovedBy(w, Jobs(w, owners), n) <==> InSomeBranch(w, n)
  {
    var jobs := Jobs(w, owners);
    if MovedBy(w, jobs, n) {
      var j :| j in jobs && w.nodes[n].tags == {j.branch};
      assert j.owner in w.graph && j.branch in Branches(w.nodes[j.owner]);
    }
    if InSomeBranch(w, n) {
      var o, b :| o in w.graph && o in w.nodes && b in Branches(w.nodes[o]) && w.nodes[n].tags == {b};
      assert Job(o, b) in jobs;
    }
  }

  /** Decomposing leaves exactly the nodes that belong to no single branch
      of a listed branch node, in their original order; listing a branch
      node twice makes no difference here. */
  lemma DecomposeGraphRemaining(w: World)
    ensures DecomposeGraph(w).graph == Keep(w.graph, Stays(w))
    ensures DecomposeGraphAsWritten(w).graph == Keep(w.graph, Stays(w))
    ensures IsSubsequence(DecomposeGraph(w).graph, w.graph)
  {
    var owners := BranchNodes(w);
    SplitAllGraph(w, Jobs(w, owners));
    SplitAllGraph(w, Jobs(w, Dedup(owners)));
    forall n | n in w.graph
      ensures Remains(w, Jobs(w, owners))(n) == Stays(w)(n)
      ensures Remains(w, Jobs(w, Dedup(owners)))(n) == Stays(w)(n)
    {
      MovedByBranchNodes(w, owners, n);
      MovedByBranchNodes(w, Dedup(owners), n);
    }
    KeepAgrees(w.graph, Remains(w, Jobs(w, owners)), Stays(w));
    KeepAgrees(w.graph, Remains(w, Jobs(w, Dedup(owners))), Stays(w));
    KeepSubsequence(w.graph, Stays(w));
  }

  /** With fresh branch ids, every branch of every listed branch node gets
      exactly the nodes tagged with that branch alone, in their original
      order. */
  lemma DecomposeGraphBranches(w: World, o: NodeId, b: BranchId)
    requires FreshBranchIds(w)
    requires o in w.graph && o in w.nodes && b in Branches(w.nodes[o])
    ensures b in DecomposeGraph(w).nodes[o].subNodes
    ensures DecomposeGraph(w).nodes[o].subNodes[b] == Keep(w.graph, InBranch(w, b))
    ensures forall n :: n in DecomposeGraph(w).nodes[o].subNodes[b] <==> n in w.graph && OnlyIn(w, b, n)
  {
    var owners := Dedup(BranchNodes(w));
    var jobs := Jobs(w, owners);
    JobsDistinct(w, owners);
    assert Job(o, b) in jobs;
    var i :| 0 <= i < |jobs| && jobs[i] == Job(o, b);
    SplitAllSubNodes(w, jobs, i);
    assert DecomposeGraph(w) == SplitAll(w, jobs);
  }

  /** When the graph list names no node twice, `decomposeGraph` as written
      visits every branch node once and is the corrected decomposition. */
  lemma AsWrittenWithoutRepeats(w: World)
    requires NoDuplicates(w.graph)
    ensures DecomposeGraphAsWritten(w) == DecomposeGraph(w)
  {
    KeepDistinct(w.graph, IsBranchNode(w));
    DedupDistinct(BranchNodes(w));
  }

  /** `decomposeGraph` as written, on a graph list that names no node
      twice: every branch of every listed branch node gets exactly the
      nodes tagged with that branch alone, in their original order. */
  lemma DecomposeGraphAsWrittenBranches(w: World, o: NodeId, b: BranchId)
    requires FreshBranchIds(w) && NoDuplicates(w.graph)
    requires o in w.graph && o in w.nodes && b in Branches(w.nodes[o])
    ensures b in DecomposeGraphAsWritten(w).nodes[o].subNodes
    ensures DecomposeGraphAsWritten(w).nodes[o].subNodes[b] == Keep(w.graph, InBranch(w, b))
    ensures forall n :: n in DecomposeGraphAsWritten(w).nodes[o].subNodes[b] <==> n in w.graph && OnlyIn(w, b, n)
  {
    AsWrittenWithoutRepeats(w);
    DecomposeGraphBranches(w, o, b);
  }

  /** An if-else node (0) with branches `t` and `f`, listed twice in the
      graph list as the topological order lists a node that one producer
      feeds through two of its inputs, and a node (1) tagged with branch
      `t` alone. */
  function TwiceListedIfElse(t: BranchId, f: BranchId): World {
    World(map[0 := Node(IfElse(t, f), [], [], {}, map[]), 1 := Node(Plain, [], [], {t}, map[])],
          map[], map[], [0, 0, 1], 0, 0)
  }

  lemma TwiceListedOwners(t: BranchId, f: BranchId)
    ensures BranchNodes(TwiceListedIfElse(t, f)) == [0, 0]
    ensures Keep(TwiceListedIfElse(t, f).graph, InBranch(TwiceListedIfElse(t, f), t)) == [1]
  {
    var w := TwiceListedIfElse(t, f);
    var isBranch := IsBranchNode(w);
    var inT := InBranch(w, t);
    assert isBranch(0) && !isBranch(1) && !inT(0) && inT(1);
    var one: seq<NodeId> := [1];
    var zeroOne: seq<NodeId> := [0, 1];
    assert w.graph[1..] == zeroOne && zeroOne[1..] == one && one[1..] == [];
    assert Keep(one, isBranch) == [] && Keep(one, inT) == [1];
    assert Keep(zeroOne, isBranch) == [0] && Keep(zeroOne, inT) == [1];
  }

  lemma TwiceListedJobs(t: BranchId, f: BranchId)
    ensures Jobs(TwiceListedIfElse(t, f), [0, 0]) == [Job(0, t), Job(0, f), Job(0, t), Job(0, f)]
  {
    var w := TwiceListedIfElse(t, f);
    assert Branches(w.nodes[0]) == [t, f];
    assert [0, 0][1..] == [0] && [0][1..] == [];
    assert Jobs(w, [0]) == [Job(0, t), Job(0, f)];
  }

  /** The example's pairs as written visit branch `t` first and third and
      branch `f` last. */
  lemma TwiceListedRevisits(t: BranchId, f: BranchId)
    ensures var w := TwiceListedIfElse(t, f);
      Jobs(w, BranchNodes(w)) == [Job(0, t), Job(0, f), Job(0, t), Job(0, f)]
  {
    TwiceListedOwners(t, f);
    TwiceListedJobs(t, f);
  }

  /** After a pass for branch `b`, no node of `b` is left in the list. */
  lemma SplitBranchLeavesNone(w: World, owner: NodeId, b: BranchId)
    requires owner in w.nodes
    ensures var w' := SplitBranch(w, owner, b); forall n | n in w'.graph :: !OnlyIn(w', b, n)
  {
  }

  /** Job `j`'s owner holds `s` as the sub-node list of `j`'s branch. */
  predicate SubNodesAre(w: World, j: Job, s: seq<NodeId>) {
    j.owner in w.nodes && j.branch in w.nodes[j.owner].subNodes && w.nodes[j.owner].subNodes[j.branch] == s
  }

  /** The later pairs' owners still exist after the first pass. */
  lemma JobsExistAfterFirst(w: World, jobs: seq<Job>)
    requires JobsExist(w, jobs) && jobs != []
    ensures JobsExist(SplitBranch(w, jobs[0].owner, jobs[0].branch), jobs[1..])
  {
  }

  /** Dropping the first pair shifts every later pair down by one place. */
  lemma LaterBranchesShift(jobs: seq<Job>, k: nat)
    requires 0 < k < |jobs|
    requires forall m | k < m < |jobs| :: jobs[m].branch != jobs[k].branch
    ensures jobs[1..][k - 1] == jobs[k]
    ensures forall m | k - 1 < m < |jobs[1..]| :: jobs[1..][m].branch != jobs[1..][k - 1].branch
  {
    forall m | k - 1 < m < |jobs[1..]| ensures jobs[1..][m].branch != jobs[1..][k - 1].branch {
      assert jobs[1..][m] == jobs[m + 1];
    }
  }

  /** As written, a branch visited again after its nodes have left the
      list ends with an empty sub-node list: the last visit finds nothing
      to move and stores the empty list over what was there. */
  lemma {:induction false} SplitAllNothingLeft(w: World, jobs: seq<Job>, k: nat)
    requires JobsExist(w, jobs) && k < |jobs|
    requires forall n | n in w.graph :: !OnlyIn(w, jobs[k].branch, n)
    requires forall m | k < m < |jobs| :: jobs[m].branch != jobs[k].branch
    ensures SubNodesAre(SplitAll(w, jobs), jobs[k], [])
    decreases |jobs|
  {
    var j0 := jobs[0];
    var w1 := SplitBranch(w, j0.owner, j0.branch);
    JobsExistAfterFirst(w, jobs);
    if k == 0 {
      KeepNone(w.graph, InBranch(w, j0.branch));
      forall j | j in jobs[1..] ensures j.branch != j0.branch {
        var m :| 0 <= m < |jobs[1..]| && jobs[1..][m] == j;
        assert jobs[m + 1] == j;
      }
      SplitAllKeepsSubNodes(w1, jobs[1..], j0.owner, j0.branch);
    } else {
      LaterBranchesShift(jobs, k);
      SplitAllNothingLeft(w1, jobs[1..], k - 1);
    }
  }

  /** As written, when a branch is visited twice, its final sub-node list
      is empty: the first visit has already moved its nodes out. */
  lemma {:induction false} SplitAllRevisited(w: World, jobs: seq<Job>, i: nat, k: nat)
    requires JobsExist(w, jobs) && i < k < |jobs| && jobs[i].branch == jobs[k].branch
    requires forall m | k < m < |jobs| :: jobs[m].branch != jobs[k].branch
    ensures SubNodesAre(SplitAll(w, jobs), jobs[k], [])
    decreases |jobs|
  {
    var j0 := jobs[0];
    var w1 := SplitBranch(w, j0.owner, j0.branch);
    JobsExistAfterFirst(w, jobs);
    LaterBranchesShift(jobs, k);
    if i == 0 {
      SplitBranchLeavesNone(w, j0.owner, j0.branch);
      SplitAllNothingLeft(w1, jobs[1..], k - 1);
    } else {
      assert jobs[1..][i - 1] == jobs[i];
      SplitAllRevisited(w1, jobs[1..], i - 1, k - 1);
    }
  }

  /** On the example, branch `t` is visited at the first and the third
      pair, so as written it ends empty. */
  lemma AsWrittenEmptiesBranch(t: BranchId, f: BranchId)
    requires t != f
    ensures SubNodesAre(DecomposeGraphAsWritten(TwiceListedIfElse(t, f)), Job(0, t), [])
  {
    var w := TwiceListedIfElse(t, f);
    TwiceListedRevisits(t, f);
    SplitAllRevisited(w, Jobs(w, BranchNodes(w)), 0, 2);
  }

  /** Node 1 is no longer in the graph list either, so it is lost. */
  lemma AsWrittenDropsNode(t: BranchId, f: BranchId)
    ensures 1 !in DecomposeGraphAsWritten(TwiceListedIfElse(t, f)).graph
  {
    TwiceListedInBranch(t, f);
    DecomposeGraphRemaining(TwiceListedIfElse(t, f));
  }

  /** Node 1 belongs to a single branch of a listed branch node. */
  lemma TwiceListedInBranch(t: BranchId, f: BranchId)
    ensures InSomeBranch(TwiceListedIfElse(t, f), 1)
  {
    var w := TwiceListedIfElse(t, f);
    assert 0 in w.graph && t in Branches(w.nodes[0]);
  }

  /** Processing each branch node once keeps node 1 in branch `t`. */
  lemma CorrectedKeepsBranch(t: BranchId, f: BranchId)
    requires t != f
    ensures SubNodesAre(DecomposeGraph(TwiceListedIfElse(t, f)), Job(0, t), [1])
  {
    var w := TwiceListedIfElse(t, f);
    forall o | o in w.nodes ensures o == 0 || Branches(w.nodes[o]) == [] {
    }
    assert FreshBranchIds(w);
    TwiceListedOwners(t, f);
    DecomposeGraphBranches(w, 0, t);
  }
}
