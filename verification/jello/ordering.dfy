/** `pruneGraph` and `topologicallyOrderGraph` (JelloCompilerFunctions.swift):
    the graph's node list is cut down to the tagged nodes and then rebuilt
    in dependency order by a Kahn-style walk along outgoing edges. */
module Ordering {
  import opened Results
  import opened Sequences
  import opened Constraints
  import opened Graph

  // ---------------------------------------------------------------------
  // pruneGraph
  // ---------------------------------------------------------------------

  /** A node `labelBranches` gave at least one branch tag. */
  predicate Tagged(w: World, n: NodeId) {
    n in w.nodes && w.nodes[n].tags != {}
  }

  /** `pruneGraph`: the graph keeps the tagged nodes; nothing else changes. */
  function Prune(w: World): (w': World)
    ensures w' == w.(graph := w'.graph)
    ensures forall n :: n in w'.graph <==> n in w.graph && Tagged(w, n)
    ensures |w'.graph| <= |w.graph|
  {
    w.(graph := Keep(w.graph, n => Tagged(w, n)))
  }

  /** The kept nodes are in their original order, and pruning a pruned
      graph changes nothing. */
  lemma PruneOrderAndIdempotence(w: World)
    ensures IsSubsequence(Prune(w).graph, w.graph)
    ensures Prune(Prune(w)) == Prune(w)
  {
    KeepSubsequence(w.graph, n => Tagged(w, n));
    var w1 := Prune(w);
    KeepAgrees(w1.graph, n => Tagged(w1, n), n => Tagged(w, n));
    KeepIdempotent(w.graph, n => Tagged(w, n));
  }

  /** Pruning keeps a world well linked. */
  lemma PruneKeepsLinks(w: World)
    requires WellLinked(w)
    ensures WellLinked(Prune(w))
  {
    var w' := Prune(w);
    assert PortsPointBack(w') && PortsHaveNodes(w') && EdgesResolve(w');
  }

  // ---------------------------------------------------------------------
  // topologicallyOrderGraph
  // ---------------------------------------------------------------------

  /** `hasNoDependencies`: every connected input of `n` is fed by a node in
      `visited`. */
  predicate NoDependencies(w: World, visited: set<NodeId>, n: NodeId)
    requires WellLinked(w) && n in w.nodes
  {
    forall u | u in w.nodes[n].inputs && Connected(w, u) :: Producer(w, u) in visited
  }

  /** The nodes at the far end of the edges `es`, edge by edge. */
  function EdgeTargets(w: World, es: seq<Edge>): (r: seq<NodeId>)
    requires WellLinked(w) && forall e | e in es :: e.input in w.inputs
    ensures |r| == |es|
    ensures forall i | 0 <= i < |es| :: Some(r[i]) == w.inputs[es[i].input].node && r[i] in w.nodes
  {
    seq(|es|, i requires 0 <= i < |es| => w.inputs[es[i].input].node.value)
  }

  /** The successors reached through the output ports `ports`: the node
      of the far end of each outgoing edge, port by port, edge by edge. */
  function SuccessorsVia(w: World, ports: seq<PortId>): (r: seq<NodeId>)
    requires WellLinked(w) && forall o | o in ports :: o in w.outputs
    ensures forall m | m in r :: m in w.nodes
    ensures forall o, e | o in ports && e in w.outputs[o].outgoing :: w.inputs[e.input].node.value in r
  {
    if ports == [] then []
    else
      var es := w.outputs[ports[0]].outgoing;
      var here := EdgeTargets(w, es);
      assert forall e | e in es :: w.inputs[e.input].node.value in here by {
        forall e | e in es
          ensures w.inputs[e.input].node.value in here
        {
          var i :| 0 <= i < |es| && es[i] == e;
          assert here[i] == w.inputs[e.input].node.value;
        }
      }
      here + SuccessorsVia(w, ports[1..])
  }

  /** The nodes `n`'s outgoing edges lead to, once per edge. */
  function Successors(w: World, n: NodeId): (r: seq<NodeId>)
    requires WellLinked(w) && n in w.nodes
    ensures forall m | m in r :: m in w.nodes
    ensures forall o, e | o in w.nodes[n].outputs && e in w.outputs[o].outgoing :: w.inputs[e.input].node.value in r
  {
    SuccessorsVia(w, w.nodes[n].outputs)
  }

  ghost predicate InNodes(w: World, s: seq<NodeId>) {
    forall n | n in s :: n in w.nodes
  }

  /** Every producer of a connected input of a listed node is listed
      before it. */
  ghost predicate ProducersFirst(w: World, s: seq<NodeId>)
    requires WellLinked(w) && InNodes(w, s)
  {
    forall k, u | 0 <= k < |s| && u in w.nodes[s[k]].inputs && Connected(w, u) :: Producer(w, u) in s[..k]
  }

  /** The walk's own closure: each successor of the `j`-th entry whose
      producers all lie in the first `j + 1` entries is listed. */
  ghost predicate AppendedWhenReady(w: World, s: seq<NodeId>, done: nat)
    requires WellLinked(w) && InNodes(w, s) && done <= |s|
  {
    forall j, m | 0 <= j < done && m in Successors(w, s[j]) && NoDependencies(w, Elements(s[..j + 1]), m) :: m in s
  }

  /** The result is closed under the walk: a successor of a listed node
      whose producers are all listed is listed. */
  ghost predicate SuccessorsClosed(w: World, s: seq<NodeId>)
    requires WellLinked(w) && InNodes(w, s)
  {
    forall k, m | 0 <= k < |s| && m in Successors(w, s[k]) && NoDependencies(w, Elements(s), m) :: m in s
  }

  /** `hasNoDependencies` as a filter. */
  function ReadyTest(w: World, visited: set<NodeId>): NodeId -> bool
    requires WellLinked(w)
  {
    n => n in w.nodes && NoDependencies(w, visited, n)
  }

  /** The listed nodes with no dependencies while nothing is visited yet. */
  function Roots(w: World): (r: seq<NodeId>)
    requires WellLinked(w)
    ensures forall n :: n in r <==> n in w.graph && NoDependencies(w, {}, n)
  {
    Keep(w.graph, ReadyTest(w, {}))
  }

  /** `topologicallyOrderGraph`, processing at most `fuel` entries: the
      result (`None` when the fuel runs out) lists every node of the graph
      without connected inputs first, then appends each successor of each
      processed entry that is ready, so every node follows its producers
      and the list is closed under the walk. A successor need not be in the
      graph: nodes pruned earlier come back when an edge leads to them, and
      a successor reached by two edges of one node is appended twice. */
  method TopologicallyOrder(w: World, fuel: nat) returns (r: Option<seq<NodeId>>)
    requires WellLinked(w)
    ensures r.Some? ==> InNodes(w, r.value) && ProducersFirst(w, r.value)
    ensures r.Some? ==> Roots(w) <= r.value
    ensures r.Some? ==> AppendedWhenReady(w, r.value, |r.value|)
    ensures r.Some? && IncomingListed(w) ==> SuccessorsClosed(w, r.value)
  {
    var results := Roots(w);
    RootsFirst(w);
    var visited: set<NodeId> := {};
    var i := 0;
    while i < |results|
      invariant i <= |results| && i <= fuel
      invariant InNodes(w, results)
      invariant visited == Elements(results[..i])
      invariant Roots(w) <= results
      invariant ProducersFirst(w, results)
      invariant AppendedWhenReady(w, results, i)
      decreases fuel - i
    {
      if i == fuel {
        return None;
      }
      var item := results[i];
      PrefixElementsStep(results, i);
      visited := visited + {item};
      var before := results;
      results := AppendReadySuccessors(w, results, i, visited);
      ProcessedStep(w, before, results, i, visited);
      i := i + 1;
    }
    if IncomingListed(w) {
      ReadyClosure(w, results);
    }
    r := Some(results);
  }

  lemma PrefixElementsStep<T>(s: seq<T>, i: nat)
    requires i < |s|
    ensures Elements(s[..i + 1]) == Elements(s[..i]) + {s[i]}
  {
    assert s[..i + 1] == s[..i] + [s[i]];
  }

  /** Processing entry `i` keeps the roots in front and extends the walk's
      closure to it. */
  lemma ProcessedStep(w: World, before: seq<NodeId>, s: seq<NodeId>, i: nat, visited: set<NodeId>)
    requires WellLinked(w) && InNodes(w, before) && i < |before| && Roots(w) <= before
    requires AppendedWhenReady(w, before, i)
    requires visited == Elements(before[..i + 1])
    requires s == before + Keep(Successors(w, before[i]), ReadyTest(w, visited))
    requires InNodes(w, s)
    ensures Roots(w) <= s && AppendedWhenReady(w, s, i + 1)
    ensures visited == Elements(s[..i + 1])
  {
    assert s[..|before|] == before;
    assert s[..i + 1] == before[..i + 1] && s[i] == before[i];
    KeepsAppended(w, before, s, i);
  }

  /** The inner `for successorNode in ...` loop: appends, in edge order,
      each successor of entry `i` whose producers are all visited. */
  method AppendReadySuccessors(w: World, s: seq<NodeId>, i: nat, visited: set<NodeId>) returns (s': seq<NodeId>)
    requires WellLinked(w) && InNodes(w, s) && i < |s| && ProducersFirst(w, s)
    requires visited == Elements(s[..i + 1])
    ensures s' == s + Keep(Successors(w, s[i]), ReadyTest(w, visited))
    ensures InNodes(w, s') && ProducersFirst(w, s')
  {
    var succ := Successors(w, s[i]);
    var ready := ReadyTest(w, visited);
    s' := s;
    var j := 0;
    while j < |succ|
      invariant j <= |succ|
      invariant s' == s + Keep(succ[..j], ready)
      invariant InNodes(w, s') && ProducersFirst(w, s')
    {
      var m := succ[j];
      ReadySuccessorStep(w, s, s', i, visited, j);
      if ready(m) {
        s' := s' + [m];
      }
      j := j + 1;
    }
    assert succ[..j] == succ;
  }

  /** One turn of the inner loop keeps its invariant. */
  lemma ReadySuccessorStep(w: World, s: seq<NodeId>, s': seq<NodeId>, i: nat, visited: set<NodeId>, j: nat)
    requires WellLinked(w) && InNodes(w, s) && i < |s|
    requires visited == Elements(s[..i + 1])
    requires j < |Successors(w, s[i])|
    requires s' == s + Keep(Successors(w, s[i])[..j], ReadyTest(w, visited))
    requires InNodes(w, s') && ProducersFirst(w, s')
    ensures var m := Successors(w, s[i])[j];
      ReadyTest(w, visited)(m) ==>
        && s' + [m] == s + Keep(Successors(w, s[i])[..j + 1], ReadyTest(w, visited))
        && InNodes(w, s' + [m]) && ProducersFirst(w, s' + [m])
    ensures var m := Successors(w, s[i])[j];
      !ReadyTest(w, visited)(m) ==> s' == s + Keep(Successors(w, s[i])[..j + 1], ReadyTest(w, visited))
  {
    var succ := Successors(w, s[i]);
    var ready := ReadyTest(w, visited);
    var m := succ[j];
    KeepPrefixStep(s, s', succ, j, ready);
    if ready(m) {
      AppendReady(w, s, Keep(succ[..j], ready), i, m);
    } else {
      assert s' + [] == s';
    }
  }

  /** Filtering one more element of `succ` extends `s'` by it or by
      nothing. */
  lemma KeepPrefixStep(s: seq<NodeId>, s': seq<NodeId>, succ: seq<NodeId>, j: nat, f: NodeId -> bool)
    requires j < |succ| && s' == s + Keep(succ[..j], f)
    ensures s' + (if f(succ[j]) then [succ[j]] else []) == s + Keep(succ[..j + 1], f)
  {
    assert succ[..j + 1] == succ[..j] + [succ[j]];
    KeepSnoc(succ[..j], succ[j], f);
  }

  /** The roots have no connected inputs, so they trivially follow their
      producers. */
  lemma RootsFirst(w: World)
    requires WellLinked(w)
    ensures InNodes(w, Roots(w)) && ProducersFirst(w, Roots(w))
  {
    var s := Roots(w);
    forall k | 0 <= k < |s|
      ensures forall u | u in w.nodes[s[k]].inputs :: !Connected(w, u)
    {
      assert s[k] in s;
    }
  }

  /** Appending a node whose producers are among the first `i + 1` entries
      keeps every node after its producers. */
  lemma AppendReady(w: World, s: seq<NodeId>, rest: seq<NodeId>, i: nat, m: NodeId)
    requires WellLinked(w) && InNodes(w, s + rest) && i < |s| && m in w.nodes
    requires ProducersFirst(w, s + rest)
    requires NoDependencies(w, Elements(s[..i + 1]), m)
    ensures InNodes(w, s + rest + [m]) && ProducersFirst(w, s + rest + [m])
  {
    var t := s + rest;
    var t' := t + [m];
    forall k, u | 0 <= k < |t'| && u in w.nodes[t'[k]].inputs && Connected(w, u)
      ensures Producer(w, u) in t'[..k]
    {
      if k < |t| {
        assert t'[..k] == t[..k];
      } else {
        assert Producer(w, u) in s[..i + 1];
        assert s[..i + 1] == t'[..i + 1];
      }
    }
  }

  /** Processing entry `i` extends the walk's closure to it. */
  lemma KeepsAppended(w: World, before: seq<NodeId>, s: seq<NodeId>, i: nat)
    requires WellLinked(w) && InNodes(w, s) && i < |before| <= |s| && s[..|before|] == before
    requires InNodes(w, before) && AppendedWhenReady(w, before, i)
    requires forall m | m in Successors(w, s[i]) && NoDependencies(w, Elements(s[..i + 1]), m) :: m in s
    ensures AppendedWhenReady(w, s, i + 1)
  {
    forall j, m | 0 <= j < i + 1 && m in Successors(w, s[j]) && NoDependencies(w, Elements(s[..j + 1]), m)
      ensures m in s
    {
      assert s[j] == before[j];
      if j < i {
        assert s[..j + 1] == before[..j + 1];
        assert m in before;
      }
    }
  }

  /** When every incoming edge is listed at its output port, the walk's
      own closure gives the plain one: a successor whose producers all end
      up listed was appended once the last of them was processed. */
  lemma ReadyClosure(w: World, s: seq<NodeId>)
    requires WellLinked(w) && InNodes(w, s) && IncomingListed(w)
    requires AppendedWhenReady(w, s, |s|)
    ensures SuccessorsClosed(w, s)
  {
    forall k, m | 0 <= k < |s| && m in Successors(w, s[k]) && NoDependencies(w, Elements(s), m)
      ensures m in s
    {
      ReadyClosureAt(w, s, k, m);
    }
  }

  lemma ReadyClosureAt(w: World, s: seq<NodeId>, k: nat, m: NodeId)
    requires WellLinked(w) && InNodes(w, s) && IncomingListed(w)
    requires AppendedWhenReady(w, s, |s|)
    requires k < |s| && m in Successors(w, s[k]) && NoDependencies(w, Elements(s), m)
    ensures m in s
  {
    FeedersMeaning(w, m);
    var len := ShortestCover(s, Feeders(w, m));
    if len == 0 {
      assert Elements(s[..0]) <= Elements(s[..k + 1]);
      AppendedAt(w, s, k, m);
    } else {
      LastFeederAppends(w, s, len - 1, m);
    }
  }

  /** The walk appends `m` once the last of its feeders is visited. */
  lemma LastFeederAppends(w: World, s: seq<NodeId>, j: nat, m: NodeId)
    requires WellLinked(w) && InNodes(w, s) && IncomingListed(w)
    requires AppendedWhenReady(w, s, |s|)
    requires j < |s| && m in w.nodes && s[j] in Feeders(w, m) && Feeders(w, m) <= Elements(s[..j + 1])
    ensures m in s
  {
    FeedersMeaning(w, m);
    var u :| u in w.nodes[m].inputs && Connected(w, u) && Producer(w, u) == s[j];
    ListedEdgeLeadsBack(w, u, m);
    AppendedAt(w, s, j, m);
  }

  /** One instance of the walk's closure, in terms of feeders. */
  lemma AppendedAt(w: World, s: seq<NodeId>, j: nat, m: NodeId)
    requires WellLinked(w) && InNodes(w, s)
    requires AppendedWhenReady(w, s, |s|)
    requires j < |s| && m in Successors(w, s[j]) && Feeders(w, m) <= Elements(s[..j + 1])
    ensures m in s
  {
    FeedersMeaning(w, m);
    assert NoDependencies(w, Elements(s[..j + 1]), m);
  }

  /** The nodes feeding `m`'s connected inputs. */
  ghost function Feeders(w: World, m: NodeId): set<NodeId>
    requires WellLinked(w) && m in w.nodes
  {
    set u | u in w.nodes[m].inputs && Connected(w, u) :: Producer(w, u)
  }

  /** A node is ready exactly when all of its feeders are visited. */
  lemma FeedersMeaning(w: World, m: NodeId)
    requires WellLinked(w) && m in w.nodes
    ensures forall v: set<NodeId> :: NoDependencies(w, v, m) <==> Feeders(w, m) <= v
    ensures forall n :: n in Feeders(w, m) <==> exists u | u in w.nodes[m].inputs && Connected(w, u) :: Producer(w, u) == n
  {
  }

  /** A connected input of `m` makes `m` a successor of its producer. */
  lemma ListedEdgeLeadsBack(w: World, u: PortId, m: NodeId)
    requires WellLinked(w) && IncomingListed(w)
    requires m in w.nodes && u in w.nodes[m].inputs && Connected(w, u)
    ensures m in Successors(w, Producer(w, u))
  {
    var e := w.inputs[u].incoming.value;
    var o := e.output;
    assert e in w.outputs[o].outgoing;
    assert o in w.nodes[Producer(w, u)].outputs;
    assert e.input == u && w.inputs[u].node == Some(m);
  }
}
