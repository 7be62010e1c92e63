/** `prepareInput` (JelloCompilerFunctions.swift): the front end's passes
    in order. Branches are labelled, untagged nodes pruned, the graph put
    in dependency order, its port types concretised and finally split into
    branch sub-lists. */
module Prepare {
  import opened Results
  import opened Sequences
  import opened Graph
  import opened Labels
  import opened Ordering
  import opened Concretise
  import opened Decompose

  /** How preparing can end without a prepared graph. `MissingBranchIdTrap`
      and `ConcretiseTrap` are force-unwrap traps of the Swift code;
      `CouldNotConcretiseTypes` is the error it throws; the two fuel
      outcomes stand for the passes looping forever. */
  datatype PrepareError =
    | MissingBranchIdTrap
    | LabelOutOfFuel
    | OrderOutOfFuel
    | CouldNotConcretiseTypes
    | ConcretiseTrap

  /** Replacing the node list by existing nodes keeps every reference
      resolving, and a dependency order of the new list stays one. */
  lemma NewListKeepsLinks(w: World, s: seq<NodeId>)
    requires WellLinked(w) && InNodes(w, s) && ProducersFirst(w, s)
    ensures WellLinked(w.(graph := s)) && InNodes(w.(graph := s), s) && ProducersFirst(w.(graph := s), s)
  {
    var w' := w.(graph := s);
    assert PortsPointBack(w') && PortsHaveNodes(w') && EdgesResolve(w');
    forall k, u | 0 <= k < |s| && u in w'.nodes[s[k]].inputs && Connected(w', u)
      ensures Producer(w', u) in s[..k]
    {
      assert Producer(w', u) == Producer(w, u);
    }
  }

  /** A dependency order lists the producers of every listed node, which
      is what the concretiser needs to constrain every edge. */
  lemma OrderListsProducers(w: World, s: seq<NodeId>)
    requires WellLinked(w) && InNodes(w, s) && ProducersFirst(w, s)
    ensures AllNodes(w, s) && ProducersListed(w, s)
  {
    forall n, u | n in s && u in w.nodes[n].inputs && Connected(w, u)
      ensures Producer(w, u) in s
    {
      var k :| 0 <= k < |s| && s[k] == n;
      assert Producer(w, u) in s[..k];
    }
  }

  /** The labelled world keeps every reference resolving. */
  lemma LabelledKeepsLinks(w: World, fuel: nat)
    requires WellLinked(w) && LabelBranches(w, fuel).Labelled?
    ensures WellLinked(LabelBranches(w, fuel).w)
  {
    var start := StartVisits(w).value;
    var tags := LabelLoop(w, InitialTags(w), start, fuel).value;
    WithTagsKeepsLinks(w, tags);
  }

  /** What the concretiser does on a graph in dependency order. */
  lemma ConcretiseOrdered(w: World)
    requires WellLinked(w) && InNodes(w, w.graph) && ProducersFirst(w, w.graph)
    ensures AllNodes(w, w.graph)
    ensures ConcretiseTypes(w) != Trapped
    ensures ConcretiseTypes(w) == CouldNotConcretise <==> forall t :: !GraphTyping(w, w.graph, t)
    ensures var typed := ConcretiseTypes(w);
      typed.Typed? ==>
        && OnlyConcreteChanged(w, typed.w, PortsOf(w, w.graph))
        && GraphTyping(w, w.graph, Recorded(typed.w, PortsOf(w, w.graph)))
  {
    OrderListsProducers(w, w.graph);
    ConcretiseSound(w);
    ConcretiseComplete(w);
  }

  /** What the passes of `prepareInput` promise, with `split` the last
      step applied to the typed world. `ordered` is the world handed to the
      concretiser (labelled, pruned and in dependency order). The passes
      trap exactly when the output node has a connected input without a
      branch id, the concretiser never traps, it throws exactly when the
      ordered graph has no typing, and on success the result is `split` of
      a typing of the ordered graph. */
  ghost predicate PassesEndIn(w: World, r: Result<World, PrepareError>, ordered: World, split: World -> World)
    requires WellLinked(w)
  {
    && (r == Err(MissingBranchIdTrap) <==>
        exists u | u in w.nodes[w.output].inputs :: Connected(w, u) && w.inputs[u].newBranchId.None?)
    && r != Err(ConcretiseTrap)
    && ((r.Ok? || r == Err(CouldNotConcretiseTypes)) ==>
        && WellLinked(ordered) && InNodes(ordered, ordered.graph) && ProducersFirst(ordered, ordered.graph)
        && ordered.inputs == w.inputs && ordered.outputs == w.outputs && ordered.nodes.Keys == w.nodes.Keys)
    && (r == Err(CouldNotConcretiseTypes) ==>
        && WellLinked(ordered) && AllNodes(ordered, ordered.graph)
        && forall t :: !GraphTyping(ordered, ordered.graph, t))
    && (r.Ok? ==>
        && WellLinked(ordered) && AllNodes(ordered, ordered.graph)
        && var typed := ConcretiseTypes(ordered);
        && typed.Typed?
        && OnlyConcreteChanged(ordered, typed.w, PortsOf(ordered, ordered.graph))
        && GraphTyping(ordered, ordered.graph, Recorded(typed.w, PortsOf(ordered, ordered.graph)))
        && r.value == split(typed.w))
  }

  /** The passes of `prepareInput` up to and including concretisation,
      with `fuel` bounding the labelling queue and the ordering walk; on
      success `r` holds the typed world. */
  method TypeGraph(w: World, fuel: nat) returns (r: Result<World, PrepareError>, ordered: World)
    requires WellLinked(w)
    ensures PassesEndIn(w, r, ordered, (x: World) => x)
  {
    ordered := w;
    var labelled := LabelBranches(w, fuel);
    if labelled == MissingBranchId {
      return Err(MissingBranchIdTrap), ordered;
    }
    if labelled == OutOfFuel {
      return Err(LabelOutOfFuel), ordered;
    }
    LabelledKeepsLinks(w, fuel);
    var pruned := Prune(labelled.w);
    PruneKeepsLinks(labelled.w);
    var order := TopologicallyOrder(pruned, fuel);
    if order.None? {
      return Err(OrderOutOfFuel), ordered;
    }
    ordered := pruned.(graph := order.value);
    NewListKeepsLinks(pruned, order.value);
    ConcretiseOrdered(ordered);
    match ConcretiseTypes(ordered)
    case CouldNotConcretise =>
      r := Err(CouldNotConcretiseTypes);
    case Trapped =>
      r := Err(ConcretiseTrap);
    case Typed(typed) =>
      r := Ok(typed);
  }

  /** `prepareInput` as written: the typed world goes through
      `decomposeGraph` as written. The nodes left in the graph list are
      those in no single branch of a listed branch node, and when the
      dependency order names no node twice the result is the corrected
      decomposition, with every branch holding exactly its nodes. */
  method PrepareInput(w: World, fuel: nat) returns (r: Result<World, PrepareError>, ordered: World)
    requires WellLinked(w)
    ensures PassesEndIn(w, r, ordered, DecomposeGraphAsWritten)
    ensures r.Ok? ==>
      var typed := ConcretiseTypes(ordered).w;
      && r.value.graph == Keep(ordered.graph, Stays(typed))
      && (NoDuplicates(ordered.graph) ==> r.value == DecomposeGraph(typed))
  {
    r, ordered := TypeGraph(w, fuel);
    if r.Ok? {
      var typed := r.value;
      DecomposeGraphRemaining(typed);
      if NoDuplicates(ordered.graph) {
        AsWrittenWithoutRepeats(typed);
      }
      r := Ok(DecomposeGraphAsWritten(typed));
    }
  }

  /** `prepareInput` with the corrected decomposition, which splits each
      listed branch node once however often the dependency order lists it. */
  method PrepareInputCorrected(w: World, fuel: nat) returns (r: Result<World, PrepareError>, ordered: World)
    requires WellLinked(w)
    ensures PassesEndIn(w, r, ordered, DecomposeGraph)
    ensures r.Ok? ==> r.value.graph == Keep(ordered.graph, Stays(ConcretiseTypes(ordered).w))
  {
    r, ordered := TypeGraph(w, fuel);
    if r.Ok? {
      var typed := r.value;
      DecomposeGraphRemaining(typed);
      r := Ok(DecomposeGraph(typed));
    }
  }
}
