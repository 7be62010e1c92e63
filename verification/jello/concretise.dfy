/** `concretiseTypesInGraph` (JelloCompilerFunctions.swift): builds a domain
    for every port of the graph's nodes, a same-type constraint per edge
    plus each node's own constraints, files the constraints under their
    ports, runs the solver and writes the chosen concrete type back into
    every port. */
module Concretise {
  import opened Results
  import opened Sequences
  import opened GraphTypes
  import opened Constraints
  import opened Solver
  import opened Graph
  import opened NodeTypes

  ghost predicate AllNodes(w: World, ns: seq<NodeId>) {
    forall n | n in ns :: n in w.nodes
  }

  /** The input ports of the listed nodes, node by node. */
  function InputPortsOf(w: World, ns: seq<NodeId>): (r: seq<PortId>)
    requires AllNodes(w, ns)
    ensures forall p :: p in r <==> exists n | n in ns :: p in w.nodes[n].inputs
  {
    if ns == [] then [] else w.nodes[ns[0]].inputs + InputPortsOf(w, ns[1..])
  }

  /** The output ports of the listed nodes, node by node. */
  function OutputPortsOf(w: World, ns: seq<NodeId>): (r: seq<PortId>)
    requires AllNodes(w, ns)
    ensures forall p :: p in r <==> exists n | n in ns :: p in w.nodes[n].outputs
  {
    if ns == [] then [] else w.nodes[ns[0]].outputs + OutputPortsOf(w, ns[1..])
  }

  /** The search order `ports`: node by node, its inputs then its outputs. */
  function PortsOf(w: World, ns: seq<NodeId>): (r: seq<PortId>)
    requires AllNodes(w, ns)
    ensures forall p :: p in r <==> exists n | n in ns :: p in w.nodes[n].inputs || p in w.nodes[n].outputs
  {
    if ns == [] then [] else w.nodes[ns[0]].inputs + w.nodes[ns[0]].outputs + PortsOf(w, ns[1..])
  }

  /** The declared type of a port of either direction. */
  function PortType(w: World, p: PortId): GraphType
    requires p in w.inputs || p in w.outputs
  {
    if p in w.inputs then w.inputs[p].dataType else w.outputs[p].dataType
  }

  /** The listed nodes' ports all exist. */
  lemma PortsExist(w: World, ns: seq<NodeId>)
    requires WellLinked(w) && AllNodes(w, ns)
    ensures forall p | p in InputPortsOf(w, ns) :: p in w.inputs
    ensures forall p | p in OutputPortsOf(w, ns) :: p in w.outputs
    ensures forall p | p in PortsOf(w, ns) :: p in w.inputs || p in w.outputs
  {
    InputPortsExist(w, ns);
    OutputPortsExist(w, ns);
  }

  lemma InputPortsExist(w: World, ns: seq<NodeId>)
    requires PortsPointBack(w) && AllNodes(w, ns)
    ensures forall p | p in InputPortsOf(w, ns) :: p in w.inputs
  {
  }

  lemma OutputPortsExist(w: World, ns: seq<NodeId>)
    requires PortsPointBack(w) && AllNodes(w, ns)
    ensures forall p | p in OutputPortsOf(w, ns) :: p in w.outputs
  {
  }

  /** `domains`: `getDomain` of each port's declared type. Input and output
      ports never share an id, so filling the inputs first and the outputs
      second gives the same map as filling them in one pass. */
  function DomainsOf(w: World, ns: seq<NodeId>): (dom: Domains)
    requires WellLinked(w) && AllNodes(w, ns)
    ensures DistinctDomains(dom)
    ensures forall p :: p in dom <==> p in PortsOf(w, ns)
    ensures forall p | p in dom :: dom[p] == GetDomain(PortType(w, p))
  {
    PortsExist(w, ns);
    var dom := map p | p in PortsOf(w, ns) :: GetDomain(PortType(w, p));
    forall p | p in dom
      ensures NoDuplicates(dom[p])
    {
      DomainHasNoDuplicates(PortType(w, p));
    }
    dom
  }

  // ---------------------------------------------------------------------
  // The constraints
  // ---------------------------------------------------------------------

  /** The same-type constraint of the edge into input port `u`; the two
      ends are distinct because input and output ids never clash. */
  function EdgeConstraint(w: World, u: PortId): (c: Constraint)
    requires WellLinked(w) && Connected(w, u)
    ensures c.SameTypes? && forall p :: p in c.ports <==> p == u || p == Source(w, u)
  {
    assert Source(w, u) in w.outputs;
    var ends: seq<PortId> := [u, Source(w, u)];
    assert NoDuplicates(ends);
    SameTypes(ends)
  }

  /** The connected input ports of the listed nodes, in port order. */
  function EdgeInputs(w: World, ns: seq<NodeId>): (r: seq<PortId>)
    requires AllNodes(w, ns)
    ensures forall u :: u in r <==> u in InputPortsOf(w, ns) && Connected(w, u)
  {
    Keep(InputPortsOf(w, ns), u => Connected(w, u))
  }

  /** One constraint per edge into a listed node, in port order. */
  function EdgeConstraints(w: World, ns: seq<NodeId>): (r: seq<Constraint>)
    requires WellLinked(w) && AllNodes(w, ns)
    ensures forall c :: c in r <==> exists u | u in EdgeInputs(w, ns) :: c == EdgeConstraint(w, u)
  {
    var us := EdgeInputs(w, ns);
    var r := seq(|us|, i requires 0 <= i < |us| => EdgeConstraint(w, us[i]));
    assert forall u | u in us :: EdgeConstraint(w, u) in r by {
      forall u | u in us
        ensures EdgeConstraint(w, u) in r
      {
        var i :| 0 <= i < |us| && us[i] == u;
        assert r[i] == EdgeConstraint(w, u);
      }
    }
    r
  }

  /** Every listed node's own constraints, node by node. */
  function NodeConstraintsOf(w: World, ns: seq<NodeId>): (r: seq<Constraint>)
    requires AllNodes(w, ns)
    ensures forall c :: c in r <==> exists n | n in ns :: c in NodeConstraints(w.nodes[n])
  {
    if ns == [] then [] else NodeConstraints(w.nodes[ns[0]]) + NodeConstraintsOf(w, ns[1..])
  }

  /** `constraints`: the edge constraints, then the node constraints. */
  function GraphConstraints(w: World, ns: seq<NodeId>): seq<Constraint>
    requires WellLinked(w) && AllNodes(w, ns)
  {
    EdgeConstraints(w, ns) + NodeConstraintsOf(w, ns)
  }

  /** Appends `c` to the list of each of `ports`. */
  function FileUnder(c: Constraint, ports: seq<PortId>, cmap: ConstraintMap): (r: ConstraintMap)
    requires NoDuplicates(ports)
    ensures forall p :: ConstraintsOf(r, p) == ConstraintsOf(cmap, p) + (if p in ports then [c] else [])
  {
    if ports == [] then cmap
    else
      NoDuplicatesTail(ports);
      FileUnder(c, ports[1..], cmap[ports[0] := ConstraintsOf(cmap, ports[0]) + [c]])
  }

  /** The constraints of `cs` that mention port `p`, in order. */
  function Mentioning(cs: seq<Constraint>, p: PortId): seq<Constraint> {
    Keep(cs, (c: Constraint) => p in c.ports)
  }

  lemma MentioningCons(cs: seq<Constraint>, p: PortId)
    requires cs != []
    ensures Mentioning(cs, p) == (if p in cs[0].ports then [cs[0]] else []) + Mentioning(cs[1..], p)
  {
  }

  /** `constraintsMapped`: each constraint appended, in order, to the list
      of every port it mentions. */
  function FileAll(cs: seq<Constraint>, cmap: ConstraintMap): ConstraintMap {
    if cs == [] then cmap
    else
      FileAll(cs[1..], FileUnder(cs[0], cs[0].ports, cmap))
  }

  /** Each port's list gains the constraints that mention it, in their
      order. */
  lemma {:induction false} FileAllFiles(cs: seq<Constraint>, cmap: ConstraintMap, p: PortId)
    ensures ConstraintsOf(FileAll(cs, cmap), p) == ConstraintsOf(cmap, p) + Mentioning(cs, p)
    decreases |cs|
  {
    if cs != [] {
      var cmap1 := FileUnder(cs[0], cs[0].ports, cmap);
      var b := if p in cs[0].ports then [cs[0]] else [];
      assert ConstraintsOf(cmap1, p) == ConstraintsOf(cmap, p) + b;
      FileAllFiles(cs[1..], cmap1, p);
      MentioningCons(cs, p);
      AppendAssociates(ConstraintsOf(cmap, p), b, Mentioning(cs[1..], p));
    }
  }

  lemma AppendAssociates<T>(a: seq<T>, b: seq<T>, c: seq<T>)
    ensures (a + b) + c == a + (b + c)
  {
  }

  lemma FileAllFilesEvery(cs: seq<Constraint>, cmap: ConstraintMap)
    ensures forall p :: ConstraintsOf(FileAll(cs, cmap), p) == ConstraintsOf(cmap, p) + Mentioning(cs, p)
  {
    forall p ensures ConstraintsOf(FileAll(cs, cmap), p) == ConstraintsOf(cmap, p) + Mentioning(cs, p) {
      FileAllFiles(cs, cmap, p);
    }
  }

  /** The constraint map of the listed nodes. */
  function ConstraintMapOf(w: World, ns: seq<NodeId>): (cmap: ConstraintMap)
    requires WellLinked(w) && AllNodes(w, ns)
    ensures forall p, c :: c in ConstraintsOf(cmap, p) <==> c in GraphConstraints(w, ns) && p in c.ports
    ensures forall p, c | c in ConstraintsOf(cmap, p) :: c in GraphConstraints(w, ns)
  {
    FileAllFilesEvery(GraphConstraints(w, ns), map[]);
    FileAll(GraphConstraints(w, ns), map[])
  }

  // ---------------------------------------------------------------------
  // concretiseTypesInGraph
  // ---------------------------------------------------------------------

  /** The outcome: the typed world, `couldNotConcretiseTypesError`, or a
      trap inside propagation. */
  datatype Concretised = Typed(w: World) | CouldNotConcretise | Trapped

  /** Sets `concreteDataType` of every listed port to its assignment
      (`nil` for a port the assignment leaves out). */
  function WriteBack(w: World, ins: seq<PortId>, outs: seq<PortId>, asg: Assignments): (w': World)
    ensures w'.nodes == w.nodes && w'.graph == w.graph && w'.output == w.output && w'.nextId == w.nextId
    ensures w'.inputs.Keys == w.inputs.Keys && w'.outputs.Keys == w.outputs.Keys
    ensures forall p | p in w.inputs ::
      w'.inputs[p] == w.inputs[p].(concrete := if p in ins then Lookup(asg, p) else w.inputs[p].concrete)
    ensures forall p | p in w.outputs ::
      w'.outputs[p] == w.outputs[p].(concrete := if p in outs then Lookup(asg, p) else w.outputs[p].concrete)
  {
    w.(inputs := map p | p in w.inputs :: if p in ins then w.inputs[p].(concrete := Lookup(asg, p)) else w.inputs[p],
       outputs := map p | p in w.outputs :: if p in outs then w.outputs[p].(concrete := Lookup(asg, p)) else w.outputs[p])
  }

  /** `concretiseTypesInGraph` over the graph's node list. */
  function ConcretiseTypes(w: World): (r: Concretised)
    requires WellLinked(w)
  {
    var ns := w.graph;
    var ports := PortsOf(w, ns);
    var dom := DomainsOf(w, ns);
    match Solve(ports, ConstraintMapOf(w, ns), dom)
    case NoSolution => CouldNotConcretise
    case Crashed => Trapped
    case Solution(asg) => Typed(WriteBack(w, InputPortsOf(w, ns), OutputPortsOf(w, ns), asg))
  }

  // ---------------------------------------------------------------------
  // What a successful concretisation means
  // ---------------------------------------------------------------------

  /** Every connected input of a listed node is fed by a listed node, as
      after `topologicallyOrderGraph`. */
  ghost predicate ProducersListed(w: World, ns: seq<NodeId>)
    requires WellLinked(w) && AllNodes(w, ns)
  {
    forall n, u | n in ns && u in w.nodes[n].inputs && Connected(w, u) :: Producer(w, u) in ns
  }

  /** `t` types every port of the listed nodes from its domain, gives both
      ends of every edge into them the same type, and satisfies their nodes'
      constraints. */
  ghost predicate GraphTyping(w: World, ns: seq<NodeId>, t: Assignments)
    requires WellLinked(w) && AllNodes(w, ns)
  {
    && (forall p | p in PortsOf(w, ns) :: p in t && t[p] in GetDomain(PortType(w, p)))
    && (forall u | u in EdgeInputs(w, ns) :: Satisfies(EdgeConstraint(w, u), t))
    && (forall n, c | n in ns && c in NodeConstraints(w.nodes[n]) :: Satisfies(c, t))
  }

  /** The edge and node constraints are exactly the graph's constraints. */
  lemma GraphConstraintsMeaning(w: World, ns: seq<NodeId>)
    requires WellLinked(w) && AllNodes(w, ns)
    ensures forall c :: c in GraphConstraints(w, ns) <==>
      (exists u | u in EdgeInputs(w, ns) :: c == EdgeConstraint(w, u)) ||
      (exists n | n in ns :: c in NodeConstraints(w.nodes[n]))
  {
  }

  /** Under closure the solver's assumptions hold for the graph. */
  lemma SettingHolds(w: World, ns: seq<NodeId>)
    requires WellLinked(w) && AllNodes(w, ns) && ProducersListed(w, ns)
    ensures Setting(PortsOf(w, ns), ConstraintMapOf(w, ns), DomainsOf(w, ns))
  {
    ConstraintMapCovers(w, ns);
    ConstraintMapWellFiled(w, ns);
    DomainsCoverPorts(w, ns);
  }

  lemma ConstraintMapCovers(w: World, ns: seq<NodeId>)
    requires WellLinked(w) && AllNodes(w, ns) && ProducersListed(w, ns)
    ensures OnlySameTypes(ConstraintMapOf(w, ns)) && Covers(ConstraintMapOf(w, ns), PortsOf(w, ns))
  {
    GraphConstraintsListed(w, ns);
    CoversWhenFiledFrom(ConstraintMapOf(w, ns), PortsOf(w, ns), GraphConstraints(w, ns));
  }

  lemma GraphConstraintsListed(w: World, ns: seq<NodeId>)
    requires WellLinked(w) && AllNodes(w, ns) && ProducersListed(w, ns)
    ensures forall c | c in GraphConstraints(w, ns) :: c.SameTypes? && forall q | q in c.ports :: q in PortsOf(w, ns)
  {
    forall c | c in GraphConstraints(w, ns)
      ensures c.SameTypes? && forall q | q in c.ports :: q in PortsOf(w, ns)
    {
      ConstraintPortsListed(w, ns, c);
    }
  }

  /** A map filed from same-type constraints over `keys` covers `keys`. */
  lemma CoversWhenFiledFrom(cmap: ConstraintMap, keys: seq<PortId>, cs: seq<Constraint>)
    requires forall p, c | c in ConstraintsOf(cmap, p) :: c in cs
    requires forall c | c in cs :: c.SameTypes? && forall q | q in c.ports :: q in keys
    ensures OnlySameTypes(cmap) && Covers(cmap, keys)
  {
  }

  lemma DomainsCoverPorts(w: World, ns: seq<NodeId>)
    requires WellLinked(w) && AllNodes(w, ns)
    ensures var dom := DomainsOf(w, ns);
      DistinctDomains(dom) && (forall p | p in dom :: p in PortsOf(w, ns)) && (forall p | p in PortsOf(w, ns) :: p in dom)
  {
  }

  lemma ConstraintMapWellFiled(w: World, ns: seq<NodeId>)
    requires WellLinked(w) && AllNodes(w, ns)
    ensures WellFiled(ConstraintMapOf(w, ns))
  {
  }

  /** Each graph constraint is a same-type constraint over listed ports. */
  lemma ConstraintPortsListed(w: World, ns: seq<NodeId>, c: Constraint)
    requires WellLinked(w) && AllNodes(w, ns) && ProducersListed(w, ns)
    requires c in GraphConstraints(w, ns)
    ensures c.SameTypes? && forall q | q in c.ports :: q in PortsOf(w, ns)
  {
    GraphConstraintsMeaning(w, ns);
    if u :| u in EdgeInputs(w, ns) && c == EdgeConstraint(w, u) {
      EdgePortsListed(w, ns, u);
    } else {
      var n :| n in ns && c in NodeConstraints(w.nodes[n]);
      NodeConstraintsMeaning(w.nodes[n]);
    }
  }

  /** Both ends of an edge into a listed node are ports of listed nodes. */
  lemma EdgePortsListed(w: World, ns: seq<NodeId>, u: PortId)
    requires WellLinked(w) && AllNodes(w, ns) && ProducersListed(w, ns)
    requires u in EdgeInputs(w, ns)
    ensures u in PortsOf(w, ns) && Source(w, u) in PortsOf(w, ns)
  {
    var n :| n in ns && u in w.nodes[n].inputs;
    var m := Producer(w, u);
    assert Source(w, u) in w.nodes[m].outputs;
  }

  /** The solver's notion of a solution is a typing of the graph. */
  lemma SolvesIsTyping(w: World, ns: seq<NodeId>, t: Assignments)
    requires WellLinked(w) && AllNodes(w, ns)
    ensures Solves(ConstraintMapOf(w, ns), PortsOf(w, ns), DomainsOf(w, ns), t) <==> GraphTyping(w, ns, t)
  {
    var dom := DomainsOf(w, ns);
    FiledSatisfied(w, ns, t);
    TypingByConstraints(w, ns, t);
    PortsExist(w, ns);
    forall p | p in PortsOf(w, ns)
      ensures DomainOf(dom, p) == GetDomain(PortType(w, p))
    {
      assert p in dom;
    }
  }

  /** Satisfying every filed constraint is satisfying every constraint. */
  lemma FiledSatisfied(w: World, ns: seq<NodeId>, t: Assignments)
    requires WellLinked(w) && AllNodes(w, ns)
    ensures (forall p, c | c in ConstraintsOf(ConstraintMapOf(w, ns), p) :: Satisfies(c, t)) <==>
      (forall c | c in GraphConstraints(w, ns) :: Satisfies(c, t))
  {
    var cmap := ConstraintMapOf(w, ns);
    if forall p, c | c in ConstraintsOf(cmap, p) :: Satisfies(c, t) {
      forall c | c in GraphConstraints(w, ns)
        ensures Satisfies(c, t)
      {
        if c.ports != [] {
          assert c in ConstraintsOf(cmap, c.ports[0]);
        }
      }
    }
  }

  /** The typing's edge and node parts together are all the constraints. */
  lemma TypingByConstraints(w: World, ns: seq<NodeId>, t: Assignments)
    requires WellLinked(w) && AllNodes(w, ns)
    ensures GraphTyping(w, ns, t) <==>
      && (forall p | p in PortsOf(w, ns) :: p in t && t[p] in GetDomain(PortType(w, p)))
      && (forall c | c in GraphConstraints(w, ns) :: Satisfies(c, t))
  {
    GraphConstraintsMeaning(w, ns);
  }

  /** The concrete type recorded at a port of either direction. */
  function ConcreteOf(w: World, p: PortId): Option<ConcreteType>
    requires p in w.inputs || p in w.outputs
  {
    if p in w.inputs then w.inputs[p].concrete else w.outputs[p].concrete
  }

  /** The types recorded at `ports`, as an assignment. */
  function Recorded(w: World, ports: seq<PortId>): (t: Assignments)
    ensures forall p :: p in t <==> p in ports && (p in w.inputs || p in w.outputs) && ConcreteOf(w, p).Some?
    ensures forall p | p in t :: Some(t[p]) == ConcreteOf(w, p)
  {
    map p | p in ports && (p in w.inputs || p in w.outputs) && ConcreteOf(w, p).Some? :: ConcreteOf(w, p).value
  }

  /** `w'` differs from `w` at most in the concrete types of ports, and
      only at the ports in `ports`. */
  ghost predicate OnlyConcreteChanged(w: World, w': World, ports: seq<PortId>) {
    && w'.nodes == w.nodes && w'.graph == w.graph && w'.output == w.output && w'.nextId == w.nextId
    && w'.inputs.Keys == w.inputs.Keys && w'.outputs.Keys == w.outputs.Keys
    && (forall p | p in w.inputs :: w'.inputs[p] == w.inputs[p].(concrete := w'.inputs[p].concrete))
    && (forall p | p in w.outputs :: w'.outputs[p] == w.outputs[p].(concrete := w'.outputs[p].concrete))
    && (forall p | p in w.inputs && p !in ports :: w'.inputs[p] == w.inputs[p])
    && (forall p | p in w.outputs && p !in ports :: w'.outputs[p] == w.outputs[p])
  }

  /** Only the ports' own types matter to a typing. */
  lemma TypingRestricts(w: World, ns: seq<NodeId>, t: Assignments, t': Assignments)
    requires WellLinked(w) && AllNodes(w, ns) && ProducersListed(w, ns)
    requires GraphTyping(w, ns, t)
    requires forall p | p in PortsOf(w, ns) :: p in t' && t'[p] == t[p]
    ensures GraphTyping(w, ns, t')
  {
    TypingByConstraints(w, ns, t);
    TypingByConstraints(w, ns, t');
    forall c | c in GraphConstraints(w, ns)
      ensures Satisfies(c, t')
    {
      ConstraintPortsListed(w, ns, c);
    }
  }

  /** The write-back records the assignment at every port of the graph. */
  lemma WriteBackRecords(w: World, ns: seq<NodeId>, asg: Assignments)
    requires WellLinked(w) && AllNodes(w, ns)
    requires forall p | p in PortsOf(w, ns) :: p in asg
    ensures var w' := WriteBack(w, InputPortsOf(w, ns), OutputPortsOf(w, ns), asg);
      && OnlyConcreteChanged(w, w', PortsOf(w, ns))
      && forall p | p in PortsOf(w, ns) :: p in Recorded(w', PortsOf(w, ns)) && Recorded(w', PortsOf(w, ns))[p] == asg[p]
  {
    WriteBackFrame(w, InputPortsOf(w, ns), OutputPortsOf(w, ns), PortsOf(w, ns), asg);
    WriteBackAt(w, ns, asg);
  }

  /** Writing back at ports among `ports` changes only their types. */
  lemma WriteBackFrame(w: World, ins: seq<PortId>, outs: seq<PortId>, ports: seq<PortId>, asg: Assignments)
    requires forall p | p in ins :: p in ports
    requires forall p | p in outs :: p in ports
    ensures OnlyConcreteChanged(w, WriteBack(w, ins, outs, asg), ports)
  {
  }

  /** After the write-back every port of the graph holds its assigned type. */
  lemma WriteBackAt(w: World, ns: seq<NodeId>, asg: Assignments)
    requires WellLinked(w) && AllNodes(w, ns)
    requires forall p | p in PortsOf(w, ns) :: p in asg
    ensures var w' := WriteBack(w, InputPortsOf(w, ns), OutputPortsOf(w, ns), asg);
      forall p | p in PortsOf(w, ns) :: p in Recorded(w', PortsOf(w, ns)) && Recorded(w', PortsOf(w, ns))[p] == asg[p]
  {
    var w' := WriteBack(w, InputPortsOf(w, ns), OutputPortsOf(w, ns), asg);
    PortsExist(w, ns);
    forall p | p in PortsOf(w, ns)
      ensures ConcreteOf(w', p) == Some(asg[p])
    {
      if p in w.inputs {
        assert p in InputPortsOf(w, ns);
      } else {
        assert p in OutputPortsOf(w, ns);
      }
    }
  }

  /** Soundness of `concretiseTypesInGraph` on a graph closed under
      producers: it never traps, and when it succeeds the types it records
      are a typing of the graph (each port typed from its domain, both ends
      of every edge alike, every node constraint met), with nothing else in
      the world changed. */
  lemma ConcretiseSound(w: World)
    requires WellLinked(w) && ProducersListed(w, w.graph)
    ensures ConcretiseTypes(w) != Trapped
    ensures var r := ConcretiseTypes(w);
      r.Typed? ==>
        && OnlyConcreteChanged(w, r.w, PortsOf(w, w.graph))
        && GraphTyping(w, w.graph, Recorded(r.w, PortsOf(w, w.graph)))
  {
    var ns := w.graph;
    var ports, cmap, dom := PortsOf(w, ns), ConstraintMapOf(w, ns), DomainsOf(w, ns);
    SettingHolds(w, ns);
    SolveSound(ports, cmap, dom);
    var s := Solve(ports, cmap, dom);
    if s.Solution? {
      SolvesIsTyping(w, ns, s.asg);
      WriteBackRecords(w, ns, s.asg);
      var w' := WriteBack(w, InputPortsOf(w, ns), OutputPortsOf(w, ns), s.asg);
      TypingRestricts(w, ns, s.asg, Recorded(w', ports));
    }
  }

  /** Completeness: on a graph closed under producers,
      `concretiseTypesInGraph` throws exactly when the graph has no typing. */
  lemma ConcretiseComplete(w: World)
    requires WellLinked(w) && ProducersListed(w, w.graph)
    ensures ConcretiseTypes(w) == CouldNotConcretise <==> forall t :: !GraphTyping(w, w.graph, t)
  {
    var ns := w.graph;
    var ports, cmap, dom := PortsOf(w, ns), ConstraintMapOf(w, ns), DomainsOf(w, ns);
    SettingHolds(w, ns);
    SolveSound(ports, cmap, dom);
    if t :| GraphTyping(w, ns, t) {
      SolvesIsTyping(w, ns, t);
      SolveComplete(ports, cmap, dom, t);
    }
    var s := Solve(ports, cmap, dom);
    if s.Solution? {
      SolvesIsTyping(w, ns, s.asg);
    }
  }
}
