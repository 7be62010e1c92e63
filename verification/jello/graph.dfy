/** The compiler's graph: nodes, their input and output ports, and the
    edges between ports, all addressed by id. An input port refers to the
    edge feeding it, an output port to the edges leaving it, and each port
    to the node that owns it; the compiler input names the output node and
    the node list of the graph. */
module Graph {
  import opened Results
  import opened Sequences
  import opened GraphTypes
  import opened Constraints

  type NodeId = nat

  type BranchId = nat

  /** A SPIR-V result id, handed out by the `#id` counter. */
  type SpirvId = nat

  /** `CompilerEdge`: from an output port to an input port. */
  datatype Edge = Edge(input: PortId, output: PortId)

  /** `InputCompilerPort`. `newBranchId` starts a new branch upstream of the
      port; `concrete` is the type the concretiser settles on. */
  datatype InputPort = InputPort(
    node: Option<NodeId>,
    dataType: GraphType,
    incoming: Option<Edge>,
    newBranchId: Option<BranchId>,
    concrete: Option<ConcreteType>)

  /** `OutputCompilerPort`, with the SPIR-V id reserved for its value. */
  datatype OutputPort = OutputPort(
    node: Option<NodeId>,
    dataType: GraphType,
    outgoing: seq<Edge>,
    reserved: Option<SpirvId>,
    concrete: Option<ConcreteType>)

  /** The value of a constant node; only its variant matters here. */
  datatype ConstantValue =
    | FloatValue(x: real)
    | Float2Value(x: real, y: real)
    | Float3Value(x: real, y: real, z: real)
    | Float4Value(x: real, y: real, z: real, w: real)
    | IntValue(i: int)
    | BoolValue(b: bool)

  datatype ArithmeticOp = Add | Subtract | Multiply | Divide

  /** The node classes of the compiler; `Plain` stands for a node with no
      constraints and no branches, such as the generic node of the graph
      tests. */
  datatype NodeKind =
    | IfElse(trueBranch: BranchId, falseBranch: BranchId)
    | Constant(value: ConstantValue)
    | PreviewOutput
    | Arithmetic(op: ArithmeticOp)
    | Plain

  /** A node: its ports in order, its branch tags, and (for branch nodes)
      the node lists moved into each branch. */
  datatype Node = Node(
    kind: NodeKind,
    inputs: seq<PortId>,
    outputs: seq<PortId>,
    tags: set<BranchId>,
    subNodes: map<BranchId, seq<NodeId>>)

  /** The compiler input: every node and port, the graph's node list, the
      output node, and the next free SPIR-V id. */
  datatype World = World(
    nodes: map<NodeId, Node>,
    inputs: map<PortId, InputPort>,
    outputs: map<PortId, OutputPort>,
    graph: seq<NodeId>,
    output: NodeId,
    nextId: SpirvId)

  /** Every reference resolves: each node's ports exist and point back to it,
      each edge joins existing ports whose nodes exist, and the output node
      and the listed nodes exist. */
  ghost predicate WellLinked(w: World) {
    && w.output in w.nodes
    && (forall n | n in w.graph :: n in w.nodes)
    && PortsPointBack(w)
    && PortsHaveNodes(w)
    && EdgesResolve(w)
    && w.inputs.Keys !! w.outputs.Keys
  }

  /** Each node's ports exist and name the node as their owner. */
  ghost predicate PortsPointBack(w: World) {
    && (forall n, u | n in w.nodes && u in w.nodes[n].inputs :: u in w.inputs && w.inputs[u].node == Some(n))
    && (forall n, o | n in w.nodes && o in w.nodes[n].outputs :: o in w.outputs && w.outputs[o].node == Some(n))
  }

  /** Each port's owner exists and lists the port. */
  ghost predicate PortsHaveNodes(w: World) {
    && (forall u | u in w.inputs ::
          w.inputs[u].node.Some? && w.inputs[u].node.value in w.nodes && u in w.nodes[w.inputs[u].node.value].inputs)
    && (forall o | o in w.outputs ::
          w.outputs[o].node.Some? && w.outputs[o].node.value in w.nodes && o in w.nodes[w.outputs[o].node.value].outputs)
  }

  /** Each edge is listed at both of its ports, which exist. */
  ghost predicate EdgesResolve(w: World) {
    && (forall u | u in w.inputs && w.inputs[u].incoming.Some? ::
          w.inputs[u].incoming.value.input == u && w.inputs[u].incoming.value.output in w.outputs)
    && (forall o, e | o in w.outputs && e in w.outputs[o].outgoing :: e.output == o && e.input in w.inputs)
  }

  /** Each input port's incoming edge is also listed among the outgoing
      edges of the output port it starts at. (The converse can fail: an
      edge replaced at its input port stays listed at its output port.) */
  ghost predicate IncomingListed(w: World) {
    forall u | u in w.inputs && w.inputs[u].incoming.Some? && w.inputs[u].incoming.value.output in w.outputs ::
      w.inputs[u].incoming.value in w.outputs[w.inputs[u].incoming.value.output].outgoing
  }

  predicate Connected(w: World, u: PortId) {
    u in w.inputs && w.inputs[u].incoming.Some?
  }

  /** The output port feeding a connected input port. */
  function Source(w: World, u: PortId): PortId
    requires Connected(w, u)
  {
    w.inputs[u].incoming.value.output
  }

  /** Each connected input port's edge starts at an output port whose
      owner exists: what finding a port's producer needs, and a consequence
      of `WellLinked`. */
  ghost predicate Feeds(w: World) {
    forall u | u in w.inputs && w.inputs[u].incoming.Some? ::
      && w.inputs[u].incoming.value.output in w.outputs
      && w.outputs[w.inputs[u].incoming.value.output].node.Some?
      && w.outputs[w.inputs[u].incoming.value.output].node.value in w.nodes
  }

  /** The node whose output feeds input port `u`. */
  function Producer(w: World, u: PortId): (n: NodeId)
    requires Feeds(w) && Connected(w, u)
    ensures n in w.nodes
  {
    w.outputs[w.inputs[u].incoming.value.output].node.value
  }

  /** The connected input ports of node `n`, in port order. */
  function ConnectedInputs(w: World, n: NodeId): (r: seq<PortId>)
    requires n in w.nodes
    ensures forall u :: u in r <==> u in w.nodes[n].inputs && Connected(w, u)
  {
    Keep(w.nodes[n].inputs, u => Connected(w, u))
  }

  /** The elements of `s` that satisfy `f`, in order (Swift's `filter`). */
  function Keep<T(!new)>(s: seq<T>, f: T -> bool): (r: seq<T>)
    ensures forall x :: x in r <==> x in s && f(x)
    ensures |r| <= |s|
  {
    if s == [] then [] else (if f(s[0]) then [s[0]] else []) + Keep(s[1..], f)
  }

  /** Filtering keeps the elements in their order. */
  lemma {:induction false} KeepSubsequence<T(!new)>(s: seq<T>, f: T -> bool)
    ensures IsSubsequence(Keep(s, f), s)
  {
    if s != [] {
      KeepSubsequence(s[1..], f);
      if f(s[0]) {
        assert Keep(s, f) == [s[0]] + Keep(s[1..], f);
        assert ([s[0]] + Keep(s[1..], f))[1..] == Keep(s[1..], f);
      } else {
        assert Keep(s, f) == Keep(s[1..], f);
        SubsequenceSkip(Keep(s[1..], f), s);
      }
    }
  }

  /** Filtering a sequence without repeats gives one without repeats. */
  lemma {:induction false} KeepDistinct<T(!new)>(s: seq<T>, f: T -> bool)
    requires NoDuplicates(s)
    ensures NoDuplicates(Keep(s, f))
  {
    if s != [] {
      NoDuplicatesTail(s);
      KeepDistinct(s[1..], f);
      if f(s[0]) {
        NoDuplicatesCons(s[0], Keep(s[1..], f));
      }
    }
  }

  /** Filtering a sequence with one more element at the end. */
  lemma {:induction false} KeepSnoc<T(!new)>(s: seq<T>, x: T, f: T -> bool)
    ensures Keep(s + [x], f) == Keep(s, f) + (if f(x) then [x] else [])
  {
    if s != [] {
      KeepSnoc(s[1..], x, f);
      assert (s + [x])[1..] == s[1..] + [x];
    } else {
      assert Keep([x], f) == (if f(x) then [x] else []) + Keep([], f);
    }
  }

  /** Filtering twice with the same test filters once. */
  lemma {:induction false} KeepIdempotent<T(!new)>(s: seq<T>, f: T -> bool)
    ensures Keep(Keep(s, f), f) == Keep(s, f)
  {
    if s != [] {
      var rest := Keep(s[1..], f);
      KeepIdempotent(s[1..], f);
      if f(s[0]) {
        var k := [s[0]] + rest;
        assert Keep(s, f) == k;
        assert k[1..] == rest;
        assert Keep(k, f) == [s[0]] + Keep(rest, f);
      } else {
        assert Keep(s, f) == rest;
      }
    }
  }

  /** Filters that agree on the elements keep the same elements. */
  lemma {:induction false} KeepAgrees<T(!new)>(s: seq<T>, f: T -> bool, g: T -> bool)
    requires forall x | x in s :: f(x) == g(x)
    ensures Keep(s, f) == Keep(s, g)
  {
    if s != [] {
      KeepAgrees(s[1..], f, g);
    }
  }

  /** A filter that passes every element keeps the whole sequence. */
  lemma {:induction false} KeepAll<T(!new)>(s: seq<T>, f: T -> bool)
    requires forall x | x in s :: f(x)
    ensures Keep(s, f) == s
  {
    if s != [] {
      KeepAll(s[1..], f);
    }
  }

  /** A filter that passes no element keeps nothing. */
  lemma {:induction false} KeepNone<T(!new)>(s: seq<T>, f: T -> bool)
    requires forall x | x in s :: !f(x)
    ensures Keep(s, f) == []
  {
    if s != [] {
      KeepNone(s[1..], f);
    }
  }

  /** Filtering distributes over concatenation. */
  lemma {:induction false} KeepConcat<T(!new)>(a: seq<T>, b: seq<T>, f: T -> bool)
    ensures Keep(a + b, f) == Keep(a, f) + Keep(b, f)
  {
    if a == [] {
      assert a + b == b;
    } else {
      var head := if f(a[0]) then [a[0]] else [];
      KeepConcat(a[1..], b, f);
      assert (a + b)[0] == a[0];
      assert (a + b)[1..] == a[1..] + b;
      assert Keep(a + b, f) == head + Keep(a[1..] + b, f);
      assert Keep(a, f) == head + Keep(a[1..], f);
    }
  }

  /** Two filters in a row are one filter by their conjunction. */
  lemma {:induction false} KeepKeep<T(!new)>(s: seq<T>, f: T -> bool, g: T -> bool, h: T -> bool)
    requires forall x | x in s :: h(x) == (f(x) && g(x))
    ensures Keep(Keep(s, f), g) == Keep(s, h)
  {
    if s != [] {
      KeepKeep(s[1..], f, g, h);
      var head := if f(s[0]) then [s[0]] else [];
      assert Keep(s, f) == head + Keep(s[1..], f);
      KeepConcat(head, Keep(s[1..], f), g);
      if f(s[0]) {
        assert Keep(head, g) == (if g(s[0]) then [s[0]] else []) + Keep(head[1..], g);
      }
    }
  }

  /** A filter and its complement split a sequence: together they keep
      every element exactly as often as it occurs. */
  lemma {:induction false} KeepPartition<T(!new)>(s: seq<T>, f: T -> bool, g: T -> bool)
    requires forall x | x in s :: g(x) == !f(x)
    ensures multiset(Keep(s, f)) + multiset(Keep(s, g)) == multiset(s)
  {
    if s != [] {
      var x := s[0];
      KeepPartition(s[1..], f, g);
      MultisetHead(s);
      if f(x) {
        KeepHeadKept(s, f);
        KeepHeadDropped(s, g);
      } else {
        KeepHeadDropped(s, f);
        KeepHeadKept(s, g);
      }
    }
  }

  lemma MultisetHead<T>(s: seq<T>)
    requires s != []
    ensures multiset(s) == multiset{s[0]} + multiset(s[1..])
  {
    assert s == [s[0]] + s[1..];
  }

  lemma KeepHeadKept<T(!new)>(s: seq<T>, f: T -> bool)
    requires s != [] && f(s[0])
    ensures multiset(Keep(s, f)) == multiset{s[0]} + multiset(Keep(s[1..], f))
  {
    assert Keep(s, f) == [s[0]] + Keep(s[1..], f);
  }

  lemma KeepHeadDropped<T(!new)>(s: seq<T>, f: T -> bool)
    requires s != [] && !f(s[0])
    ensures Keep(s, f) == Keep(s[1..], f)
  {
  }

  // ---------------------------------------------------------------------
  // `#id` and OutputCompilerPort's id reservation
  // ---------------------------------------------------------------------

  /** `#id`: the next SPIR-V id, never handed out before. */
  function FreshId(w: World): (r: (World, SpirvId))
    ensures r.1 == w.nextId && r.0 == w.(nextId := w.nextId + 1)
  {
    (w.(nextId := w.nextId + 1), w.nextId)
  }

  /** `getOrReserveId`: the port's reserved id, reserving a fresh one first
      when it has none. */
  function GetOrReserveId(w: World, o: PortId): (r: (World, SpirvId))
    requires o in w.outputs
    ensures o in r.0.outputs && r.0.outputs[o].reserved == Some(r.1)
    ensures r.0.outputs.Keys == w.outputs.Keys
    ensures forall p | p in w.outputs && p != o :: r.0.outputs[p] == w.outputs[p]
    ensures r.0.inputs == w.inputs && r.0.nodes == w.nodes && r.0.graph == w.graph
    ensures r.0.nextId >= w.nextId
  {
    match w.outputs[o].reserved
    case Some(id) => (w, id)
    case None =>
      var (w', id) := FreshId(w);
      (w'.(outputs := w'.outputs[o := w'.outputs[o].(reserved := Some(id))]), id)
  }

  /** `clearReservation`. */
  function ClearReservation(w: World, o: PortId): (w': World)
    requires o in w.outputs
    ensures o in w'.outputs && w'.outputs[o].reserved.None?
  {
    w.(outputs := w.outputs[o := w.outputs[o].(reserved := None)])
  }

  /** `setReservedId`. */
  function SetReservedId(w: World, o: PortId, id: SpirvId): (w': World)
    requires o in w.outputs
    ensures o in w'.outputs && w'.outputs[o].reserved == Some(id)
  {
    w.(outputs := w.outputs[o := w.outputs[o].(reserved := Some(id))])
  }

  /** A port without a reservation gets a fresh id, which stays reserved;
      the world changes in nothing else. */
  lemma ReserveFresh(w: World, o: PortId)
    requires o in w.outputs && w.outputs[o].reserved.None?
    ensures var (w', id) := GetOrReserveId(w, o);
      && id == w.nextId && w'.nextId == w.nextId + 1
      && w'.outputs == w.outputs[o := w.outputs[o].(reserved := Some(id))]
      && w'.nodes == w.nodes && w'.inputs == w.inputs && w'.graph == w.graph
  {
  }

  /** Asking again returns the same id and changes nothing. */
  lemma ReserveStable(w: World, o: PortId)
    requires o in w.outputs
    ensures var (w', id) := GetOrReserveId(w, o);
      o in w'.outputs && GetOrReserveId(w', o) == (w', id)
  {
  }

  /** After `clearReservation` the port gets a fresh id again. */
  lemma ClearGivesFresh(w: World, o: PortId)
    requires o in w.outputs
    ensures GetOrReserveId(ClearReservation(w, o), o).1 == w.nextId
  {
  }

  /** `setReservedId` overrides any reservation, and the id asked for next
      is the one set, with no fresh id used. */
  lemma SetOverrides(w: World, o: PortId, id: SpirvId)
    requires o in w.outputs
    ensures var w' := SetReservedId(w, o, id);
      GetOrReserveId(w', o) == (w', id) && w'.nextId == w.nextId
  {
  }

  // ---------------------------------------------------------------------
  // CompilerEdge.init
  // ---------------------------------------------------------------------

  /** `CompilerEdge(inputPort:outputPort:)`: the input port's incoming edge
      becomes the new edge and the edge is appended to the output port's
      outgoing edges. An edge that fed the input port before stays listed
      at its output port. */
  function Connect(w: World, u: PortId, o: PortId): (w': World)
    requires u in w.inputs && o in w.outputs
  {
    var e := Edge(u, o);
    var inputs := w.inputs[u := w.inputs[u].(incoming := Some(e))];
    var outputs := w.outputs[o := w.outputs[o].(outgoing := w.outputs[o].outgoing + [e])];
    w.(inputs := inputs, outputs := outputs)
  }

  /** Connecting sets exactly the two port fields and touches nothing else. */
  lemma ConnectSetsBothEnds(w: World, u: PortId, o: PortId)
    requires u in w.inputs && o in w.outputs
    ensures var w' := Connect(w, u, o);
      && u in w'.inputs && o in w'.outputs
      && w'.inputs[u] == w.inputs[u].(incoming := Some(Edge(u, o)))
      && w'.outputs[o] == w.outputs[o].(outgoing := w.outputs[o].outgoing + [Edge(u, o)])
      && (forall v | v in w.inputs && v != u :: v in w'.inputs && w'.inputs[v] == w.inputs[v])
      && (forall p | p in w.outputs && p != o :: p in w'.outputs && w'.outputs[p] == w.outputs[p])
      && w'.inputs.Keys == w.inputs.Keys && w'.outputs.Keys == w.outputs.Keys
      && w'.nodes == w.nodes && w'.graph == w.graph && w'.output == w.output && w'.nextId == w.nextId
  {
  }

  /** Connecting an existing input port to an existing output port keeps a
      well-linked world well linked. */
  lemma ConnectKeepsLinks(w: World, u: PortId, o: PortId)
    requires WellLinked(w)
    requires u in w.inputs && o in w.outputs
    ensures WellLinked(Connect(w, u, o))
  {
    ConnectSetsBothEnds(w, u, o);
    ConnectKeepsOwners(w, u, o);
    ConnectKeepsEdges(w, u, o);
  }

  /** Connecting changes no port's owner. */
  lemma ConnectKeepsOwners(w: World, u: PortId, o: PortId)
    requires PortsPointBack(w) && PortsHaveNodes(w)
    requires u in w.inputs && o in w.outputs
    ensures PortsPointBack(Connect(w, u, o)) && PortsHaveNodes(Connect(w, u, o))
  {
    ConnectKeepsPointers(w, u, o);
    ConnectKeepsNodes(w, u, o);
  }

  lemma ConnectKeepsPointers(w: World, u: PortId, o: PortId)
    requires PortsPointBack(w)
    requires u in w.inputs && o in w.outputs
    ensures PortsPointBack(Connect(w, u, o))
  {
    var w' := Connect(w, u, o);
    ConnectSetsBothEnds(w, u, o);
    forall n, v | n in w'.nodes && v in w'.nodes[n].inputs
      ensures v in w'.inputs && w'.inputs[v].node == Some(n)
    {
      assert v in w.inputs && w.inputs[v].node == Some(n);
    }
    forall n, p | n in w'.nodes && p in w'.nodes[n].outputs
      ensures p in w'.outputs && w'.outputs[p].node == Some(n)
    {
      assert p in w.outputs && w.outputs[p].node == Some(n);
    }
  }

  lemma ConnectKeepsNodes(w: World, u: PortId, o: PortId)
    requires PortsHaveNodes(w)
    requires u in w.inputs && o in w.outputs
    ensures PortsHaveNodes(Connect(w, u, o))
  {
    var w' := Connect(w, u, o);
    ConnectSetsBothEnds(w, u, o);
    forall v | v in w'.inputs
      ensures w'.inputs[v].node == w.inputs[v].node
    {
    }
    forall p | p in w'.outputs
      ensures w'.outputs[p].node == w.outputs[p].node
    {
    }
  }

  /** Connecting keeps every edge listed at both of its ports. */
  lemma ConnectKeepsEdges(w: World, u: PortId, o: PortId)
    requires EdgesResolve(w)
    requires u in w.inputs && o in w.outputs
    ensures EdgesResolve(Connect(w, u, o))
  {
    var w' := Connect(w, u, o);
    ConnectSetsBothEnds(w, u, o);
    forall v | v in w'.inputs && w'.inputs[v].incoming.Some?
      ensures w'.inputs[v].incoming.value.input == v && w'.inputs[v].incoming.value.output in w'.outputs
    {
    }
    forall p, e | p in w'.outputs && e in w'.outputs[p].outgoing
      ensures e.output == p && e.input in w'.inputs
    {
      if p == o && e !in w.outputs[o].outgoing {
        assert e == Edge(u, o);
      }
    }
  }

  /** Connecting keeps every incoming edge listed at its output port. */
  lemma ConnectKeepsListed(w: World, u: PortId, o: PortId)
    requires IncomingListed(w)
    requires u in w.inputs && o in w.outputs
    ensures IncomingListed(Connect(w, u, o))
  {
    var w' := Connect(w, u, o);
    ConnectSetsBothEnds(w, u, o);
    forall v | v in w'.inputs && w'.inputs[v].incoming.Some? && w'.inputs[v].incoming.value.output in w'.outputs
      ensures w'.inputs[v].incoming.value in w'.outputs[w'.inputs[v].incoming.value.output].outgoing
    {
      var e := w'.inputs[v].incoming.value;
      if v != u {
        assert e == w.inputs[v].incoming.value && e in w.outputs[e.output].outgoing;
        if e.output == o {
          assert w'.outputs[o].outgoing == w.outputs[o].outgoing + [Edge(u, o)];
        }
      } else {
        assert e == Edge(u, o);
      }
    }
  }
}
