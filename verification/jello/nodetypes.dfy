/** The compiler node classes of JelloCompilerNodeTypes.swift, as far as
    the front end sees them: what each constructor sets on its ports, which
    ports each node constrains to share a type, which SPIR-V opcode an
    arithmetic node picks for a concrete type, and how an arithmetic node's
    `write` folds its connected inputs into a chain of binary instructions. */
module NodeTypes {
  import opened Results
  import opened Sequences
  import opened GraphTypes
  import opened Constraints
  import opened Graph

  // ---------------------------------------------------------------------
  // Constructors
  // ---------------------------------------------------------------------

  /** A node as a constructor leaves it: no branch tags, no sub-nodes. */
  function NewNode(kind: NodeKind, inputs: seq<PortId>, outputs: seq<PortId>): Node {
    Node(kind, inputs, outputs, {}, map[])
  }

  /** `IfElseCompilerNode.init`: inputs in the order condition, if-true,
      if-false; the two value ports start the true and false branches; the
      condition becomes a boolean port. The ports' owner is left unset. */
  function IfElseInit(w: World, id: NodeId, cond: PortId, ifTrue: PortId, ifFalse: PortId,
                      out: PortId, trueTag: BranchId, falseTag: BranchId): (w': World)
    requires cond in w.inputs && ifTrue in w.inputs && ifFalse in w.inputs && out in w.outputs
    ensures w'.inputs.Keys == w.inputs.Keys && w'.outputs == w.outputs
  {
    var ins1 := w.inputs[ifTrue := w.inputs[ifTrue].(newBranchId := Some(trueTag))];
    var ins2 := ins1[ifFalse := ins1[ifFalse].(newBranchId := Some(falseTag))];
    var ins3 := ins2[cond := ins2[cond].(dataType := Exactly(Bool))];
    w.(nodes := w.nodes[id := NewNode(IfElse(trueTag, falseTag), [cond, ifTrue, ifFalse], [out])],
       inputs := ins3)
  }

  /** For three distinct ports the constructor does what it promises and
      touches no other port. */
  lemma IfElseInitSets(w: World, id: NodeId, cond: PortId, ifTrue: PortId, ifFalse: PortId,
                       out: PortId, trueTag: BranchId, falseTag: BranchId)
    requires cond in w.inputs && ifTrue in w.inputs && ifFalse in w.inputs && out in w.outputs
    requires cond != ifTrue && cond != ifFalse && ifTrue != ifFalse
    ensures var w' := IfElseInit(w, id, cond, ifTrue, ifFalse, out, trueTag, falseTag);
      && id in w'.nodes && w'.nodes[id].inputs == [cond, ifTrue, ifFalse] && w'.nodes[id].outputs == [out]
      && w'.nodes[id].tags == {} && Branches(w'.nodes[id]) == [trueTag, falseTag]
      && w'.inputs[cond] == w.inputs[cond].(dataType := Exactly(Bool))
      && w'.inputs[ifTrue] == w.inputs[ifTrue].(newBranchId := Some(trueTag))
      && w'.inputs[ifFalse] == w.inputs[ifFalse].(newBranchId := Some(falseTag))
      && (forall u | u in w.inputs && u !in {cond, ifTrue, ifFalse} :: w'.inputs[u] == w.inputs[u])
      && (forall n | n in w.nodes && n != id :: n in w'.nodes && w'.nodes[n] == w.nodes[n])
  {
  }

  /** The graph type a constant of each variant produces. */
  function ConstantType(v: ConstantValue): (g: GraphType)
    ensures g.Exactly?
  {
    match v
    case BoolValue(_) => Exactly(Bool)
    case FloatValue(_) => Exactly(Float)
    case Float2Value(_, _) => Exactly(Float2)
    case Float3Value(_, _, _) => Exactly(Float3)
    case Float4Value(_, _, _, _) => Exactly(Float4)
    case IntValue(_) => Exactly(Int)
  }

  /** `ConstantCompilerNode.init`: no inputs, one output whose type is the
      constant's and whose owner is the new node. */
  function ConstantInit(w: World, id: NodeId, out: PortId, value: ConstantValue): (w': World)
    requires out in w.outputs
    ensures w'.inputs == w.inputs && w'.outputs.Keys == w.outputs.Keys
  {
    w.(nodes := w.nodes[id := NewNode(Constant(value), [], [out])],
       outputs := w.outputs[out := w.outputs[out].(dataType := ConstantType(value), node := Some(id))])
  }

  /** A constant's output port can only be concretised to the constant's
      own type: its domain is exactly that type. */
  lemma ConstantInitPinsType(w: World, id: NodeId, out: PortId, value: ConstantValue)
    requires out in w.outputs
    ensures var w' := ConstantInit(w, id, out, value);
      && w'.outputs[out].node == Some(id) && w'.nodes[id].outputs == [out] && w'.nodes[id].inputs == []
      && |GetDomain(w'.outputs[out].dataType)| == 1
      && (value.IntValue? <==> GetDomain(w'.outputs[out].dataType) == [Int])
      && (value.BoolValue? <==> GetDomain(w'.outputs[out].dataType) == [Bool])
      && (value.FloatValue? <==> GetDomain(w'.outputs[out].dataType) == [Float])
  {
  }

  /** `PreviewOutputCompilerNode.init`: one input, which starts the branch
      named by the node's own id; the node carries that tag from the start. */
  function PreviewOutputInit(w: World, id: NodeId, input: PortId): (w': World)
    requires input in w.inputs
    ensures w'.outputs == w.outputs && w'.inputs.Keys == w.inputs.Keys
  {
    w.(nodes := w.nodes[id := Node(PreviewOutput, [input], [], {id}, map[])],
       inputs := w.inputs[input := w.inputs[input].(newBranchId := Some(id), node := Some(id))])
  }

  lemma PreviewOutputInitSets(w: World, id: NodeId, input: PortId)
    requires input in w.inputs
    ensures var w' := PreviewOutputInit(w, id, input);
      && w'.nodes[id].tags == {id} && w'.nodes[id].inputs == [input]
      && w'.inputs[input].newBranchId == Some(id) && w'.inputs[input].node == Some(id)
      && NodeConstraints(w'.nodes[id]) == []
  {
  }

  /** `AddCompilerNode.init` and its three siblings: the given inputs and
      one output, all owned by the new node. */
  function ArithmeticInit(w: World, op: ArithmeticOp, id: NodeId, inputs: seq<PortId>, out: PortId): (w': World)
    requires forall u | u in inputs :: u in w.inputs
    requires out in w.outputs
    ensures w'.inputs.Keys == w.inputs.Keys && w'.outputs.Keys == w.outputs.Keys
    ensures id in w'.nodes && w'.nodes[id].kind == Arithmetic(op)
    ensures w'.nodes[id].inputs == inputs && w'.nodes[id].outputs == [out]
    ensures forall u | u in inputs :: w'.inputs[u].node == Some(id)
    ensures w'.outputs[out].node == Some(id)
    ensures forall u | u in w.inputs && u !in inputs :: w'.inputs[u] == w.inputs[u]
  {
    w.(nodes := w.nodes[id := NewNode(Arithmetic(op), inputs, [out])],
       inputs := OwnAll(w.inputs, inputs, id),
       outputs := w.outputs[out := w.outputs[out].(node := Some(id))])
  }

  /** Sets the owner of each listed input port. */
  function OwnAll(ins: map<PortId, InputPort>, ports: seq<PortId>, id: NodeId): (r: map<PortId, InputPort>)
    requires forall u | u in ports :: u in ins
    ensures r.Keys == ins.Keys
    ensures forall u | u in ports :: r[u] == ins[u].(node := Some(id))
    ensures forall u | u in ins && u !in ports :: r[u] == ins[u]
  {
    if ports == [] then ins
    else
      var rest := OwnAll(ins, ports[1..], id);
      rest[ports[0] := ins[ports[0]].(node := Some(id))]
  }

  // ---------------------------------------------------------------------
  // Branches and constraints
  // ---------------------------------------------------------------------

  /** `BranchCompilerNode.branches`: the branch tags a branch node owns. */
  function Branches(n: Node): (r: seq<BranchId>)
    ensures n.kind.IfElse? <==> r != []
  {
    match n.kind
    case IfElse(t, f) => [t, f]
    case _ => []
  }

  /** `constraints`: the if-else node ties its two value inputs and its
      output to one type, an arithmetic node ties all its ports, and the
      other nodes impose nothing. */
  function NodeConstraints(n: Node): seq<Constraint> {
    match n.kind
    case IfElse(_, _) => [SameTypes(Dedup(if n.inputs == [] then n.outputs else n.inputs[1..] + n.outputs))]
    case Arithmetic(_) => [SameTypes(Dedup(n.inputs + n.outputs))]
    case _ => []
  }

  /** Every node constraint is a same-type constraint over ports of the
      node itself; it names exactly the listed ports. */
  lemma NodeConstraintsMeaning(n: Node)
    ensures forall c | c in NodeConstraints(n) :: c.SameTypes?
    ensures forall c, p | c in NodeConstraints(n) && p in c.ports :: p in n.inputs || p in n.outputs
    ensures n.kind.Arithmetic? ==>
      |NodeConstraints(n)| == 1 && forall p :: p in NodeConstraints(n)[0].ports <==> p in n.inputs || p in n.outputs
    ensures (n.kind.Constant? || n.kind.PreviewOutput? || n.kind.Plain?) ==> NodeConstraints(n) == []
  {
  }

  /** The if-else constraint leaves the condition out: for the ports the
      constructor sets, it covers exactly if-true, if-false and the output. */
  lemma IfElseConstraintSkipsCondition(w: World, id: NodeId, cond: PortId, ifTrue: PortId, ifFalse: PortId,
                                       out: PortId, trueTag: BranchId, falseTag: BranchId)
    requires cond in w.inputs && ifTrue in w.inputs && ifFalse in w.inputs && out in w.outputs
    requires cond != ifTrue && cond != ifFalse
    ensures var n := IfElseInit(w, id, cond, ifTrue, ifFalse, out, trueTag, falseTag).nodes[id];
      && |NodeConstraints(n)| == 1
      && (forall p :: p in NodeConstraints(n)[0].ports <==> p == ifTrue || p == ifFalse || p == out)
      && (cond != out ==> cond !in NodeConstraints(n)[0].ports)
  {
    var n := IfElseInit(w, id, cond, ifTrue, ifFalse, out, trueTag, falseTag).nodes[id];
    assert n.inputs[1..] + n.outputs == [ifTrue, ifFalse, out];
  }

  // ---------------------------------------------------------------------
  // Operation selection
  // ---------------------------------------------------------------------

  /** The SPIR-V opcodes the arithmetic nodes emit. */
  datatype Opcode = FAdd | FSub | FMul | FDiv | IAdd | ISub | IMul | SDiv

  predicate IsFloatVector(t: ConcreteType) {
    t == Float || t == Float2 || t == Float3 || t == Float4
  }

  predicate IsFloatOpcode(code: Opcode) {
    code == FAdd || code == FSub || code == FMul || code == FDiv
  }

  /** `get{Add,Subtract,Multiply,Divide}Operation`: the float opcode for a
      float scalar or vector, the integer one (signed division) for `int`,
      and none for any other type. */
  function SelectOperation(op: ArithmeticOp, t: ConcreteType): Option<Opcode> {
    if IsFloatVector(t) then
      Some(match op case Add => FAdd case Subtract => FSub case Multiply => FMul case Divide => FDiv)
    else if t == Int then
      Some(match op case Add => IAdd case Subtract => ISub case Multiply => IMul case Divide => SDiv)
    else None
  }

  /** The opcode of an operation is a float opcode exactly for float
      types, and there is one exactly for the numeric types; distinct
      operations never share an opcode. */
  lemma SelectOperationMeaning(op: ArithmeticOp, op': ArithmeticOp, t: ConcreteType, t': ConcreteType)
    ensures SelectOperation(op, t).Some? <==> IsFloatVector(t) || t == Int
    ensures SelectOperation(op, t).Some? ==> (IsFloatOpcode(SelectOperation(op, t).value) <==> IsFloatVector(t))
    ensures SelectOperation(op, t).Some? && SelectOperation(op', t').Some? && op != op' ==>
      SelectOperation(op, t).value != SelectOperation(op', t').value
    ensures SelectOperation(Divide, Int) == Some(SDiv)
  {
  }

  // ---------------------------------------------------------------------
  // The fold of an arithmetic node's `write`
  // ---------------------------------------------------------------------

  /** A binary instruction `code typeId result lhs rhs` of the function body. */
  datatype Binary = Binary(code: Opcode, typeId: SpirvId, result: SpirvId, lhs: SpirvId, rhs: SpirvId)

  /** Every connected input port among `ports` is fed from an existing
      output port. */
  predicate SourcesExist(w: World, ports: seq<PortId>) {
    forall u | u in ports && Connected(w, u) :: Source(w, u) in w.outputs
  }

  /** Every port of `ports` is connected and fed from an existing output
      port. */
  predicate Fed(w: World, ports: seq<PortId>) {
    forall u | u in ports :: Connected(w, u) && Source(w, u) in w.outputs
  }

  /** Both predicates depend only on the input ports and on which output
      ports exist. */
  lemma FedFrame(w: World, w': World, ports: seq<PortId>)
    requires w'.inputs == w.inputs && w'.outputs.Keys == w.outputs.Keys
    ensures Fed(w, ports) ==> Fed(w', ports)
    ensures SourcesExist(w, ports) ==> SourcesExist(w', ports)
  {
    assert forall u :: Connected(w', u) == Connected(w, u);
  }

  /** The fold's loop: for each port, the id of the value feeding it, and a
      fresh id for the combined value, emitted as one instruction. */
  function FoldInputs(w: World, code: Opcode, typeId: SpirvId, prev: SpirvId, ports: seq<PortId>): (r: (World, seq<Binary>, SpirvId))
    requires Fed(w, ports)
    ensures r.0.inputs == w.inputs && r.0.outputs.Keys == w.outputs.Keys && r.0.nodes == w.nodes
    ensures r.0.nextId >= w.nextId
    decreases |ports|
  {
    if ports == [] then (w, [], prev)
    else
      var (w1, rhs) := GetOrReserveId(w, Source(w, ports[0]));
      var (w2, res) := FreshId(w1);
      FedFrame(w, w2, ports[1..]);
      var (w3, rest, last) := FoldInputs(w2, code, typeId, res, ports[1..]);
      (w3, [Binary(code, typeId, res, prev, rhs)] + rest, last)
  }

  /** The start of the fold: a fresh id for the zero constant, then the id
      of the value feeding the first input, or the zero's id when that
      input is unconnected. */
  function FoldStart(w: World, fst: PortId): (r: (World, SpirvId))
    requires Connected(w, fst) ==> Source(w, fst) in w.outputs
    ensures r.0.inputs == w.inputs && r.0.outputs.Keys == w.outputs.Keys && r.0.nodes == w.nodes
    ensures r.0.nextId > w.nextId
  {
    var (w1, zero) := FreshId(w);
    if Connected(w1, fst) then GetOrReserveId(w1, Source(w1, fst)) else (w1, zero)
  }

  /** An arithmetic node's `write`: a fresh id for the zero constant, then
      the first input's value (or the zero), folded with each later
      connected input in order; the output port is given the final id.
      `None` is the source's trap: no ports, an unconcretised first input,
      or a type without the operation. `typeId` is the id `declareType`
      returns for the first input's type. */
  function ArithmeticWrite(w: World, n: NodeId, typeId: SpirvId): Option<(World, seq<Binary>)>
    requires n in w.nodes && w.nodes[n].kind.Arithmetic?
    requires forall u | u in w.nodes[n].inputs :: u in w.inputs
    requires SourcesExist(w, w.nodes[n].inputs)
    requires forall o | o in w.nodes[n].outputs :: o in w.outputs
  {
    var node := w.nodes[n];
    if node.inputs == [] || w.inputs[node.inputs[0]].concrete.None? then None
    else
      var (w2, prev) := FoldStart(w, node.inputs[0]);
      match SelectOperation(node.kind.op, w.inputs[node.inputs[0]].concrete.value)
      case None => None
      case Some(code) =>
        var later := ConnectedLater(w, node.inputs);
        FedFrame(w, w2, later);
        var (w3, body, last) := FoldInputs(w2, code, typeId, prev, later);
        if node.outputs == [] then None
        else Some((SetReservedId(w3, node.outputs[0], last), body))
  }

  /** The source traps exactly when the node has no input or no output,
      the first input has no concrete type, or that type has no opcode for
      the node's operation. */
  lemma ArithmeticWriteTraps(w: World, n: NodeId, typeId: SpirvId)
    requires n in w.nodes && w.nodes[n].kind.Arithmetic?
    requires forall u | u in w.nodes[n].inputs :: u in w.inputs
    requires SourcesExist(w, w.nodes[n].inputs)
    requires forall o | o in w.nodes[n].outputs :: o in w.outputs
    ensures var node := w.nodes[n];
      ArithmeticWrite(w, n, typeId).Some? <==>
        && node.inputs != [] && node.outputs != [] && w.inputs[node.inputs[0]].concrete.Some?
        && var t := w.inputs[node.inputs[0]].concrete.value; IsFloatVector(t) || t == Int
  {
    var node := w.nodes[n];
    if node.inputs != [] && w.inputs[node.inputs[0]].concrete.Some? {
      SelectOperationMeaning(node.kind.op, node.kind.op, w.inputs[node.inputs[0]].concrete.value, Int);
    }
  }

  /** The instructions `write` emits: one per later connected input, all
      with the opcode of the first input's type, chained left to right,
      starting from the zero constant's id (the first id handed out) when
      the first input is unconnected. */
  lemma ArithmeticWriteChains(w: World, n: NodeId, typeId: SpirvId)
    requires n in w.nodes && w.nodes[n].kind.Arithmetic?
    requires forall u | u in w.nodes[n].inputs :: u in w.inputs
    requires SourcesExist(w, w.nodes[n].inputs)
    requires forall o | o in w.nodes[n].outputs :: o in w.outputs
    requires ArithmeticWrite(w, n, typeId).Some?
    ensures var node := w.nodes[n];
      var body := ArithmeticWrite(w, n, typeId).value.1;
      var code := SelectOperation(node.kind.op, w.inputs[node.inputs[0]].concrete.value);
      && code.Some?
      && |body| == |ConnectedLater(w, node.inputs)|
      && (forall i | 0 <= i < |body| :: body[i].code == code.value && body[i].typeId == typeId)
      && (forall i | 0 < i < |body| :: body[i].lhs == body[i - 1].result)
      && (body != [] && !Connected(w, node.inputs[0]) ==> body[0].lhs == w.nextId)
  {
    var node := w.nodes[n];
    var (w2, prev) := FoldStart(w, node.inputs[0]);
    var code := SelectOperation(node.kind.op, w.inputs[node.inputs[0]].concrete.value).value;
    var later := ConnectedLater(w, node.inputs);
    FedFrame(w, w2, later);
    FoldInputsChains(w2, code, typeId, prev, later);
  }

  /** The ids `write` hands out: every result is a fresh id, and the output
      port holds the last result, or the starting operand when no later
      input is connected. */
  lemma ArithmeticWriteResult(w: World, n: NodeId, typeId: SpirvId)
    requires n in w.nodes && w.nodes[n].kind.Arithmetic?
    requires forall u | u in w.nodes[n].inputs :: u in w.inputs
    requires SourcesExist(w, w.nodes[n].inputs)
    requires forall o | o in w.nodes[n].outputs :: o in w.outputs
    requires ArithmeticWrite(w, n, typeId).Some?
    ensures var node := w.nodes[n];
      var w' := ArithmeticWrite(w, n, typeId).value.0;
      var body := ArithmeticWrite(w, n, typeId).value.1;
      && (forall i | 0 <= i < |body| :: w.nextId < body[i].result < w'.nextId)
      && node.outputs[0] in w'.outputs
      && w'.outputs[node.outputs[0]].reserved ==
           Some(if body != [] then body[|body| - 1].result else FoldStart(w, node.inputs[0]).1)
  {
    var node := w.nodes[n];
    var (w2, prev) := FoldStart(w, node.inputs[0]);
    var code := SelectOperation(node.kind.op, w.inputs[node.inputs[0]].concrete.value).value;
    var later := ConnectedLater(w, node.inputs);
    FedFrame(w, w2, later);
    FoldInputsChains(w2, code, typeId, prev, later);
    FoldInputsFresh(w2, code, typeId, prev, later);
  }

  /** The starting operand is the reserved id of the output feeding the
      first input, reserved after the zero constant's id, or that zero's
      id when the first input is unconnected. */
  lemma FoldStartOperand(w: World, fst: PortId)
    requires Connected(w, fst) ==> Source(w, fst) in w.outputs
    ensures !Connected(w, fst) ==> FoldStart(w, fst).1 == w.nextId
    ensures Connected(w, fst) ==> FoldStart(w, fst).1 == GetOrReserveId(w.(nextId := w.nextId + 1), Source(w, fst)).1
  {
  }

  /** The connected inputs after the first, in port order. */
  function ConnectedLater(w: World, inputs: seq<PortId>): (r: seq<PortId>)
    requires |inputs| > 0
    ensures forall u :: u in r <==> u in inputs[1..] && Connected(w, u)
  {
    Keep(inputs[1..], u => Connected(w, u))
  }

  /** What the fold computes: one instruction per port, each with the
      fold's opcode; the first combines `prev`, each later one the result
      of the one before, and the final id is the last result (or `prev`
      when there is nothing to fold). */
  lemma {:induction false} FoldInputsChains(w: World, code: Opcode, typeId: SpirvId, prev: SpirvId, ports: seq<PortId>)
    requires Fed(w, ports)
    ensures var r := FoldInputs(w, code, typeId, prev, ports); var w', body, last := r.0, r.1, r.2;
      && |body| == |ports|
      && (forall i | 0 <= i < |body| :: body[i].code == code && body[i].typeId == typeId)
      && (body != [] ==> body[0].lhs == prev)
      && (forall i | 0 < i < |body| :: body[i].lhs == body[i - 1].result)
      && last == (if body == [] then prev else body[|body| - 1].result)
    decreases |ports|
  {
    if ports != [] {
      var (w1, rhs) := GetOrReserveId(w, Source(w, ports[0]));
      var (w2, res) := FreshId(w1);
      FedFrame(w, w2, ports[1..]);
      FoldInputsChains(w2, code, typeId, res, ports[1..]);
      var r := FoldInputs(w2, code, typeId, res, ports[1..]);
      var w3, rest := r.0, r.1;
      var body := [Binary(code, typeId, res, prev, rhs)] + rest;
      forall i | 0 < i < |body|
        ensures body[i].lhs == body[i - 1].result
      {
        if i > 1 {
          assert body[i] == rest[i - 1] && body[i - 1] == rest[i - 2];
        }
      }
    }
  }

  /** The results of `body` are ids from `lo` up to but excluding `hi`,
      in strictly increasing order. */
  predicate FreshResults(body: seq<Binary>, lo: nat, hi: nat) {
    && (forall i | 0 <= i < |body| :: lo <= body[i].result < hi)
    && (forall i, j | 0 <= i < j < |body| :: body[i].result < body[j].result)
  }

  /** The fold's results are fresh ids, in increasing order, so no id is
      handed out twice. */
  lemma {:induction false} FoldInputsFresh(w: World, code: Opcode, typeId: SpirvId, prev: SpirvId, ports: seq<PortId>)
    requires Fed(w, ports)
    ensures var r := FoldInputs(w, code, typeId, prev, ports);
      FreshResults(r.1, w.nextId, r.0.nextId)
    decreases |ports|
  {
    if ports != [] {
      var (w1, rhs) := GetOrReserveId(w, Source(w, ports[0]));
      var (w2, res) := FreshId(w1);
      FedFrame(w, w2, ports[1..]);
      FoldInputsFresh(w2, code, typeId, res, ports[1..]);
      var r := FoldInputs(w2, code, typeId, res, ports[1..]);
      var body := [Binary(code, typeId, res, prev, rhs)] + r.1;
      assert FoldInputs(w, code, typeId, prev, ports) == (r.0, body, r.2);
      assert w.nextId <= res && w2.nextId == res + 1 <= r.0.nextId;
      forall i | 0 <= i < |body|
        ensures w.nextId <= body[i].result < r.0.nextId
      {
        if i > 0 {
          assert body[i] == r.1[i - 1];
        }
      }
      forall i, j | 0 <= i < j < |body|
        ensures body[i].result < body[j].result
      {
        if i > 0 {
          assert body[i] == r.1[i - 1];
        }
        assert body[j] == r.1[j - 1];
      }
    }
  }

  /** Each right operand is the id that the output port feeding that
      input holds once the fold is done. */
  lemma {:induction false} FoldInputsOperands(w: World, code: Opcode, typeId: SpirvId, prev: SpirvId, ports: seq<PortId>)
    requires Fed(w, ports)
    ensures var r := FoldInputs(w, code, typeId, prev, ports); var w', body, last := r.0, r.1, r.2;
      && |body| == |ports|
      && forall i | 0 <= i < |body| :: w'.outputs[Source(w, ports[i])].reserved == Some(body[i].rhs)
    decreases |ports|
  {
    if ports != [] {
      var (w1, rhs) := GetOrReserveId(w, Source(w, ports[0]));
      var (w2, res) := FreshId(w1);
      FedFrame(w, w2, ports[1..]);
      FoldInputsOperands(w2, code, typeId, res, ports[1..]);
      FoldInputsKeepsReservations(w2, code, typeId, res, ports[1..], Source(w, ports[0]));
      var r := FoldInputs(w2, code, typeId, res, ports[1..]);
      var w3, rest := r.0, r.1;
      var body := [Binary(code, typeId, res, prev, rhs)] + rest;
      forall i | 0 < i < |body|
        ensures w3.outputs[Source(w, ports[i])].reserved == Some(body[i].rhs)
      {
        assert ports[i] == ports[1..][i - 1];
        assert Source(w, ports[i]) == Source(w2, ports[1..][i - 1]);
        assert body[i] == rest[i - 1];
      }
    }
  }

  /** The fold never changes a reservation once made. */
  lemma {:induction false} FoldInputsKeepsReservations(w: World, code: Opcode, typeId: SpirvId, prev: SpirvId, ports: seq<PortId>, o: PortId)
    decreases |ports|
    requires Fed(w, ports)
    requires o in w.outputs && w.outputs[o].reserved.Some?
    ensures FoldInputs(w, code, typeId, prev, ports).0.outputs[o] == w.outputs[o]
  {
    if ports != [] {
      var (w1, rhs) := GetOrReserveId(w, Source(w, ports[0]));
      var (w2, res) := FreshId(w1);
      FedFrame(w, w2, ports[1..]);
      FoldInputsKeepsReservations(w2, code, typeId, res, ports[1..], o);
    }
  }
}
