/** The calculator node's binding-power parser (MathExpressionParser.swift).
    A prefix step reads one operand: a literal, variable or constant, a
    bracketed expression, a function applied to a bracketed expression, or
    a prefix minus or plus applied to an operand parsed at power 7. An
    infix loop then keeps absorbing operators whose left power reaches the
    current minimum, parsing each right operand at the operator's right
    power. Parsing stops at the first token that cannot continue the
    expression and leaves it, and everything after it, unread. */
module Parser {
  import opened Results
  import Lexer

  // ---------------------------------------------------------------------
  // Expressions
  // ---------------------------------------------------------------------

  datatype InfixOp = Add | Subtract | Multiply | Divide | Pow

  /** Functions, negation and unary plus. */
  datatype PrefixOp =
    | Sqrt | Floor | Ceil | Round | Cos | Acos | Sin | Asin | Tan | Atan | Abs | Log
    | Negate | UnaryPlus

  datatype Variable = X | Y | Z | W

  datatype MathConstant = E | Tau | Pi | Phi

  /** `MathExpression`. A literal keeps the text it was lexed from. */
  datatype Expr =
    | Literal(text: string)
    | Var(v: Variable)
    | Const(c: MathConstant)
    | Unary(fn: PrefixOp, arg: Expr)
    | Binary(infix: InfixOp, lhs: Expr, rhs: Expr)

  datatype ParseError = Failure

  /** `parseMathExpression` throws the lexer's error or the parser's. */
  datatype ExpressionError = LexerFailure | ParserFailure

  // ---------------------------------------------------------------------
  // Binding powers
  // ---------------------------------------------------------------------

  /** `tokenToInfixOperator`. */
  function InfixOf(t: Lexer.Token): Option<InfixOp> {
    match t
    case Minus => Some(Subtract)
    case Plus => Some(Add)
    case Multiply => Some(Multiply)
    case Divide => Some(Divide)
    case Pow => Some(Pow)
    case _ => None
  }

  /** The left power of `infixBindingPower`; the right power is one more. */
  function LeftPower(op: InfixOp): nat {
    match op
    case Add | Subtract => 1
    case Multiply | Divide => 3
    case Pow => 5
  }

  function RightPower(op: InfixOp): nat {
    LeftPower(op) + 1
  }

  /** The right power of prefix minus and plus in `prefixBindingPower`. */
  const PrefixPower: nat := 7

  /** How `mathExpressionParser` reads an operand starting with a token:
      the token is the operand, applies a function to a bracketed
      expression, opens a bracket, is a sign applied to an operand read at
      `PrefixPower`, or cannot start an operand. */
  datatype Lead = Operand(e: Expr) | Apply(f: PrefixOp) | Group | Signed(s: PrefixOp) | NoOperand

  function LeadOf(t: Lexer.Token): Lead {
    match t
    case Literal(text) => Operand(Literal(text))
    case LeftBracket => Group
    case X => Operand(Var(X))
    case Y => Operand(Var(Y))
    case Z => Operand(Var(Z))
    case W => Operand(Var(W))
    case E => Operand(Const(E))
    case Tau => Operand(Const(Tau))
    case Pi => Operand(Const(Pi))
    case Phi => Operand(Const(Phi))
    case Sqrt => Apply(Sqrt)
    case Floor => Apply(Floor)
    case Ceil => Apply(Ceil)
    case Round => Apply(Round)
    case Cos => Apply(Cos)
    case Acos => Apply(Acos)
    case Sin => Apply(Sin)
    case Asin => Apply(Asin)
    case Tan => Apply(Tan)
    case Atan => Apply(Atan)
    case Abs => Apply(Abs)
    case Log => Apply(Log)
    case Minus => Signed(Negate)
    case Plus => Signed(UnaryPlus)
    case Multiply | Divide | Pow | RightBracket => NoOperand
  }

  // ---------------------------------------------------------------------
  // mathExpressionParser
  // ---------------------------------------------------------------------

  /** `rest` is what is left of `ts` after reading some of its front. */
  predicate Suffix(rest: seq<Lexer.Token>, ts: seq<Lexer.Token>) {
    |rest| <= |ts| && ts[|ts| - |rest|..] == rest
  }

  /** The infix loop leaves `rest` only when it cannot go on: no tokens
      are left, the next is no infix operator, or that operator's left
      power is below the minimum. */
  predicate Stops(rest: seq<Lexer.Token>, minPower: nat) {
    rest == [] || InfixOf(rest[0]).None? || LeftPower(InfixOf(rest[0]).value) < minPower
  }

  /** `mathExpressionParser`: an operand, then the infix loop. Returns the
      expression and the unread tokens. */
  function Parse(ts: seq<Lexer.Token>, minPower: nat): (r: Result<(Expr, seq<Lexer.Token>), ParseError>)
    ensures r.Ok? ==> |r.value.1| < |ts| && Suffix(r.value.1, ts) && Stops(r.value.1, minPower)
    decreases |ts|, 1
  {
    var p :- ParsePrefix(ts);
    ParseInfix(p.0, p.1, minPower)
  }

  /** The `switch` on the popped token. */
  function ParsePrefix(ts: seq<Lexer.Token>): (r: Result<(Expr, seq<Lexer.Token>), ParseError>)
    ensures r.Ok? ==> |r.value.1| < |ts| && Suffix(r.value.1, ts)
    decreases |ts|, 0
  {
    if ts == [] then Err(Failure)
    else
      match LeadOf(ts[0])
      case Operand(e) => Ok((e, ts[1..]))
      case Apply(f) =>
        var p :- Closed(ts[1..]);
        Ok((Unary(f, p.0), p.1))
      case Group => Closed(ts[1..])
      case Signed(f) =>
        var p :- Parse(ts[1..], PrefixPower);
        Ok((Unary(f, p.0), p.1))
      case NoOperand => Err(Failure)
  }

  /** `processLeftBracket` and the common part of
      `processBracketedUnaryOperator`: a whole expression, then a right
      bracket. */
  function Closed(ts: seq<Lexer.Token>): (r: Result<(Expr, seq<Lexer.Token>), ParseError>)
    ensures r.Ok? ==> |r.value.1| < |ts| && Suffix(r.value.1, ts)
    decreases |ts|, 2
  {
    var p :- Parse(ts, 0);
    if p.1 != [] && p.1[0] == Lexer.RightBracket then Ok((p.0, p.1[1..])) else Err(Failure)
  }

  /** The `while true` loop of `mathExpressionParser`, from operand `lhs`. */
  function ParseInfix(lhs: Expr, ts: seq<Lexer.Token>, minPower: nat): (r: Result<(Expr, seq<Lexer.Token>), ParseError>)
    ensures r.Ok? ==> Suffix(r.value.1, ts) && Stops(r.value.1, minPower)
    decreases |ts|, 0
  {
    if Stops(ts, minPower) then Ok((lhs, ts))
    else
      var op := InfixOf(ts[0]).value;
      var p :- Parse(ts[1..], RightPower(op));
      ParseInfix(Binary(op, lhs, p.0), p.1, minPower)
  }

  /** `parseMathExpression`: lex, then parse from power 0. Tokens after
      the parsed expression are ignored. */
  function ParseMathExpression(s: string): (r: Result<Expr, ExpressionError>)
    ensures r.Ok? <==> Lexer.Lex(s).Ok? && Parse(Lexer.Lex(s).value, 0).Ok?
    ensures r.Ok? ==> r.value == Parse(Lexer.Lex(s).value, 0).value.0
  {
    match Lexer.Lex(s)
    case Err(_) => Err(LexerFailure)
    case Ok(ts) =>
      match Parse(ts, 0)
      case Err(_) => Err(ParserFailure)
      case Ok(p) => Ok(p.0)
  }

  // ---------------------------------------------------------------------
  // Printing, and parsing what was printed
  // ---------------------------------------------------------------------

  function InfixToken(op: InfixOp): (t: Lexer.Token)
    ensures InfixOf(t) == Some(op)
  {
    match op
    case Add => Lexer.Plus
    case Subtract => Lexer.Minus
    case Multiply => Lexer.Multiply
    case Divide => Lexer.Divide
    case Pow => Lexer.Pow
  }

  /** The token that opens a prefix operator: a function token (which
      carries its opening bracket), or minus or plus. */
  function PrefixToken(f: PrefixOp): (t: Lexer.Token)
    ensures LeadOf(t) == if f in {Negate, UnaryPlus} then Signed(f) else Apply(f)
  {
    match f
    case Sqrt => Lexer.Sqrt
    case Floor => Lexer.Floor
    case Ceil => Lexer.Ceil
    case Round => Lexer.Round
    case Cos => Lexer.Cos
    case Acos => Lexer.Acos
    case Sin => Lexer.Sin
    case Asin => Lexer.Asin
    case Tan => Lexer.Tan
    case Atan => Lexer.Atan
    case Abs => Lexer.Abs
    case Log => Lexer.Log
    case Negate => Lexer.Minus
    case UnaryPlus => Lexer.Plus
  }

  /** The token of a literal, variable or constant. */
  function AtomToken(e: Expr): (t: Lexer.Token)
    requires e.Literal? || e.Var? || e.Const?
    ensures LeadOf(t) == Operand(e)
  {
    match e
    case Literal(text) => Lexer.Literal(text)
    case Var(v) => (match v case X => Lexer.X case Y => Lexer.Y case Z => Lexer.Z case W => Lexer.W)
    case Const(c) => (match c case E => Lexer.E case Tau => Lexer.Tau case Pi => Lexer.Pi case Phi => Lexer.Phi)
  }

  /** The fully bracketed printing of `e`, followed by `rest`: every
      binary node and every negation or unary plus gets its own
      brackets. */
  function Printed(e: Expr, rest: seq<Lexer.Token>): seq<Lexer.Token> {
    match e
    case Literal(_) => [AtomToken(e)] + rest
    case Var(_) => [AtomToken(e)] + rest
    case Const(_) => [AtomToken(e)] + rest
    case Unary(f, a) =>
      if f in {Negate, UnaryPlus} then [PrefixToken(f)] + ([Lexer.LeftBracket] + Printed(a, [Lexer.RightBracket] + rest))
      else [PrefixToken(f)] + Printed(a, [Lexer.RightBracket] + rest)
    case Binary(op, l, r) =>
      [Lexer.LeftBracket] + Printed(l, [InfixToken(op)] + Printed(r, [Lexer.RightBracket] + rest))
  }

  function Print(e: Expr): seq<Lexer.Token> {
    Printed(e, [])
  }

  // One step of each parsing function, for the proofs below.

  lemma ParseStep(ts: seq<Lexer.Token>, e: Expr, rest: seq<Lexer.Token>, minPower: nat)
    requires ParsePrefix(ts) == Ok((e, rest))
    ensures Parse(ts, minPower) == ParseInfix(e, rest, minPower)
  {
  }

  lemma InfixStop(lhs: Expr, ts: seq<Lexer.Token>, minPower: nat)
    requires Stops(ts, minPower)
    ensures ParseInfix(lhs, ts, minPower) == Ok((lhs, ts))
  {
  }

  lemma InfixStep(lhs: Expr, ts: seq<Lexer.Token>, minPower: nat, op: InfixOp, rhs: Expr, rest: seq<Lexer.Token>)
    requires ts != [] && InfixOf(ts[0]) == Some(op) && minPower <= LeftPower(op)
    requires Parse(ts[1..], RightPower(op)) == Ok((rhs, rest))
    ensures ParseInfix(lhs, ts, minPower) == ParseInfix(Binary(op, lhs, rhs), rest, minPower)
  {
  }

  lemma ClosedStep(ts: seq<Lexer.Token>, e: Expr, rest: seq<Lexer.Token>)
    requires Parse(ts, 0) == Ok((e, rest)) && rest != [] && rest[0] == Lexer.RightBracket
    ensures Closed(ts) == Ok((e, rest[1..]))
  {
  }

  lemma OperandStep(ts: seq<Lexer.Token>, e: Expr)
    requires ts != [] && LeadOf(ts[0]) == Operand(e)
    ensures ParsePrefix(ts) == Ok((e, ts[1..]))
  {
  }

  lemma GroupStep(ts: seq<Lexer.Token>)
    requires ts != [] && LeadOf(ts[0]) == Group
    ensures ParsePrefix(ts) == Closed(ts[1..])
  {
  }

  lemma ApplyStep(ts: seq<Lexer.Token>, f: PrefixOp, e: Expr, rest: seq<Lexer.Token>)
    requires ts != [] && LeadOf(ts[0]) == Apply(f) && Closed(ts[1..]) == Ok((e, rest))
    ensures ParsePrefix(ts) == Ok((Unary(f, e), rest))
  {
  }

  lemma SignedStep(ts: seq<Lexer.Token>, f: PrefixOp, e: Expr, rest: seq<Lexer.Token>)
    requires ts != [] && LeadOf(ts[0]) == Signed(f) && Parse(ts[1..], PrefixPower) == Ok((e, rest))
    ensures ParsePrefix(ts) == Ok((Unary(f, e), rest))
  {
  }

  /** An operand followed by something that cannot continue it is the
      whole parse. */
  lemma ParseAt(ts: seq<Lexer.Token>, e: Expr, rest: seq<Lexer.Token>, minPower: nat)
    requires ParsePrefix(ts) == Ok((e, rest)) && Stops(rest, minPower)
    ensures Parse(ts, minPower) == Ok((e, rest))
  {
    ParseStep(ts, e, rest, minPower);
    InfixStop(e, rest, minPower);
  }

  /** A bracketed group closes when its expression is followed by a right
      bracket. */
  lemma ClosedAt(ts: seq<Lexer.Token>, e: Expr, rest: seq<Lexer.Token>)
    requires ParsePrefix(ts) == Ok((e, [Lexer.RightBracket] + rest))
    ensures Closed(ts) == Ok((e, rest))
  {
    var tail := [Lexer.RightBracket] + rest;
    ParseAt(ts, e, tail, 0);
    assert tail[1..] == rest;
    ClosedStep(ts, e, tail);
  }

  lemma SignedUnit(f: PrefixOp, a: Expr, body: seq<Lexer.Token>, rest: seq<Lexer.Token>)
    requires f in {Negate, UnaryPlus} && Closed(body) == Ok((a, rest))
    ensures ParsePrefix([PrefixToken(f)] + ([Lexer.LeftBracket] + body)) == Ok((Unary(f, a), rest))
  {
    var inner := [Lexer.LeftBracket] + body;
    assert inner[1..] == body;
    GroupStep(inner);
    ParseAt(inner, a, rest, PrefixPower);
    var ts := [PrefixToken(f)] + inner;
    assert ts[1..] == inner;
    SignedStep(ts, f, a, rest);
  }

  lemma ApplyUnit(f: PrefixOp, a: Expr, body: seq<Lexer.Token>, rest: seq<Lexer.Token>)
    requires f !in {Negate, UnaryPlus} && Closed(body) == Ok((a, rest))
    ensures ParsePrefix([PrefixToken(f)] + body) == Ok((Unary(f, a), rest))
  {
    var ts := [PrefixToken(f)] + body;
    assert ts[1..] == body;
    ApplyStep(ts, f, a, rest);
  }

  /** Inside the brackets of a printed binary node. */
  lemma BinaryBody(op: InfixOp, l: Expr, r: Expr, left: seq<Lexer.Token>, right: seq<Lexer.Token>, tail: seq<Lexer.Token>)
    requires ParsePrefix(right) == Ok((r, tail)) && Stops(tail, 0)
    requires ParsePrefix(left) == Ok((l, [InfixToken(op)] + right))
    ensures Parse(left, 0) == Ok((Binary(op, l, r), tail))
  {
    ParseAt(right, r, tail, RightPower(op));
    var mid := [InfixToken(op)] + right;
    assert mid[1..] == right;
    InfixStep(l, mid, 0, op, r, tail);
    InfixStop(Binary(op, l, r), tail, 0);
    ParseStep(left, l, mid, 0);
  }

  lemma BinaryUnit(op: InfixOp, l: Expr, r: Expr, left: seq<Lexer.Token>, right: seq<Lexer.Token>, rest: seq<Lexer.Token>)
    requires ParsePrefix(right) == Ok((r, [Lexer.RightBracket] + rest))
    requires ParsePrefix(left) == Ok((l, [InfixToken(op)] + right))
    ensures ParsePrefix([Lexer.LeftBracket] + left) == Ok((Binary(op, l, r), rest))
  {
    var tail := [Lexer.RightBracket] + rest;
    BinaryBody(op, l, r, left, right, tail);
    assert tail[1..] == rest;
    ClosedStep(left, Binary(op, l, r), tail);
    var ts := [Lexer.LeftBracket] + left;
    assert ts[1..] == left;
    GroupStep(ts);
  }

  /** Reading an operand from a printed expression gives that expression
      back and leaves whatever followed it. */
  lemma {:induction false} ParsePrinted(e: Expr, rest: seq<Lexer.Token>)
    ensures ParsePrefix(Printed(e, rest)) == Ok((e, rest))
  {
    var RB := Lexer.RightBracket;
    match e
    case Literal(_) =>
      OperandStep(Printed(e, rest), e);
      assert Printed(e, rest)[1..] == rest;
    case Var(_) =>
      OperandStep(Printed(e, rest), e);
      assert Printed(e, rest)[1..] == rest;
    case Const(_) =>
      OperandStep(Printed(e, rest), e);
      assert Printed(e, rest)[1..] == rest;
    case Unary(f, a) =>
      var body := Printed(a, [RB] + rest);
      ParsePrinted(a, [RB] + rest);
      ClosedAt(body, a, rest);
      if f in {Negate, UnaryPlus} {
        SignedUnit(f, a, body, rest);
      } else {
        ApplyUnit(f, a, body, rest);
      }
    case Binary(op, l, r) =>
      var right := Printed(r, [RB] + rest);
      ParsePrinted(r, [RB] + rest);
      ParsePrinted(l, [InfixToken(op)] + right);
      BinaryUnit(op, l, r, Printed(l, [InfixToken(op)] + right), right, rest);
  }

  /** A printed expression parses back whole when what follows it cannot
      continue it. */
  lemma ParsePrintedStops(e: Expr, rest: seq<Lexer.Token>, minPower: nat)
    requires Stops(rest, minPower)
    ensures Parse(Printed(e, rest), minPower) == Ok((e, rest))
  {
    ParsePrinted(e, rest);
    ParseAt(Printed(e, rest), e, rest, minPower);
  }

  // ---------------------------------------------------------------------
  // Precedence and grouping
  // ---------------------------------------------------------------------

  /** Two infix operators between three operands: the first pair groups
      first exactly when the second operator's tier (add/subtract, then
      multiply/divide, then pow) is not above the first's. So operators of
      one tier, pow included, group to the left, and a higher tier binds
      tighter. */
  lemma {:induction false} ThreeOperands(x: Expr, o1: InfixOp, y: Expr, o2: InfixOp, z: Expr, rest: seq<Lexer.Token>)
    requires Stops(rest, 0)
    ensures Parse(Printed(x, [InfixToken(o1)] + Printed(y, [InfixToken(o2)] + Printed(z, rest))), 0) ==
      Ok((if LeftPower(o2) <= LeftPower(o1) then Binary(o2, Binary(o1, x, y), z) else Binary(o1, x, Binary(o2, y, z)), rest))
  {
    var r3 := Printed(z, rest);
    var t2 := [InfixToken(o2)] + r3;
    var r2 := Printed(y, t2);
    var t1 := [InfixToken(o1)] + r2;
    var r1 := Printed(x, t1);
    ParsePrinted(x, t1);
    ParsePrinted(y, t2);
    assert t1[1..] == r2 && t2[1..] == r3;
    ParsePrintedStops(z, rest, RightPower(o2));
    ParseStep(r1, x, t1, 0);
    if LeftPower(o2) <= LeftPower(o1) {
      ParseAt(r2, y, t2, RightPower(o1));
      InfixStep(x, t1, 0, o1, y, t2);
      InfixStep(Binary(o1, x, y), t2, 0, o2, z, rest);
      InfixStop(Binary(o2, Binary(o1, x, y), z), rest, 0);
    } else {
      InfixStep(y, t2, RightPower(o1), o2, z, rest);
      InfixStop(Binary(o2, y, z), rest, RightPower(o1));
      ParseStep(r2, y, t2, RightPower(o1));
      InfixStep(x, t1, 0, o1, Binary(o2, y, z), rest);
      InfixStop(Binary(o1, x, Binary(o2, y, z)), rest, 0);
    }
  }

  /** A sign binds tighter than every infix operator: `-x op y` negates
      only `x`. */
  lemma SignBindsTightest(f: PrefixOp, x: Expr, op: InfixOp, y: Expr, rest: seq<Lexer.Token>)
    requires f in {Negate, UnaryPlus} && Stops(rest, 0)
    ensures Parse([PrefixToken(f)] + Printed(x, [InfixToken(op)] + Printed(y, rest)), 0) == Ok((Binary(op, Unary(f, x), y), rest))
  {
    var r2 := Printed(y, rest);
    var t1 := [InfixToken(op)] + r2;
    var r1 := Printed(x, t1);
    var ts := [PrefixToken(f)] + r1;
    assert ts[1..] == r1 && t1[1..] == r2;
    ParsePrinted(x, t1);
    ParseAt(r1, x, t1, PrefixPower);
    SignedStep(ts, f, x, t1);
    ParsePrintedStops(y, rest, RightPower(op));
    ParseStep(ts, Unary(f, x), t1, 0);
    InfixStep(Unary(f, x), t1, 0, op, y, rest);
    InfixStop(Binary(op, Unary(f, x), y), rest, 0);
  }

  // ---------------------------------------------------------------------
  // Failures
  // ---------------------------------------------------------------------

  /** An expression cannot start with `*`, `/`, `^`, `)` or the end of the
      input, and those are the only tokens that cannot start one. */
  lemma ParseRejectsLead(ts: seq<Lexer.Token>, minPower: nat)
    requires ts == [] || ts[0] in {Lexer.Multiply, Lexer.Divide, Lexer.Pow, Lexer.RightBracket}
    ensures Parse(ts, minPower) == Err(Failure)
  {
    if ts != [] {
      NoOperandTokens(ts[0]);
      assert LeadOf(ts[0]) == NoOperand;
    }
    assert ParsePrefix(ts) == Err(Failure);
  }

  lemma NoOperandTokens(t: Lexer.Token)
    ensures LeadOf(t) == NoOperand <==> t in {Lexer.Multiply, Lexer.Divide, Lexer.Pow, Lexer.RightBracket}
  {
  }

  /** A bracket or function whose expression is not followed by a right
      bracket fails. */
  lemma UnclosedFails(t: Lexer.Token, e: Expr, rest: seq<Lexer.Token>)
    requires LeadOf(t) == Group || LeadOf(t).Apply?
    requires Stops(rest, 0) && (rest == [] || rest[0] != Lexer.RightBracket)
    ensures ParsePrefix([t] + Printed(e, rest)) == Err(Failure)
  {
    ParsePrintedStops(e, rest, 0);
    assert ([t] + Printed(e, rest))[1..] == Printed(e, rest);
  }

  // ---------------------------------------------------------------------
  // From text
  // ---------------------------------------------------------------------

  /** Every literal of the expression is the text of a literal token. */
  predicate WellFormed(e: Expr) {
    match e
    case Literal(text) => Lexer.IsLiteralText(text)
    case Var(_) => true
    case Const(_) => true
    case Unary(_, a) => WellFormed(a)
    case Binary(_, l, r) => WellFormed(l) && WellFormed(r)
  }

  lemma SeparatedCons(t: Lexer.Token, ts: seq<Lexer.Token>)
    requires Lexer.Separated(ts)
    requires t.Literal? ==> Lexer.IsLiteralText(t.text) && (ts == [] || !ts[0].Literal?)
    ensures Lexer.Separated([t] + ts)
  {
    var s := [t] + ts;
    forall k | 0 <= k < |s| && s[k].Literal? ensures Lexer.IsLiteralText(s[k].text) {
      if k > 0 {
        assert s[k] == ts[k - 1];
      }
    }
    forall k | 0 <= k < |s| - 1 && s[k].Literal? ensures !s[k + 1].Literal? {
      if k > 0 {
        assert s[k] == ts[k - 1] && s[k + 1] == ts[k];
      }
    }
  }

  /** The printing of a well-formed expression never runs two literals
      together, so the lexer reads it back token for token. */
  lemma {:induction false} PrintedSeparated(e: Expr, rest: seq<Lexer.Token>)
    requires WellFormed(e) && Lexer.Separated(rest) && (rest == [] || !rest[0].Literal?)
    ensures Lexer.Separated(Printed(e, rest))
    ensures Printed(e, rest) != [] && (Printed(e, rest)[0].Literal? ==> e.Literal?)
  {
    var RB := Lexer.RightBracket;
    match e
    case Literal(_) =>
      SeparatedCons(AtomToken(e), rest);
    case Var(_) =>
      SeparatedCons(AtomToken(e), rest);
    case Const(_) =>
      SeparatedCons(AtomToken(e), rest);
    case Unary(f, a) =>
      SeparatedCons(RB, rest);
      PrintedSeparated(a, [RB] + rest);
      if f in {Negate, UnaryPlus} {
        SeparatedCons(Lexer.LeftBracket, Printed(a, [RB] + rest));
        SeparatedCons(PrefixToken(f), [Lexer.LeftBracket] + Printed(a, [RB] + rest));
      } else {
        SeparatedCons(PrefixToken(f), Printed(a, [RB] + rest));
      }
    case Binary(op, l, r) =>
      SeparatedCons(RB, rest);
      PrintedSeparated(r, [RB] + rest);
      var right := Printed(r, [RB] + rest);
      SeparatedCons(InfixToken(op), right);
      PrintedSeparated(l, [InfixToken(op)] + right);
      SeparatedCons(Lexer.LeftBracket, Printed(l, [InfixToken(op)] + right));
  }

  /** Parsing inverts printing all the way from text: the spelling of a
      well-formed expression's printing parses back to that expression. */
  lemma ParseSpelledPrint(e: Expr)
    requires WellFormed(e)
    ensures ParseMathExpression(Lexer.Spell(Print(e))) == Ok(e)
  {
    PrintedSeparated(e, []);
    Lexer.LexSpellInverse(Print(e));
    ParsePrintedStops(e, [], 0);
  }

  // ---------------------------------------------------------------------
  // Examples
  // ---------------------------------------------------------------------

  /** `testThatParsingInfixOperatorsProducesExpectedResult`. */
  lemma ParseInfixExample()
    ensures ParseMathExpression("x+y+z") == Ok(Binary(Add, Binary(Add, Var(X), Var(Y)), Var(Z)))
  {
    Lexer.LexInfixExample();
    PrintInfixTokens();
    ThreeOperands(Var(X), Add, Var(Y), Add, Var(Z), []);
  }

  lemma PrintInfixTokens()
    ensures [Lexer.X, Lexer.Plus, Lexer.Y, Lexer.Plus, Lexer.Z] ==
      Printed(Var(X), [InfixToken(Add)] + Printed(Var(Y), [InfixToken(Add)] + Printed(Var(Z), [])))
  {
  }

  /** The tokens of "sin(3*x^(1.0+2))". */
  const ComplexTokens: seq<Lexer.Token> := [Lexer.Sin, Lexer.Literal("3"), Lexer.Multiply, Lexer.X, Lexer.Pow,
    Lexer.LeftBracket, Lexer.Literal("1.0"), Lexer.Plus, Lexer.Literal("2"), Lexer.RightBracket, Lexer.RightBracket]

  lemma SpellComplexTokens(ts: seq<Lexer.Token>)
    requires ts == ComplexTokens
    ensures Lexer.Spell(ts) == "sin(3*x^(1.0+2))"
  {
    var RB := Lexer.RightBracket;
    var p1 := [Lexer.Sin, Lexer.Literal("3"), Lexer.Multiply];
    var p2 := [Lexer.X, Lexer.Pow, Lexer.LeftBracket];
    var p3 := [Lexer.Literal("1.0"), Lexer.Plus, Lexer.Literal("2")];
    var p4 := [RB, RB];
    assert ts == p1 + (p2 + (p3 + p4));
    SpellComplexChunks(p1, p2, p3, p4);
  }

  lemma SpellComplexChunks(p1: seq<Lexer.Token>, p2: seq<Lexer.Token>, p3: seq<Lexer.Token>, p4: seq<Lexer.Token>)
    requires p1 == [Lexer.Sin, Lexer.Literal("3"), Lexer.Multiply]
    requires p2 == [Lexer.X, Lexer.Pow, Lexer.LeftBracket]
    requires p3 == [Lexer.Literal("1.0"), Lexer.Plus, Lexer.Literal("2")]
    requires p4 == [Lexer.RightBracket, Lexer.RightBracket]
    ensures Lexer.Spell(p1 + (p2 + (p3 + p4))) == "sin(3*x^(1.0+2))"
  {
    SpellFirstChunks();
    SpellLastChunks();
    Lexer.SpellConcat(p3, p4);
    Lexer.SpellConcat(p2, p3 + p4);
    Lexer.SpellConcat(p1, p2 + (p3 + p4));
    ComplexText();
  }

  lemma SpellFirstChunks()
    ensures Lexer.Spell([Lexer.Sin, Lexer.Literal("3"), Lexer.Multiply]) == "sin(3*"
    ensures Lexer.Spell([Lexer.X, Lexer.Pow, Lexer.LeftBracket]) == "x^("
  {
    assert Lexer.Spell([Lexer.Sin, Lexer.Literal("3"), Lexer.Multiply]) == "sin(3*";
  }

  lemma SpellLastChunks()
    ensures Lexer.Spell([Lexer.Literal("1.0"), Lexer.Plus, Lexer.Literal("2")]) == "1.0+2"
    ensures Lexer.Spell([Lexer.RightBracket, Lexer.RightBracket]) == "))"
  {
    assert Lexer.Spell([Lexer.Literal("1.0"), Lexer.Plus, Lexer.Literal("2")]) == "1.0+2";
  }

  lemma ComplexText()
    ensures "sin(3*" + ("x^(" + ("1.0+2" + "))")) == "sin(3*x^(1.0+2))"
  {
    assert "1.0+2" + "))" == "1.0+2))";
    assert "x^(" + "1.0+2))" == "x^(1.0+2))";
  }

  lemma SeparatedComplexTokens(ts: seq<Lexer.Token>)
    requires ts == ComplexTokens
    ensures Lexer.Separated(ts)
  {
    Lexer.PointLiteral();
  }

  /** The printed operands inside the function's bracket. */
  lemma PrintComplexBody()
    ensures ComplexTokens == [PrefixToken(Sin)] +
      Printed(Literal("3"), [InfixToken(Multiply)] + Printed(Var(X), [InfixToken(Pow)] +
        Printed(Binary(Add, Literal("1.0"), Literal("2")), [Lexer.RightBracket])))
  {
    var bracketed := Printed(Binary(Add, Literal("1.0"), Literal("2")), [Lexer.RightBracket]);
    PrintComplexSum();
    var power := Printed(Var(X), [Lexer.Pow] + bracketed);
    assert power == [Lexer.X, Lexer.Pow] + bracketed;
    var body := Printed(Literal("3"), [Lexer.Multiply] + power);
    assert body == [Lexer.Literal("3"), Lexer.Multiply] + power;
  }

  /** The printed sum inside the power's bracket. */
  lemma PrintComplexSum()
    ensures Printed(Binary(Add, Literal("1.0"), Literal("2")), [Lexer.RightBracket]) ==
      [Lexer.LeftBracket, Lexer.Literal("1.0"), Lexer.Plus, Lexer.Literal("2"), Lexer.RightBracket, Lexer.RightBracket]
  {
    var RB := Lexer.RightBracket;
    var two := Printed(Literal("2"), [RB] + [RB]);
    assert two == [Lexer.Literal("2"), RB, RB];
    var one := Printed(Literal("1.0"), [Lexer.Plus] + two);
    assert one == [Lexer.Literal("1.0"), Lexer.Plus, Lexer.Literal("2"), RB, RB];
  }

  /** A function applied to two infix operators between three operands
      groups them as `ThreeOperands` does, inside the function's bracket. */
  lemma FunctionOfThree(ts: seq<Lexer.Token>, f: PrefixOp, x: Expr, o1: InfixOp, y: Expr, o2: InfixOp, z: Expr)
    requires f !in {Negate, UnaryPlus}
    requires ts == [PrefixToken(f)] + Printed(x, [InfixToken(o1)] + Printed(y, [InfixToken(o2)] + Printed(z, [Lexer.RightBracket])))
    ensures Parse(ts, 0) ==
      Ok((Unary(f, if LeftPower(o2) <= LeftPower(o1) then Binary(o2, Binary(o1, x, y), z) else Binary(o1, x, Binary(o2, y, z))), []))
  {
    var RB := Lexer.RightBracket;
    var body := Printed(x, [InfixToken(o1)] + Printed(y, [InfixToken(o2)] + Printed(z, [RB])));
    ThreeOperands(x, o1, y, o2, z, [RB]);
    var grouped := if LeftPower(o2) <= LeftPower(o1) then Binary(o2, Binary(o1, x, y), z) else Binary(o1, x, Binary(o2, y, z));
    ClosedStep(body, grouped, [RB]);
    assert [RB][1..] == [];
    assert ts[1..] == body;
    ApplyStep(ts, f, grouped, []);
    ParseAt(ts, Unary(f, grouped), [], 0);
  }

  /** The lexer reads "sin(3*x^(1.0+2))" as the printing of the sine of
      a product whose right factor is a power. */
  lemma LexComplexInput()
    ensures Lexer.Lex("sin(3*x^(1.0+2))") == Ok([PrefixToken(Sin)] +
      Printed(Literal("3"), [InfixToken(Multiply)] + Printed(Var(X), [InfixToken(Pow)] +
        Printed(Binary(Add, Literal("1.0"), Literal("2")), [Lexer.RightBracket]))))
  {
    SpellComplexTokens(ComplexTokens);
    SeparatedComplexTokens(ComplexTokens);
    Lexer.LexSpellInverse(ComplexTokens);
    PrintComplexBody();
  }

  lemma ParseOfLexed(s: string, ts: seq<Lexer.Token>, e: Expr, rest: seq<Lexer.Token>)
    requires Lexer.Lex(s) == Ok(ts) && Parse(ts, 0) == Ok((e, rest))
    ensures ParseMathExpression(s) == Ok(e)
  {
  }

  /** Those tokens parse to the sine of a product whose right factor is
      a power. */
  lemma ParseComplexTokens(ts: seq<Lexer.Token>)
    requires ts == [PrefixToken(Sin)] +
      Printed(Literal("3"), [InfixToken(Multiply)] + Printed(Var(X), [InfixToken(Pow)] +
        Printed(Binary(Add, Literal("1.0"), Literal("2")), [Lexer.RightBracket])))
    ensures Parse(ts, 0) ==
      Ok((Unary(Sin, Binary(Multiply, Literal("3"), Binary(Pow, Var(X), Binary(Add, Literal("1.0"), Literal("2"))))), []))
  {
    FunctionOfThree(ts, Sin, Literal("3"), Multiply, Var(X), Pow, Binary(Add, Literal("1.0"), Literal("2")));
  }

  /** `testThatParsingComplexExpressionProducesExpectedResult`. */
  lemma ParseComplexExample()
    ensures ParseMathExpression("sin(3*x^(1.0+2))") ==
      Ok(Unary(Sin, Binary(Multiply, Literal("3"), Binary(Pow, Var(X), Binary(Add, Literal("1.0"), Literal("2"))))))
  {
    var ts := [PrefixToken(Sin)] +
      Printed(Literal("3"), [InfixToken(Multiply)] + Printed(Var(X), [InfixToken(Pow)] +
        Printed(Binary(Add, Literal("1.0"), Literal("2")), [Lexer.RightBracket])));
    LexComplexInput();
    ParseComplexTokens(ts);
    ParseOfLexed("sin(3*x^(1.0+2))", ts, Unary(Sin, Binary(Multiply, Literal("3"), Binary(Pow, Var(X), Binary(Add, Literal("1.0"), Literal("2"))))), []);
  }

  /** Tokens after the expression are left unread, not rejected: "2x"
      is the literal 2 and "x)" is the variable x. */
  lemma TrailingTokensIgnored()
    ensures ParseMathExpression("2x") == Ok(Literal("2"))
    ensures ParseMathExpression("x)") == Ok(Var(X))
  {
    var two := [Lexer.Literal("2"), Lexer.X];
    assert Lexer.Separated(two);
    assert Lexer.Spell(two) == "2x";
    Lexer.LexSpellInverse(two);
    assert two == Printed(Literal("2"), [Lexer.X]);
    ParsePrintedStops(Literal("2"), [Lexer.X], 0);
    var closing := [Lexer.X, Lexer.RightBracket];
    assert Lexer.Spell(closing) == "x)";
    Lexer.LexSpellInverse(closing);
    assert closing == Printed(Var(X), [Lexer.RightBracket]);
    ParsePrintedStops(Var(X), [Lexer.RightBracket], 0);
  }
}
