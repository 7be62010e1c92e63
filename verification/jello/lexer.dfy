/** The calculator node's expression lexer (MathExpressionLexer.swift). At
    each position it first tries the literal pattern `([0-9]*[.])?[0-9]+`;
    failing that, it takes the first entry of its token table whose
    pattern matches there. A position nothing matches, whitespace
    included, makes it fail. Function names take their opening bracket
    with them. */
module Lexer {
  import opened Results

  /** `MathExpressionToken`. A literal keeps the text it was read from. */
  datatype Token =
    | Literal(text: string)
    | LeftBracket | RightBracket
    | Plus | Minus | Divide | Multiply | Pow
    | Sqrt | Floor | Ceil | Round | Cos | Acos | Sin | Asin | Tan | Atan | Abs | Log
    | Pi | Phi | Tau
    | X | Y | Z | W | E

  datatype LexError = Failure

  // ---------------------------------------------------------------------
  // Literals
  // ---------------------------------------------------------------------

  predicate IsDigit(c: char) {
    '0' <= c <= '9'
  }

  predicate AllDigits(s: string) {
    forall i | 0 <= i < |s| :: IsDigit(s[i])
  }

  /** The number of digits `s` starts with. */
  function DigitRun(s: string): (n: nat)
    ensures n <= |s| && AllDigits(s[..n])
    ensures n < |s| ==> !IsDigit(s[n])
  {
    if s == [] || !IsDigit(s[0]) then 0 else 1 + DigitRun(s[1..])
  }

  /** A text the literal pattern matches in full: digits, or digits, a
      point and at least one digit. */
  predicate IsLiteralText(t: string) {
    || (|t| > 0 && AllDigits(t))
    || (exists k | 0 <= k < |t| - 1 :: t[k] == '.' && AllDigits(t[..k]) && AllDigits(t[k + 1..]))
  }

  /** The length of the literal pattern's match at the start of `s`: the
      leading digits, extended by a point and the digits after it when at
      least one digit follows the point. */
  function LiteralMatch(s: string): (r: Option<nat>)
    ensures r.Some? ==> 0 < r.value <= |s| && IsLiteralText(s[..r.value])
  {
    var d := DigitRun(s);
    if d < |s| && s[d] == '.' && DigitRun(s[d + 1..]) > 0 then
      var n := d + 1 + DigitRun(s[d + 1..]);
      assert s[..n][..d] == s[..d] && s[..n][d + 1..] == s[d + 1..][..DigitRun(s[d + 1..])];
      Some(n)
    else if d > 0 then Some(d)
    else None
  }

  /** A literal text has no point before its digits end, or one point with
      digits on both sides of it (the digits before may be none). */
  lemma LiteralTextShape(t: string)
    requires IsLiteralText(t)
    ensures IsDigit(t[|t| - 1])
    ensures forall i | 0 <= i < |t| :: IsDigit(t[i]) || t[i] == '.'
  {
    if !(|t| > 0 && AllDigits(t)) {
      var k :| 0 <= k < |t| - 1 && t[k] == '.' && AllDigits(t[..k]) && AllDigits(t[k + 1..]);
      assert t[k + 1..][|t| - k - 2] == t[|t| - 1];
      forall i | 0 <= i < |t| ensures IsDigit(t[i]) || t[i] == '.' {
        if i < k {
          assert t[..k][i] == t[i];
        } else if i > k {
          assert t[k + 1..][i - k - 1] == t[i];
        }
      }
    }
  }

  /** A literal text holds at most one point. */
  lemma LiteralTextOnePoint(t: string, i: nat, j: nat)
    requires IsLiteralText(t) && i < j < |t|
    ensures !(t[i] == '.' && t[j] == '.')
  {
    if |t| > 0 && AllDigits(t) {
    } else {
      var k :| 0 <= k < |t| - 1 && t[k] == '.' && AllDigits(t[..k]) && AllDigits(t[k + 1..]);
      if i < k {
        assert t[..k][i] == t[i];
      } else if i > k {
        assert t[k + 1..][i - k - 1] == t[i];
      } else {
        assert t[k + 1..][j - k - 1] == t[j];
      }
    }
  }

  /** The pattern's match is the longest literal prefix: no longer prefix
      of `s` is a literal text, and when nothing matches no prefix is. */
  lemma LiteralMatchLongest(s: string, m: nat)
    requires 0 < m <= |s| && IsLiteralText(s[..m])
    ensures LiteralMatch(s).Some? && m <= LiteralMatch(s).value
  {
    var t := s[..m];
    var d := DigitRun(s);
    LiteralTextShape(t);
    if d < m {
      // The prefix goes past the leading digits, so s[d] is its point.
      assert t[d] == s[d] && !IsDigit(s[d]);
      assert s[d] == '.';
      assert d + 1 < m by {
        assert IsDigit(t[m - 1]);
      }
      var e := DigitRun(s[d + 1..]);
      assert s[d + 1..][0] == t[d + 1];
      if d + 1 + e < m {
        var j := d + 1 + e;
        assert s[d + 1..][e] == s[j] && t[j] == s[j];
        assert t[j] == '.';
        LiteralTextOnePoint(t, d, j);
      }
    }
  }

  // ---------------------------------------------------------------------
  // The token table
  // ---------------------------------------------------------------------

  /** The text a token stands for: a literal's own text, and otherwise the
      pattern of its table entry. */
  function Spelling(t: Token): string {
    match t
    case Literal(text) => text
    case LeftBracket => "("
    case RightBracket => ")"
    case Plus => "+"
    case Minus => "-"
    case Multiply => "*"
    case Divide => "/"
    case Pow => "^"
    case Sqrt => "sqrt("
    case Floor => "floor("
    case Ceil => "ceil("
    case Round => "round("
    case Cos => "cos("
    case Acos => "acos("
    case Sin => "sin("
    case Asin => "asin("
    case Tan => "tan("
    case Atan => "atan("
    case Abs => "abs("
    case Log => "log("
    case E => "e"
    case Pi => "pi"
    case Phi => "phi"
    case Tau => "tau"
    case X => "x"
    case Y => "y"
    case Z => "z"
    case W => "w"
  }

  /** `tokenList`, in its order; each entry's pattern is the token's
      spelling. */
  const Table: seq<Token> := [
    LeftBracket, RightBracket, Plus, Minus, Multiply, Divide, Pow,
    Sqrt, Floor, Ceil, Round, Cos, Acos, Sin, Asin, Tan, Atan, Abs, Log,
    E, Pi, Phi, Tau, X, Y, Z, W]

  predicate StartsWith(s: string, p: string) {
    |p| <= |s| && s[..|p|] == p
  }

  /** The first table entry from `i` on whose pattern `s` starts with. */
  function FirstMatch(s: string, i: nat): (r: Option<nat>)
    requires i <= |Table|
    ensures r.Some? ==> i <= r.value < |Table| && StartsWith(s, Spelling(Table[r.value]))
    ensures r.Some? ==> forall k | i <= k < r.value :: !StartsWith(s, Spelling(Table[k]))
    ensures r.None? ==> forall k | i <= k < |Table| :: !StartsWith(s, Spelling(Table[k]))
    decreases |Table| - i
  {
    if i == |Table| then None
    else if StartsWith(s, Spelling(Table[i])) then Some(i)
    else FirstMatch(s, i + 1)
  }

  lemma TableSpellingsNonEmpty()
    ensures forall k | 0 <= k < |Table| :: |Spelling(Table[k])| > 0 && !Table[k].Literal?
  {
  }

  // ---------------------------------------------------------------------
  // mathExpressionLexer
  // ---------------------------------------------------------------------

  /** `mathExpressionLexer`. */
  function Lex(s: string): (r: Result<seq<Token>, LexError>)
    decreases |s|
  {
    if s == [] then Ok([])
    else
      match LiteralMatch(s)
      case Some(n) =>
        var rest :- Lex(s[n..]);
        Ok([Literal(s[..n])] + rest)
      case None =>
        match FirstMatch(s, 0)
        case None => Err(Failure)
        case Some(i) =>
          TableSpellingsNonEmpty();
          var rest :- Lex(s[|Spelling(Table[i])|..]);
          Ok([Table[i]] + rest)
  }

  /** The texts of a token sequence, one after the other. */
  function Spell(ts: seq<Token>): string {
    if ts == [] then "" else Spelling(ts[0]) + Spell(ts[1..])
  }

  lemma {:induction false} SpellConcat(a: seq<Token>, b: seq<Token>)
    ensures Spell(a + b) == Spell(a) + Spell(b)
  {
    if a == [] {
      assert a + b == b;
    } else {
      assert (a + b)[0] == a[0] && (a + b)[1..] == a[1..] + b;
      SpellConcat(a[1..], b);
    }
  }

  /** Lexing only cuts the input up: the tokens spell it back exactly. */
  lemma {:induction false} LexSpellsInput(s: string)
    requires Lex(s).Ok?
    ensures Spell(Lex(s).value) == s
    decreases |s|
  {
    if s != [] {
      match LiteralMatch(s)
      case Some(n) =>
        LexSpellsInput(s[n..]);
        assert s == s[..n] + s[n..];
      case None =>
        var i := FirstMatch(s, 0).value;
        var p := Spelling(Table[i]);
        TableSpellingsNonEmpty();
        LexSpellsInput(s[|p|..]);
        assert s == p + s[|p|..];
    }
  }

  /** Each token is taken by the rule of its position: a literal is the
      longest literal prefix there; any other token is the first table
      entry matching there, and only when no literal matches. */
  lemma {:induction false} LexTakesFirstMatch(s: string)
    requires s != [] && Lex(s).Ok?
    ensures var t := Lex(s).value[0];
      && (t.Literal? <==> LiteralMatch(s).Some?)
      && (t.Literal? ==>
            && StartsWith(s, t.text) && IsLiteralText(t.text)
            && forall m | |t.text| < m <= |s| :: !IsLiteralText(s[..m]))
      && (!t.Literal? ==>
            exists i | 0 <= i < |Table| ::
              && t == Table[i] && StartsWith(s, Spelling(t))
              && forall k | 0 <= k < i :: !StartsWith(s, Spelling(Table[k])))
  {
    var t := Lex(s).value[0];
    if LiteralMatch(s).Some? {
      var n := LiteralMatch(s).value;
      forall m | n < m <= |s| ensures !IsLiteralText(s[..m]) {
        if IsLiteralText(s[..m]) {
          LiteralMatchLongest(s, m);
        }
      }
    } else {
      TableSpellingsNonEmpty();
    }
  }

  /** Every literal read is unsigned: digits with at most one point. */
  lemma {:induction false} LexLiteralsUnsigned(s: string)
    requires Lex(s).Ok?
    ensures forall t | t in Lex(s).value && t.Literal? :: IsLiteralText(t.text)
    decreases |s|
  {
    if s != [] {
      match LiteralMatch(s)
      case Some(n) =>
        LexLiteralsUnsigned(s[n..]);
      case None =>
        var i := FirstMatch(s, 0).value;
        TableSpellingsNonEmpty();
        LexLiteralsUnsigned(s[|Spelling(Table[i])|..]);
    }
  }

  /** The characters some token can be spelt with. */
  predicate Lexable(c: char) {
    IsDigit(c) || c == '.' || exists k | 0 <= k < |Table| :: c in Spelling(Table[k])
  }

  /** Every character of the spelling of lexed tokens is lexable. */
  lemma {:induction false} SpellLexable(ts: seq<Token>)
    requires forall t | t in ts :: t.Literal? ==> IsLiteralText(t.text)
    ensures forall c | c in Spell(ts) :: Lexable(c)
  {
    if ts != [] {
      SpellLexable(ts[1..]);
      var t := ts[0];
      forall c | c in Spelling(t) ensures Lexable(c) {
        if t.Literal? {
          LiteralTextShape(t.text);
        } else {
          assert t in Table;
        }
      }
    }
  }

  /** An input holding a character no token is spelt with, such as a
      space, fails to lex. */
  lemma LexRejectsUnlexable(s: string, c: char)
    requires c in s && !Lexable(c)
    ensures Lex(s) == Err(Failure)
  {
    if Lex(s).Ok? {
      LexSpellsInput(s);
      LexLiteralsUnsigned(s);
      SpellLexable(Lex(s).value);
    } else {
      var e := Lex(s).error;
      assert e.Failure?;
    }
  }

  /** The length of the token the lexer takes at the start of `s`: the
      literal match, else the first table match, else nothing. */
  function Step(s: string): (r: Option<nat>)
    requires s != []
    ensures r.Some? ==> 0 < r.value <= |s|
    ensures r.None? <==> LiteralMatch(s).None? && FirstMatch(s, 0).None?
  {
    match LiteralMatch(s)
    case Some(n) => Some(n)
    case None =>
      match FirstMatch(s, 0)
      case None => None
      case Some(i) =>
        TableSpellingsNonEmpty();
        Some(|Spelling(Table[i])|)
  }

  /** Taking tokens from the start of `s` one after another arrives at
      position `k`. */
  predicate Reaches(s: string, k: nat)
    decreases |s|
  {
    k == 0 || (s != [] && Step(s).Some? && Step(s).value <= k && Reaches(s[Step(s).value..], k - Step(s).value))
  }

  /** Lexing fails exactly when the walk reaches a position where neither
      the literal pattern nor any table pattern matches (the `!matched`
      throw of `mathExpressionLexer`). */
  lemma {:induction false} LexFailsWhereStuck(s: string)
    ensures Lex(s).Err? <==> exists k: nat | k < |s| && Reaches(s, k) :: Step(s[k..]).None?
    decreases |s|
  {
    if Lex(s).Err? {
      assert s != [];
      if Step(s).None? {
        assert s[0..] == s && Reaches(s, 0);
      } else {
        var n := Step(s).value;
        assert Lex(s[n..]).Err?;
        LexFailsWhereStuck(s[n..]);
        var k': nat :| k' < |s[n..]| && Reaches(s[n..], k') && Step(s[n..][k'..]).None?;
        assert s[n..][k'..] == s[n + k'..];
        assert Reaches(s, n + k');
      }
    }
    if exists k: nat | k < |s| && Reaches(s, k) :: Step(s[k..]).None? {
      var k: nat :| k < |s| && Reaches(s, k) && Step(s[k..]).None?;
      if k == 0 {
        assert s[0..] == s;
      } else {
        var n := Step(s).value;
        assert s[n..][k - n..] == s[k..];
        LexFailsWhereStuck(s[n..]);
        assert Lex(s[n..]).Err?;
      }
    }
  }

  /** No table pattern holds a space. */
  lemma NoSpaceInPattern(t: Token)
    requires !t.Literal?
    ensures ' ' !in Spelling(t)
  {
    match t
    case Literal(_) =>
    case _ =>
      forall i | 0 <= i < |Spelling(t)| ensures Spelling(t)[i] != ' ' {
      }
  }

  lemma SpaceIsNotLexable()
    ensures !Lexable(' ')
  {
    forall k | 0 <= k < |Table| ensures ' ' !in Spelling(Table[k]) {
      TableSpellingsNonEmpty();
      NoSpaceInPattern(Table[k]);
    }
  }

  // ---------------------------------------------------------------------
  // Lexing printed tokens back
  // ---------------------------------------------------------------------

  /** The first character of each table pattern, in table order. */
  const Leads: string := "()+-*/^sfcrcasataalepptxyzw"

  lemma LeadsOfTable()
    ensures |Leads| == |Table|
    ensures forall k | 0 <= k < |Table| :: |Spelling(Table[k])| > 0 && Spelling(Table[k])[0] == Leads[k]
  {
    forall k | 0 <= k < |Table| ensures |Spelling(Table[k])| > 0 && Spelling(Table[k])[0] == Leads[k] {
      if k < 14 {
        LeadsOfLowerTable(k);
      } else {
        LeadsOfUpperTable(k);
      }
    }
  }

  lemma LeadsOfLowerTable(k: nat)
    requires k < 14
    ensures |Spelling(Table[k])| > 0 && Spelling(Table[k])[0] == Leads[k]
  {
  }

  lemma LeadsOfUpperTable(k: nat)
    requires 14 <= k < |Table|
    ensures |Spelling(Table[k])| > 0 && Spelling(Table[k])[0] == Leads[k]
  {
  }

  /** No table pattern starts the way a literal does. */
  lemma TableLead(t: Token)
    requires !t.Literal?
    ensures |Spelling(t)| > 0 && !IsDigit(Spelling(t)[0]) && Spelling(t)[0] != '.'
  {
  }

  /** Two patterns part ways within their first three characters. */
  predicate Differ(p: string, q: string) {
    || (|p| > 0 && |q| > 0 && p[0] != q[0])
    || (|p| > 1 && |q| > 1 && p[1] != q[1])
    || (|p| > 2 && |q| > 2 && p[2] != q[2])
  }

  /** The pairs of table entries (later, earlier) that share a first
      character still part ways. */
  lemma SharedLeads(i: nat, k: nat)
    requires k < i < |Leads| && Leads[k] == Leads[i]
    ensures (i, k) in {(13, 7), (11, 9), (14, 12), (16, 12), (16, 14), (17, 12), (17, 14), (17, 16), (22, 15), (21, 20)}
  {
  }

  lemma SharedLeadsDiffer(i: nat, k: nat)
    requires (i, k) in {(13, 7), (11, 9), (14, 12), (16, 12), (16, 14), (17, 12), (17, 14), (17, 16), (22, 15), (21, 20)}
    ensures Differ(Spelling(Table[i]), Spelling(Table[k]))
  {
    if i < 16 || i > 17 {
      SharedLeadsDifferOutside(i, k);
    } else {
      SharedLeadsDifferInside(i, k);
    }
  }

  lemma SharedLeadsDifferOutside(i: nat, k: nat)
    requires (i, k) in {(13, 7), (11, 9), (14, 12), (22, 15), (21, 20)}
    ensures Differ(Spelling(Table[i]), Spelling(Table[k]))
  {
  }

  lemma SharedLeadsDifferInside(i: nat, k: nat)
    requires (i, k) in {(16, 12), (16, 14), (17, 12), (17, 14), (17, 16)}
    ensures Differ(Spelling(Table[i]), Spelling(Table[k]))
  {
  }

  /** No two table patterns are prefixes of one another. */
  lemma PatternsApart(i: nat, k: nat)
    requires k < i < |Table|
    ensures Differ(Spelling(Table[i]), Spelling(Table[k]))
  {
    LeadsOfTable();
    if Leads[k] == Leads[i] {
      SharedLeads(i, k);
      SharedLeadsDiffer(i, k);
    }
  }

  /** `StartsWith`, character by character. */
  lemma StartsWithChars(s: string, p: string)
    ensures StartsWith(s, p) <==> |p| <= |s| && forall j | 0 <= j < |p| :: s[j] == p[j]
  {
    if |p| <= |s| && forall j | 0 <= j < |p| :: s[j] == p[j] {
      assert s[..|p|] == p;
    }
  }

  lemma DifferNoPrefix(s: string, p: string, q: string)
    requires Differ(p, q) && StartsWith(s, p)
    ensures !StartsWith(s, q)
  {
    StartsWithChars(s, p);
    StartsWithChars(s, q);
  }

  /** The literal pattern does not match at a character that cannot
      start a literal. */
  lemma NoLiteralAtLead(s: string)
    requires |s| > 0 && !IsDigit(s[0]) && s[0] != '.'
    ensures LiteralMatch(s).None?
  {
  }

  /** Once a pattern matches, no earlier pattern of the table does, so
      the lexer picks that pattern. */
  lemma FirstMatchAt(s: string, i: nat)
    requires i < |Table| && StartsWith(s, Spelling(Table[i]))
    ensures FirstMatch(s, 0) == Some(i)
  {
    forall k | 0 <= k < i ensures !StartsWith(s, Spelling(Table[k])) {
      PatternsApart(i, k);
      DifferNoPrefix(s, Spelling(Table[i]), Spelling(Table[k]));
    }
    var f := FirstMatch(s, 0);
    if f.None? {
    } else if f.value < i {
    } else if f.value > i {
    }
  }

  /** The literal pattern never matches a table token's spelling. */
  lemma LiteralMissesSpelling(t: Token, more: string)
    requires !t.Literal?
    ensures LiteralMatch(Spelling(t) + more).None?
  {
    var s := Spelling(t) + more;
    TableLead(t);
    assert s[0] == Spelling(t)[0];
    NoLiteralAtLead(s);
  }

  /** A table token's spelling, whatever follows it, is matched by that
      token's pattern first. */
  lemma FirstMatchOfSpelling(t: Token, more: string)
    requires !t.Literal?
    ensures FirstMatch(Spelling(t) + more, 0).Some? && Table[FirstMatch(Spelling(t) + more, 0).value] == t
  {
    var s := Spelling(t) + more;
    assert t in Table;
    var i :| 0 <= i < |Table| && Table[i] == t;
    assert s[..|Spelling(t)|] == Spelling(t);
    FirstMatchAt(s, i);
  }

  /** A literal text is lexed whole when what follows cannot extend it. */
  lemma LiteralMatchOfText(text: string, more: string)
    requires IsLiteralText(text)
    requires more != [] ==> !IsDigit(more[0]) && more[0] != '.'
    ensures LiteralMatch(text + more) == Some(|text|)
  {
    var s := text + more;
    assert s[..|text|] == text;
    LiteralMatchLongest(s, |text|);
    var n := LiteralMatch(s).value;
    LiteralTextShape(s[..n]);
    forall j | 0 <= j < n ensures IsDigit(s[j]) || s[j] == '.' {
      assert s[..n][j] == s[j];
    }
    assert |text| < |s| ==> s[|text|] == more[0];
  }

  /** Token sequences that print without two literals running together. */
  predicate Separated(ts: seq<Token>) {
    && (forall k | 0 <= k < |ts| && ts[k].Literal? :: IsLiteralText(ts[k].text))
    && (forall k | 0 <= k < |ts| - 1 && ts[k].Literal? :: !ts[k + 1].Literal?)
  }

  /** One literal step of the lexer. */
  lemma LexLiteralStep(text: string, more: string)
    requires IsLiteralText(text)
    requires more != [] ==> !IsDigit(more[0]) && more[0] != '.'
    ensures Lex(more).Ok? ==> Lex(text + more) == Ok([Literal(text)] + Lex(more).value)
    ensures Lex(more).Err? ==> Lex(text + more).Err?
  {
    LiteralMatchOfText(text, more);
    assert (text + more)[..|text|] == text && (text + more)[|text|..] == more;
  }

  /** One table step of the lexer. */
  lemma LexTableStep(t: Token, more: string)
    requires !t.Literal?
    ensures Lex(more).Ok? ==> Lex(Spelling(t) + more) == Ok([t] + Lex(more).value)
    ensures Lex(more).Err? ==> Lex(Spelling(t) + more).Err?
  {
    LiteralMissesSpelling(t, more);
    FirstMatchOfSpelling(t, more);
    TableSpellingsNonEmpty();
    assert (Spelling(t) + more)[|Spelling(t)|..] == more;
  }

  /** Lexing inverts printing: separated tokens lex back to themselves. */
  lemma {:induction false} LexSpellInverse(ts: seq<Token>)
    requires Separated(ts)
    ensures Lex(Spell(ts)) == Ok(ts)
  {
    if ts != [] {
      var t := ts[0];
      var more := Spell(ts[1..]);
      assert Separated(ts[1..]) by {
        forall k | 0 <= k < |ts[1..]| - 1 && ts[1..][k].Literal? ensures !ts[1..][k + 1].Literal? {
          assert ts[1..][k] == ts[k + 1] && ts[1..][k + 1] == ts[k + 2];
        }
      }
      LexSpellInverse(ts[1..]);
      assert Spell(ts) == Spelling(t) + more;
      if t.Literal? {
        if more != [] {
          assert ts[1..] != [] && !ts[1].Literal?;
          assert ts[1..][1..] == ts[2..];
          assert more == Spelling(ts[1]) + Spell(ts[2..]);
          TableLead(ts[1]);
        }
        LexLiteralStep(t.text, more);
      } else {
        LexTableStep(t, more);
      }
      assert ts == [t] + ts[1..];
    }
  }

  /** `testThatLexxingInfixOperatorsProducesExpectedResult`. */
  lemma LexInfixExample()
    ensures Lex("x+y+z") == Ok([X, Plus, Y, Plus, Z])
  {
    var ts := [X, Plus, Y, Plus, Z];
    assert Spell(ts) == "x+y+z";
    LexSpellInverse(ts);
  }

  /** `testThatLexxingComplexExpressionProducesExpectedResult`. */
  lemma LexComplexExample()
    ensures Lex("sin(3^(1.0+2))") ==
      Ok([Sin, Literal("3"), Pow, LeftBracket, Literal("1.0"), Plus, Literal("2"), RightBracket, RightBracket])
  {
    var p1 := [Sin, Literal("3"), Pow];
    var p2 := [LeftBracket, Literal("1.0"), Plus];
    var p3 := [Literal("2"), RightBracket, RightBracket];
    var ts := [Sin, Literal("3"), Pow, LeftBracket, Literal("1.0"), Plus, Literal("2"), RightBracket, RightBracket];
    PointLiteral();
    assert Separated(ts);
    assert ts == p1 + (p2 + p3);
    SpellComplexChunks(p1, p2, p3);
    LexSpellInverse(ts);
  }

  /** "1.0" is a literal text. */
  lemma PointLiteral()
    ensures IsLiteralText("1.0")
  {
    assert "1.0"[1] == '.' && "1.0"[..1] == "1" && "1.0"[2..] == "0";
  }

  lemma SpellComplexChunks(p1: seq<Token>, p2: seq<Token>, p3: seq<Token>)
    requires p1 == [Sin, Literal("3"), Pow]
    requires p2 == [LeftBracket, Literal("1.0"), Plus]
    requires p3 == [Literal("2"), RightBracket, RightBracket]
    ensures Spell(p1 + (p2 + p3)) == "sin(3^(1.0+2))"
  {
    assert Spell([Sin, Literal("3"), Pow]) == "sin(3^";
    assert Spell([LeftBracket, Literal("1.0"), Plus]) == "(1.0+";
    assert Spell([Literal("2"), RightBracket, RightBracket]) == "2))";
    SpellConcat(p2, p3);
    SpellConcat(p1, p2 + p3);
    ComplexText();
  }

  lemma ComplexText()
    ensures "sin(3^" + ("(1.0+" + "2))") == "sin(3^(1.0+2))"
  {
    assert "(1.0+" + "2))" == "(1.0+2))";
  }
}
