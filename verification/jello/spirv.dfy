/** The SPIR-V word encoder of `SpirvGenerator.swift`: the module header,
    the instruction layout (word count in the high half of the first word,
    opcode in the low half) and the operand encodings, including the packing
    of a Literal String into little-endian words ending in a NUL byte
    (sections 2.2.1 and 2.3 of the SPIR-V specification).

    Words are the values of the Swift `UInt32`s. Where the Swift code or-s
    a value into bits that are still zero, the model adds it.
    `OrIsAddAt8`, `OrIsAddAt16` and `OrIsAddAt24` state, on 32-bit
    bit-vectors, that or and add agree on such bits; the packing below is
    written with additions on naturals and does not invoke them. */
module Spirv {
  import opened Results

  /** A `UInt32` of the Swift code. */
  type Word = w: nat | w < 0x1_0000_0000

  /** A byte of a string's UTF-8 encoding. */
  type Byte = b: nat | b < 0x100

  /** The raw value of an `SpvOp`. Every SPIR-V opcode fits the 16 low
      bits of the first word. */
  type Opcode = op: nat | op < 0x1_0000

  // ---------------------------------------------------------------------
  // Module header
  // ---------------------------------------------------------------------

  const MagicNumber: Word := 0x07230203
  const GeneratorMagicNumber: Word := 0
  const Version: Word := 0x00010600

  /** `buildHeader`: magic number, version, generator, id bound, schema. */
  function BuildHeader(bound: Word): (h: seq<Word>)
    ensures |h| == 5
  {
    [MagicNumber, Version, GeneratorMagicNumber, bound, 0]
  }

  /** The version word's layout is 0 | major | minor | 0, high byte first. */
  function MajorVersion(w: Word): nat {
    (w / 0x1_0000) % 0x100
  }

  function MinorVersion(w: Word): nat {
    (w / 0x100) % 0x100
  }

  /** What a reader of a module takes from its first five words: the id
      bound, when the magic number opens the module and the schema is 0. */
  function ReadBound(ws: seq<Word>): (r: Option<Word>)
    ensures r.Some? ==> |ws| >= 5 && ws[0] == MagicNumber
  {
    if |ws| >= 5 && ws[0] == MagicNumber && ws[4] == 0 then Some(ws[3]) else None
  }

  /** The header opens with the SPIR-V magic number, declares version 1.6
      with zero in its outer bytes, names no registered generator (word 2
      is 0), has schema 0, and hands its bound back to a reader whatever
      follows it. */
  lemma HeaderReadsBack(bound: Word, rest: seq<Word>)
    ensures BuildHeader(bound)[0] == 0x07230203 && BuildHeader(bound)[2] == 0 && BuildHeader(bound)[4] == 0
    ensures MajorVersion(BuildHeader(bound)[1]) == 1 && MinorVersion(BuildHeader(bound)[1]) == 6
    ensures BuildHeader(bound)[1] % 0x100 == 0 && BuildHeader(bound)[1] / 0x100_0000 == 0
    ensures ReadBound(BuildHeader(bound) + rest) == Some(bound)
  {
    var ws := BuildHeader(bound) + rest;
    assert ws[0] == MagicNumber && ws[3] == bound && ws[4] == 0;
  }

  // ---------------------------------------------------------------------
  // Instructions
  // ---------------------------------------------------------------------

  /** `Instruction`: an opcode, an optional type id, an optional result id
      and the operand words. */
  datatype Instruction = Instruction(opcode: Opcode, id: Option<Word>, resultId: Option<Word>, operands: seq<Word>)

  function OptionalWord(o: Option<Word>): seq<Word> {
    if o.Some? then [o.value] else []
  }

  /** `length()`: the opcode word, the ids present and the operands. */
  function Length(ins: Instruction): nat {
    1 + |OptionalWord(ins.id)| + |OptionalWord(ins.resultId)| + |ins.operands|
  }

  /** `length()` sums in a `UInt32` and traps when the sum overflows, so an
      instruction can only be built when its length fits in a word. */
  predicate Encodable(ins: Instruction) {
    Length(ins) < 0x1_0000_0000
  }

  /** The first word, `length << 16 | opcode`: the shift drops the bits of
      the length above the 16th, and the opcode fills the zero low half. */
  function FirstWord(length: nat, opcode: Opcode): Word {
    (length % 0x1_0000) * 0x1_0000 + opcode
  }

  /** `buildInstruction`: exactly `length()` words, the first word followed
      by the id, the result id and the operands, in that order. */
  function BuildInstruction(ins: Instruction): (ws: seq<Word>)
    requires Encodable(ins)
    ensures |ws| == Length(ins)
    ensures ws[0] == FirstWord(Length(ins), ins.opcode)
  {
    [FirstWord(Length(ins), ins.opcode)] + OptionalWord(ins.id) + OptionalWord(ins.resultId) + ins.operands
  }

  /** The word count a reader takes from an instruction's first word. */
  function WordCount(w: Word): nat {
    w / 0x1_0000
  }

  /** The opcode a reader takes from an instruction's first word. */
  function OpcodeOf(w: Word): Opcode {
    w % 0x1_0000
  }

  /** A reader recovers the opcode and the length modulo 2^16 from the
      first word; lengths of 2^16 words or more do not survive. */
  lemma FirstWordSplits(length: nat, opcode: Opcode)
    ensures WordCount(FirstWord(length, opcode)) == length % 0x1_0000
    ensures OpcodeOf(FirstWord(length, opcode)) == opcode
  {
  }

  /** Reading one instruction back, given whether its opcode carries a
      type id and a result id: the word count must cover exactly `ws`. */
  function DecodeInstruction(ws: seq<Word>, hasId: bool, hasResultId: bool): (r: Option<Instruction>)
    ensures r.Some? ==> |ws| > 0 && |ws| == WordCount(ws[0]) && r.value.opcode == OpcodeOf(ws[0])
  {
    var ids := (if hasId then 1 else 0) + (if hasResultId then 1 else 0);
    if |ws| == 0 || WordCount(ws[0]) != |ws| || |ws| < 1 + ids then None
    else
      var id := if hasId then Some(ws[1]) else None;
      var resultId := if hasResultId then Some(ws[1 + (if hasId then 1 else 0)]) else None;
      Some(Instruction(OpcodeOf(ws[0]), id, resultId, ws[1 + ids..]))
  }

  /** An instruction shorter than 2^16 words reads back as itself. */
  lemma InstructionRoundTrip(ins: Instruction)
    requires Length(ins) < 0x1_0000
    ensures DecodeInstruction(BuildInstruction(ins), ins.id.Some?, ins.resultId.Some?) == Some(ins)
  {
    var ws := BuildInstruction(ins);
    FirstWordSplits(Length(ins), ins.opcode);
    var ids := (if ins.id.Some? then 1 else 0) + (if ins.resultId.Some? then 1 else 0);
    assert ws[1 + ids..] == ins.operands;
    if ins.id.Some? {
      assert ws[1] == ins.id.value;
    }
  }

  // ---------------------------------------------------------------------
  // Module output
  // ---------------------------------------------------------------------

  function Concat(parts: seq<seq<Word>>): seq<Word> {
    if parts == [] then [] else parts[0] + Concat(parts[1..])
  }

  predicate AllEncodable(instructions: seq<Instruction>) {
    forall k | 0 <= k < |instructions| :: Encodable(instructions[k])
  }

  /** The words of each instruction, in order. */
  function BuildAll(instructions: seq<Instruction>): (parts: seq<seq<Word>>)
    requires AllEncodable(instructions)
    ensures |parts| == |instructions|
    ensures forall k | 0 <= k < |parts| :: parts[k] == BuildInstruction(instructions[k])
  {
    if instructions == [] then [] else [BuildInstruction(instructions[0])] + BuildAll(instructions[1..])
  }

  function TotalLength(instructions: seq<Instruction>): nat {
    if instructions == [] then 0 else Length(instructions[0]) + TotalLength(instructions[1..])
  }

  lemma {:induction false} ConcatLength(instructions: seq<Instruction>)
    requires AllEncodable(instructions)
    ensures |Concat(BuildAll(instructions))| == TotalLength(instructions)
  {
    if instructions != [] {
      ConcatLength(instructions[1..]);
    }
  }

  /** `buildOutput`: the header followed by every instruction's words. Its
      length is five plus the instructions' lengths, and a reader finds the
      bound in it. */
  function BuildOutput(instructions: seq<Instruction>, bound: Word): (ws: seq<Word>)
    requires AllEncodable(instructions)
    ensures |ws| == 5 + TotalLength(instructions)
    ensures ReadBound(ws) == Some(bound)
    ensures ws[5..] == Concat(BuildAll(instructions))
  {
    ConcatLength(instructions);
    HeaderReadsBack(bound, Concat(BuildAll(instructions)));
    BuildHeader(bound) + Concat(BuildAll(instructions))
  }

  /** How a reader walks the instruction stream: each first word says how
      many words the instruction takes. A zero count, or one running past
      the end, is malformed. */
  function SplitInstructions(ws: seq<Word>): Option<seq<seq<Word>>>
    decreases |ws|
  {
    if ws == [] then Some([])
    else
      var n := WordCount(ws[0]);
      if n == 0 || n > |ws| then None
      else
        match SplitInstructions(ws[n..])
        case None => None
        case Some(rest) => Some([ws[..n]] + rest)
  }

  /** A reader that finds a first word counting exactly `first` takes it
      and goes on with the rest. */
  lemma SplitFirst(first: seq<Word>, rest: seq<Word>)
    requires |first| > 0 && WordCount(first[0]) == |first|
    ensures SplitInstructions(rest).Some? ==> SplitInstructions(first + rest) == Some([first] + SplitInstructions(rest).value)
  {
    assert (first + rest)[0] == first[0];
    assert (first + rest)[..|first|] == first;
    assert (first + rest)[|first|..] == rest;
  }

  /** Instructions shorter than 2^16 words can be found again in the
      concatenated stream: a reader recovers every instruction's words. */
  lemma {:induction false} SplitRecoversInstructions(instructions: seq<Instruction>)
    requires forall k | 0 <= k < |instructions| :: Length(instructions[k]) < 0x1_0000
    ensures SplitInstructions(Concat(BuildAll(instructions))) == Some(BuildAll(instructions))
  {
    if instructions != [] {
      var first := BuildInstruction(instructions[0]);
      var rest := Concat(BuildAll(instructions[1..]));
      assert BuildAll(instructions) == [first] + BuildAll(instructions[1..]);
      assert Concat(BuildAll(instructions)) == first + rest;
      FirstWordSplits(Length(instructions[0]), instructions[0].opcode);
      SplitRecoversInstructions(instructions[1..]);
      SplitFirst(first, rest);
    }
  }

  // ---------------------------------------------------------------------
  // Scalar operands
  // ---------------------------------------------------------------------

  /** `appendOperand` for every encoding: the instruction is kept and the
      operand words go after the existing ones. */
  function AppendOperands(ins: Instruction, words: seq<Word>): (r: Instruction)
    ensures r.opcode == ins.opcode && r.id == ins.id && r.resultId == ins.resultId
    ensures |r.operands| == |ins.operands| + |words|
    ensures r.operands[..|ins.operands|] == ins.operands && r.operands[|ins.operands|..] == words
    ensures Length(r) == Length(ins) + |words|
  {
    ins.(operands := ins.operands + words)
  }

  /** `appendOperand(bool:)`: one word, 1 for true and 0 for false. */
  function BoolWord(b: bool): (w: Word)
    ensures w == 0 || w == 1
    ensures (w != 0) == b
  {
    if b then 1 else 0
  }

  predicate IsInt32(i: int) {
    -0x8000_0000 <= i < 0x8000_0000
  }

  /** `appendOperand(int:)`: `UInt32(bitPattern:)`, the two's-complement
      pattern of an `Int32`. */
  function Int32Word(i: int): Word
    requires IsInt32(i)
  {
    if i < 0 then i + 0x1_0000_0000 else i
  }

  /** Reading a word back as an `Int32`. */
  function WordInt32(w: Word): (i: int)
    ensures IsInt32(i)
  {
    if w >= 0x8000_0000 then w - 0x1_0000_0000 else w
  }

  /** The two's-complement pattern round-trips both ways, and the sign
      shows in the top bit. */
  lemma Int32RoundTrip(i: int, w: Word)
    requires IsInt32(i)
    ensures WordInt32(Int32Word(i)) == i
    ensures Int32Word(WordInt32(w)) == w
    ensures (Int32Word(i) >= 0x8000_0000) == (i < 0)
  {
  }

  // ---------------------------------------------------------------------
  // Literal strings
  // ---------------------------------------------------------------------

  /** The value of byte position `m` (0 = lowest) in a word. */
  function Place(m: nat): nat
    requires m < 4
  {
    if m == 0 then 1 else if m == 1 then 0x100 else if m == 2 then 0x1_0000 else 0x100_0000
  }

  /** A byte moved to position `m`: `byte << (8 * m)`. */
  function Placed(b: Byte, m: nat): nat
    requires m < 4
  {
    if m == 0 then b else if m == 1 then 0x100 * b else if m == 2 then 0x1_0000 * b else 0x100_0000 * b
  }

  /** Byte `m` of a word. */
  function ByteOf(w: Word, m: nat): Byte
    requires m < 4
  {
    (w / Place(m)) % 0x100
  }

  /** Byte `k` of a word sequence read as little-endian bytes: byte
      `k mod 4` of word `k div 4`. */
  function ByteAt(words: seq<Word>, k: nat): Byte
    requires k < 4 * |words|
  {
    ByteOf(words[k / 4], k % 4)
  }

  /** `words` is the Literal String packing of `data`: one word more than
      the whole words the bytes fill, the bytes in little-endian order,
      then zero bytes to the end of the last word. */
  predicate Packs(data: seq<Byte>, words: seq<Word>) {
    && |words| == |data| / 4 + 1
    && forall k | 0 <= k < 4 * |words| :: ByteAt(words, k) == if k < |data| then data[k] else 0
  }

  /** Or-ing a byte into a word whose bits from the byte's position up are
      zero is adding it: the step `value |= byte << (8 * j)` of the
      packing loops for j = 1, 2 and 3, written with bit-vectors (for
      j = 0 the word is still zero). */
  lemma OrIsAddAt8(value: bv32, b: bv32)
    requires value < 0x100 && b < 0x100
    ensures value | (b << 8) == value + (b << 8)
  {
  }

  lemma OrIsAddAt16(value: bv32, b: bv32)
    requires value < 0x1_0000 && b < 0x100
    ensures value | (b << 16) == value + (b << 16)
  {
  }

  lemma OrIsAddAt24(value: bv32, b: bv32)
    requires value < 0x100_0000 && b < 0x100
    ensures value | (b << 24) == value + (b << 24)
  {
  }

  /** The word holding four bytes, lowest first. */
  function WordOf(b0: Byte, b1: Byte, b2: Byte, b3: Byte): Word {
    b0 + 0x100 * (b1 + 0x100 * (b2 + 0x100 * b3))
  }

  lemma DivideByByte(q: nat, r: nat)
    requires r < 0x100
    ensures (r + 0x100 * q) % 0x100 == r && (r + 0x100 * q) / 0x100 == q
  {
  }

  /** A word built from four bytes gives them back. */
  lemma WordOfBytes(b0: Byte, b1: Byte, b2: Byte, b3: Byte)
    ensures ByteOf(WordOf(b0, b1, b2, b3), 0) == b0
    ensures ByteOf(WordOf(b0, b1, b2, b3), 1) == b1
    ensures ByteOf(WordOf(b0, b1, b2, b3), 2) == b2
    ensures ByteOf(WordOf(b0, b1, b2, b3), 3) == b3
  {
    var q2 := b2 + 0x100 * b3;
    var q1 := b1 + 0x100 * q2;
    var w := b0 + 0x100 * q1;
    DivideByByte(q1, b0);
    DivideByByte(q2, b1);
    DivideByByte(b3, b2);
    assert w / 0x1_0000 == (w / 0x100) / 0x100;
    assert w / 0x100_0000 == ((w / 0x100) / 0x100) / 0x100;
  }

  /** Byte `m` of the word packed from `data[start..]`, of which the first
      `count` bytes are taken: zero past `count`. */
  function TakenByte(data: seq<Byte>, start: nat, count: nat, m: nat): Byte
    requires start + count <= |data|
  {
    if m < count then data[start + m] else 0
  }

  /** The bytes `data[start..start + j]` placed in one word. */
  function PackedPrefix(data: seq<Byte>, start: nat, j: nat): nat
    requires j <= 4 && start + j <= |data|
  {
    if j == 0 then 0 else PackedPrefix(data, start, j - 1) + Placed(data[start + j - 1], j - 1)
  }

  /** Placing `count` bytes builds the word of those bytes and zeros. */
  lemma {:induction false} PackedPrefixWord(data: seq<Byte>, start: nat, count: nat)
    requires count <= 4 && start + count <= |data|
    ensures PackedPrefix(data, start, count)
         == WordOf(TakenByte(data, start, count, 0), TakenByte(data, start, count, 1),
                   TakenByte(data, start, count, 2), TakenByte(data, start, count, 3))
  {
    if count > 0 {
      PackedPrefixWord(data, start, count - 1);
      PackStep(data, start, count - 1);
    }
  }

  /** One pass of the inner loops of `appendOperand(string:)`: `count`
      bytes from `start`, byte `j` or-ed in at bits `8 * j`. */
  method PackWord(data: seq<Byte>, start: nat, count: nat) returns (value: Word)
    requires count <= 4 && start + count <= |data|
    ensures value == WordOf(TakenByte(data, start, count, 0), TakenByte(data, start, count, 1),
                            TakenByte(data, start, count, 2), TakenByte(data, start, count, 3))
  {
    PackedPrefixWord(data, start, count);
    var acc := 0;
    var j := 0;
    while j < count
      invariant j <= count
      invariant acc == PackedPrefix(data, start, j)
    {
      acc := acc + Placed(data[start + j], j);
      j := j + 1;
    }
    value := acc;
  }

  /** The packed word gives back the bytes taken, and zeros after them. */
  lemma WordBytesTaken(data: seq<Byte>, start: nat, count: nat)
    requires count <= 4 && start + count <= |data|
    ensures forall m | 0 <= m < 4 ::
      ByteOf(WordOf(TakenByte(data, start, count, 0), TakenByte(data, start, count, 1),
                    TakenByte(data, start, count, 2), TakenByte(data, start, count, 3)), m)
      == TakenByte(data, start, count, m)
  {
    WordOfBytes(TakenByte(data, start, count, 0), TakenByte(data, start, count, 1),
                TakenByte(data, start, count, 2), TakenByte(data, start, count, 3));
  }

  /** Taking one byte more adds it at its place. */
  lemma PackStep(data: seq<Byte>, start: nat, j: nat)
    requires j < 4 && start + j < |data|
    ensures WordOf(TakenByte(data, start, j + 1, 0), TakenByte(data, start, j + 1, 1),
                   TakenByte(data, start, j + 1, 2), TakenByte(data, start, j + 1, 3))
         == WordOf(TakenByte(data, start, j, 0), TakenByte(data, start, j, 1),
                   TakenByte(data, start, j, 2), TakenByte(data, start, j, 3)) + Placed(data[start + j], j)
  {
  }

  /** `appendOperand(string:)`'s words for the bytes `data`: the whole
      words first, then one word with the remaining bytes and zeros, so
      the packing always ends in a NUL byte. */
  method PackString(data: seq<Byte>) returns (words: seq<Word>)
    ensures Packs(data, words)
  {
    var div4 := |data| / 4;
    words := [];
    var i := 0;
    while i < div4
      invariant i <= div4 && |words| == i
      invariant forall k | 0 <= k < 4 * i :: ByteAt(words, k) == data[k]
    {
      var value := PackWord(data, i * 4, 4);
      WholeWordStep(data, words, value, i);
      words := words + [value];
      i := i + 1;
    }
    var remainder := |data| - div4 * 4;
    var value := PackWord(data, div4 * 4, remainder);
    LastWordStep(data, words, value);
    words := words + [value];
  }

  /** Appending the word of `count` bytes from `4 * |words|` keeps the
      bytes already packed and adds those bytes, then zeros. */
  lemma AppendWordBytes(data: seq<Byte>, words: seq<Word>, value: Word, count: nat)
    requires count <= 4 && 4 * |words| + count <= |data|
    requires value == WordOf(TakenByte(data, |words| * 4, count, 0), TakenByte(data, |words| * 4, count, 1),
                             TakenByte(data, |words| * 4, count, 2), TakenByte(data, |words| * 4, count, 3))
    ensures forall k | 0 <= k < 4 * |words| :: ByteAt(words + [value], k) == ByteAt(words, k)
    ensures forall k | 4 * |words| <= k < 4 * |words| + 4 ::
      ByteAt(words + [value], k) == TakenByte(data, |words| * 4, count, k - 4 * |words|)
  {
    WordBytesTaken(data, |words| * 4, count);
    var next := words + [value];
    var i := |words|;
    forall k | 0 <= k < 4 * i ensures ByteAt(next, k) == ByteAt(words, k) {
      assert next[k / 4] == words[k / 4];
    }
    forall k | 4 * i <= k < 4 * i + 4 ensures ByteAt(next, k) == TakenByte(data, i * 4, count, k - 4 * i) {
      assert k / 4 == i && k % 4 == k - 4 * i;
      assert next[i] == value;
    }
  }

  lemma WholeWordStep(data: seq<Byte>, words: seq<Word>, value: Word, i: nat)
    requires 4 * i + 4 <= |data| && |words| == i
    requires forall k | 0 <= k < 4 * i :: ByteAt(words, k) == data[k]
    requires value == WordOf(TakenByte(data, i * 4, 4, 0), TakenByte(data, i * 4, 4, 1),
                             TakenByte(data, i * 4, 4, 2), TakenByte(data, i * 4, 4, 3))
    ensures forall k | 0 <= k < 4 * (i + 1) :: ByteAt(words + [value], k) == data[k]
  {
    AppendWordBytes(data, words, value, 4);
  }

  lemma LastWordStep(data: seq<Byte>, words: seq<Word>, value: Word)
    requires |words| == |data| / 4
    requires forall k | 0 <= k < 4 * |words| :: ByteAt(words, k) == data[k]
    requires value == WordOf(TakenByte(data, |words| * 4, |data| - |words| * 4, 0),
                             TakenByte(data, |words| * 4, |data| - |words| * 4, 1),
                             TakenByte(data, |words| * 4, |data| - |words| * 4, 2),
                             TakenByte(data, |words| * 4, |data| - |words| * 4, 3))
    ensures Packs(data, words + [value])
  {
    AppendWordBytes(data, words, value, |data| - |words| * 4);
  }

  /** The packed bytes, in order. */
  function PackedBytes(words: seq<Word>): (bs: seq<Byte>)
    ensures |bs| == 4 * |words|
    ensures forall k | 0 <= k < |bs| :: bs[k] == ByteAt(words, k)
  {
    seq(4 * |words|, k requires 0 <= k < 4 * |words| => ByteAt(words, k))
  }

  /** The bytes before the first NUL. */
  function UntilNul(bs: seq<Byte>): (r: seq<Byte>)
    ensures |r| <= |bs| && 0 !in r
  {
    if bs == [] || bs[0] == 0 then [] else [bs[0]] + UntilNul(bs[1..])
  }

  /** How a consumer reads a Literal String: the bytes up to its NUL. */
  function UnpackString(words: seq<Word>): seq<Byte> {
    UntilNul(PackedBytes(words))
  }

  lemma {:induction false} UntilNulStops(data: seq<Byte>, rest: seq<Byte>)
    requires 0 !in data && |rest| > 0 && rest[0] == 0
    ensures UntilNul(data + rest) == data
  {
    if data == [] {
      assert data + rest == rest;
    } else {
      assert (data + rest)[0] == data[0];
      assert (data + rest)[1..] == data[1..] + rest;
      UntilNulStops(data[1..], rest);
    }
  }

  /** The packing ends in a NUL byte, and when the bytes fill whole words
      that NUL begins a word of zeros. */
  lemma PackedEndsInNul(data: seq<Byte>, words: seq<Word>)
    requires Packs(data, words)
    ensures |data| < 4 * |words| && ByteAt(words, |data|) == 0
    ensures |data| % 4 == 0 ==> words[|words| - 1] == 0
  {
    if |data| % 4 == 0 {
      var last := words[|words| - 1];
      var n := 4 * (|words| - 1);
      assert ByteAt(words, n) == 0 && ByteAt(words, n + 1) == 0 && ByteAt(words, n + 2) == 0 && ByteAt(words, n + 3) == 0;
      assert (n + 1) / 4 == |words| - 1 && (n + 2) / 4 == |words| - 1 && (n + 3) / 4 == |words| - 1;
      ZeroBytesZeroWord(last);
    }
  }

  lemma ZeroBytesZeroWord(w: Word)
    requires ByteOf(w, 0) == 0 && ByteOf(w, 1) == 0 && ByteOf(w, 2) == 0 && ByteOf(w, 3) == 0
    ensures w == 0
  {
    var q1 := w / 0x100;
    var q2 := q1 / 0x100;
    var q3 := q2 / 0x100;
    assert w == 0x100 * q1 + w % 0x100;
    assert q1 == 0x100 * q2 + q1 % 0x100;
    assert q2 == 0x100 * q3 + q2 % 0x100;
    assert w / 0x1_0000 == q2 && w / 0x100_0000 == q3;
  }

  /** A string without NUL bytes reads back from its packing. */
  lemma StringRoundTrip(data: seq<Byte>, words: seq<Word>)
    requires Packs(data, words) && 0 !in data
    ensures UnpackString(words) == data
  {
    var bs := PackedBytes(words);
    PackedEndsInNul(data, words);
    assert bs == data + bs[|data|..] by {
      forall k | 0 <= k < |data| ensures bs[k] == data[k] {
      }
    }
    UntilNulStops(data, bs[|data|..]);
  }

  /** `appendOperand(string:)`. */
  method AppendString(ins: Instruction, data: seq<Byte>) returns (r: Instruction)
    ensures r.opcode == ins.opcode && r.id == ins.id && r.resultId == ins.resultId
    ensures |r.operands| == |ins.operands| + |data| / 4 + 1
    ensures r.operands[..|ins.operands|] == ins.operands
    ensures Packs(data, r.operands[|ins.operands|..])
    ensures Length(r) == Length(ins) + |data| / 4 + 1
  {
    var words := PackString(data);
    r := AppendOperands(ins, words);
  }
}
