/** The data layout the default vertex shader of `DefaultVertexShader.swift`
    agrees on with the rest of the renderer: the member offsets and matrix
    decorations of the `FrameData` uniform block, the members its access
    chains load, its vertex inputs, and the Metal vertex descriptor that
    feeds them. */
module FrameLayout {
  import opened Results

  /** The scalar, vector and matrix types of the shader interface. */
  datatype ShaderType = Float2 | Float3 | Float4 | Float3x3 | Float4x4 | UInt

  /** Bytes a member of this type occupies as the shader reads it:
      matrices are columns laid out at a stride of 16 bytes. */
  function BlockSize(t: ShaderType): nat {
    match t
    case Float2 => 8
    case Float3 => 12
    case Float4 => 16
    case Float3x3 => 48
    case Float4x4 => 64
    case UInt => 4
  }

  /** Size of the simd type on the CPU side: a three-component vector is
      padded to four components, a matrix is its padded columns. */
  function SimdSize(t: ShaderType): nat {
    match t
    case Float2 => 8
    case Float3 => 16
    case Float4 => 16
    case Float3x3 => 48
    case Float4x4 => 64
    case UInt => 4
  }

  /** Alignment of the simd type on the CPU side. */
  function SimdAlign(t: ShaderType): nat {
    match t
    case Float2 => 8
    case UInt => 4
    case _ => 16
  }

  predicate IsMatrix(t: ShaderType) {
    t == Float3x3 || t == Float4x4
  }

  /** The first offset from `n` on that is a multiple of `a`. */
  function AlignUp(n: nat, a: nat): (r: nat)
    requires a > 0
    ensures n <= r < n + a
  {
    if n % a == 0 then n else n + (a - n % a)
  }

  /** `offsets` is where a C compiler places members of types `ts`: the
      first at 0, each later one right after the one before it, moved up to
      the next offset its own alignment allows. */
  predicate NaturalLayout(ts: seq<ShaderType>, offsets: seq<nat>) {
    && |offsets| == |ts|
    && (|ts| > 0 ==> offsets[0] == 0)
    && forall k | 0 <= k < |ts| - 1 ::
         offsets[k + 1] == AlignUp(offsets[k] + SimdSize(ts[k]), SimdAlign(ts[k + 1]))
  }

  /** The natural layout of a struct is determined by its member types. */
  lemma {:induction false} NaturalLayoutUnique(ts: seq<ShaderType>, a: seq<nat>, b: seq<nat>)
    requires NaturalLayout(ts, a) && NaturalLayout(ts, b)
    ensures a == b
  {
    forall k | 0 <= k < |a| ensures a[k] == b[k] {
      NaturalLayoutAgree(ts, a, b, k);
    }
  }

  lemma {:induction false} NaturalLayoutAgree(ts: seq<ShaderType>, a: seq<nat>, b: seq<nat>, k: nat)
    requires NaturalLayout(ts, a) && NaturalLayout(ts, b) && k < |a|
    ensures a[k] == b[k]
  {
    if k > 0 {
      NaturalLayoutAgree(ts, a, b, k - 1);
    }
  }

  // ---------------------------------------------------------------------
  // The FrameData block
  // ---------------------------------------------------------------------

  /** The members of `FrameData`, in declaration order. */
  datatype FrameMember =
    | ProjectionMatrix | ProjectionMatrixInv | ViewMatrix | ViewMatrixInv
    | DepthUnproject | ScreenToViewSpace
    | ModelViewMatrix | NormalMatrix | ModelMatrix
    | AmbientLightColor | DirectionalLightDirection | DirectionalLightColor
    | FramebufferWidth | FramebufferHeight

  const FrameMembers: seq<FrameMember> := [
    ProjectionMatrix, ProjectionMatrixInv, ViewMatrix, ViewMatrixInv,
    DepthUnproject, ScreenToViewSpace,
    ModelViewMatrix, NormalMatrix, ModelMatrix,
    AmbientLightColor, DirectionalLightDirection, DirectionalLightColor,
    FramebufferWidth, FramebufferHeight]

  function MemberType(m: FrameMember): ShaderType {
    match m
    case ProjectionMatrix => Float4x4
    case ProjectionMatrixInv => Float4x4
    case ViewMatrix => Float4x4
    case ViewMatrixInv => Float4x4
    case DepthUnproject => Float2
    case ScreenToViewSpace => Float3
    case ModelViewMatrix => Float4x4
    case NormalMatrix => Float3x3
    case ModelMatrix => Float4x4
    case AmbientLightColor => Float3
    case DirectionalLightDirection => Float3
    case DirectionalLightColor => Float3
    case FramebufferWidth => UInt
    case FramebufferHeight => UInt
  }

  const FrameTypes: seq<ShaderType> := [
    Float4x4, Float4x4, Float4x4, Float4x4, Float2, Float3,
    Float4x4, Float3x3, Float4x4, Float3, Float3, Float3, UInt, UInt]

  /** The decorations a shader gives the frame-data block: the amounts
      added to the running offset after each member, the members given a
      matrix stride and row-major layout, the stride, the descriptor set
      and binding, and whether the type is a Block and the variable
      NonWritable. */
  datatype FrameDecorations = FrameDecorations(
    steps: seq<nat>,
    strideMembers: seq<nat>,
    rowMajorMembers: seq<nat>,
    matrixStride: nat,
    descriptorSet: nat,
    binding: nat,
    block: bool,
    nonWritable: bool)

  /** `frameDataDescriptorSet` and `frameDataBinding`. */
  const FrameDataDescriptorSet: nat := 1
  const FrameDataBinding: nat := 1

  /** What the default vertex shader declares. */
  const VertexFrame := FrameDecorations(
    [64, 64, 64, 64, 16, 16, 64, 48, 64, 16, 16, 16, 4],
    [0, 1, 2, 3, 6, 7, 8],
    [0, 1, 2, 3, 6, 7, 8],
    16, FrameDataDescriptorSet, FrameDataBinding, true, true)

  /** What the fragment shader of `compileToSpirv` declares. */
  const FragmentFrame := FrameDecorations(
    [64, 64, 64, 64, 16, 16, 64, 48, 64, 16, 16, 16, 4],
    [0, 1, 2, 3, 6, 7, 8],
    [0, 1, 2, 3, 6, 7, 8],
    16, 0, 2, true, true)

  /** The offsets the block's members end up with. */
  const FrameOffsets: seq<nat> := [0, 64, 128, 192, 256, 272, 288, 352, 400, 464, 480, 496, 512, 516]

  /** `offsets` starts at 0 and moves on by `steps[k]` after member `k`. */
  predicate RunningOffsets(steps: seq<nat>, offsets: seq<nat>) {
    && |offsets| == |steps| + 1
    && offsets[0] == 0
    && forall k | 0 <= k < |steps| :: offsets[k + 1] == offsets[k] + steps[k]
  }

  /** The decorating code: member `k` gets the running offset, then the
      offset moves on. */
  method DecorateOffsets(steps: seq<nat>) returns (offsets: seq<nat>)
    ensures RunningOffsets(steps, offsets)
  {
    var offset := 0;
    offsets := [];
    var i := 0;
    while i < |steps|
      invariant i <= |steps| && |offsets| == i
      invariant i > 0 ==> offsets[0] == 0
      invariant i == 0 ==> offset == 0
      invariant forall k | 0 <= k < i - 1 :: offsets[k + 1] == offsets[k] + steps[k]
      invariant i > 0 ==> offset == offsets[i - 1] + steps[i - 1]
    {
      offsets := offsets + [offset];
      offset := offset + steps[i];
      i := i + 1;
    }
    offsets := offsets + [offset];
  }

  /** Running offsets are determined by their steps. */
  lemma {:induction false} RunningOffsetsUnique(steps: seq<nat>, a: seq<nat>, b: seq<nat>)
    requires RunningOffsets(steps, a) && RunningOffsets(steps, b)
    ensures a == b
  {
    forall k | 0 <= k < |a| ensures a[k] == b[k] {
      RunningOffsetsAgree(steps, a, b, k);
    }
  }

  lemma {:induction false} RunningOffsetsAgree(steps: seq<nat>, a: seq<nat>, b: seq<nat>, k: nat)
    requires RunningOffsets(steps, a) && RunningOffsets(steps, b) && k < |a|
    ensures a[k] == b[k]
  {
    if k > 0 {
      RunningOffsetsAgree(steps, a, b, k - 1);
    }
  }

  /** Decorating with the vertex shader's steps gives the table of offsets
      0, 64, …, 516, and these are where a C compiler lays out the simd
      members of `FrameData` in declaration order. */
  lemma FrameOffsetsNatural(offsets: seq<nat>)
    requires RunningOffsets(VertexFrame.steps, offsets)
    ensures offsets == FrameOffsets
    ensures NaturalLayout(FrameTypes, offsets)
  {
    assert RunningOffsets(VertexFrame.steps, FrameOffsets);
    RunningOffsetsUnique(VertexFrame.steps, offsets, FrameOffsets);
    NaturalFrameOffsets();
  }

  /** The table is the natural layout of the members' simd types. */
  lemma NaturalFrameOffsets()
    ensures NaturalLayout(FrameTypes, FrameOffsets)
  {
    forall k | 0 <= k < |FrameTypes| - 1
      ensures FrameOffsets[k + 1] == AlignUp(FrameOffsets[k] + SimdSize(FrameTypes[k]), SimdAlign(FrameTypes[k + 1]))
    {
      NaturalFrameStep(k);
    }
  }

  lemma NaturalFrameStep(k: nat)
    requires k < |FrameTypes| - 1
    ensures FrameOffsets[k + 1] == AlignUp(FrameOffsets[k] + SimdSize(FrameTypes[k]), SimdAlign(FrameTypes[k + 1]))
  {
    if k == 0 {} else if k == 1 {} else if k == 2 {} else if k == 3 {} else if k == 4 {} else if k == 5 {} else if k == 6 {} else if k == 7 {} else if k == 8 {} else if k == 9 {} else if k == 10 {} else if k == 11 {}
  }

  /** `FrameTypes` lists each member's type in declaration order. */
  lemma FrameTypesInOrder()
    ensures |FrameTypes| == |FrameMembers|
    ensures forall k | 0 <= k < |FrameMembers| :: FrameTypes[k] == MemberType(FrameMembers[k])
  {
  }

  /** The offsets increase, every member fits before the next one as the
      shader reads it, and every member sits at an offset its simd type's
      alignment allows. */
  lemma FrameMembersApart()
    ensures forall k | 0 <= k < |FrameOffsets| - 1 ::
      FrameOffsets[k] < FrameOffsets[k + 1] && FrameOffsets[k] + BlockSize(FrameTypes[k]) <= FrameOffsets[k + 1]
    ensures forall k | 0 <= k < |FrameOffsets| :: FrameOffsets[k] % SimdAlign(FrameTypes[k]) == 0
  {
  }

  /** Exactly the matrix members carry the MatrixStride and RowMajor
      decorations, the stride is the padded column size, and every matrix
      member is 16-byte aligned. */
  lemma MatrixDecorationsExact()
    ensures forall k | 0 <= k < |FrameTypes| :: (k in VertexFrame.strideMembers) <==> IsMatrix(FrameTypes[k])
    ensures forall k | 0 <= k < |FrameTypes| :: (k in VertexFrame.rowMajorMembers) <==> IsMatrix(FrameTypes[k])
    ensures VertexFrame.matrixStride == SimdSize(Float4) == SimdSize(Float3)
    ensures forall k | 0 <= k < |FrameTypes| :: IsMatrix(FrameTypes[k]) ==> FrameOffsets[k] % 16 == 0
  {
  }

  /** The block is read-only uniform state: the type is a Block and the
      variable NonWritable, in both shaders. The fragment shader repeats
      the vertex shader's layout exactly but binds the block at descriptor
      set 0, binding 2, where the vertex shader uses set 1, binding 1. */
  lemma ShadersShareLayout()
    ensures VertexFrame.block && VertexFrame.nonWritable
    ensures FragmentFrame == VertexFrame.(descriptorSet := 0, binding := 2)
    ensures FragmentFrame.descriptorSet != VertexFrame.descriptorSet && FragmentFrame.binding != VertexFrame.binding
  {
  }

  // ---------------------------------------------------------------------
  // Access chains
  // ---------------------------------------------------------------------

  /** An `OpAccessChain` into the block: the member index constant and the
      type the pointer it produces points to. */
  datatype AccessChain = AccessChain(index: nat, pointee: ShaderType)

  /** The four loads of the vertex main function, each with the member its
      ids are named after. */
  const VertexAccessChains: seq<(FrameMember, AccessChain)> := [
    (ModelMatrix, AccessChain(8, Float4x4)),
    (ProjectionMatrix, AccessChain(0, Float4x4)),
    (ModelViewMatrix, AccessChain(6, Float4x4)),
    (NormalMatrix, AccessChain(7, Float3x3))]

  /** Each access chain selects the member it is named after, and its
      pointer type is that member's type. */
  lemma AccessChainsSelectNamed()
    ensures forall c | c in VertexAccessChains ::
      c.1.index < |FrameMembers| && FrameMembers[c.1.index] == c.0 && MemberType(c.0) == c.1.pointee
  {
  }

  // ---------------------------------------------------------------------
  // Vertex inputs
  // ---------------------------------------------------------------------

  /** The fields of `VertexData`, in declaration order. */
  datatype VertexField = Position | TexCoord | Normal | Tangent | Bitangent

  const VertexDataFields: seq<VertexField> := [Position, TexCoord, Normal, Tangent, Bitangent]

  function FieldType(f: VertexField): ShaderType {
    if f == TexCoord then Float2 else Float3
  }

  /** An input variable of the vertex shader. */
  datatype InputVariable = InputVariable(field: VertexField, location: nat, ty: ShaderType)

  const VertexInputs: seq<InputVariable> := [
    InputVariable(Position, 0, Float4),
    InputVariable(TexCoord, 1, Float2),
    InputVariable(Normal, 2, Float3),
    InputVariable(Tangent, 3, Float3),
    InputVariable(Bitangent, 4, Float3)]

  const VertexDataTypes: seq<ShaderType> := [Float3, Float2, Float3, Float3, Float3]

  /** A Metal vertex attribute: its format and its offset in the vertex. */
  datatype Attribute = Attribute(format: ShaderType, offset: nat, bufferIndex: nat)

  const MetalAttributes: seq<Attribute> := [
    Attribute(Float3, 0, 0),
    Attribute(Float2, 16, 0),
    Attribute(Float3, 32, 0),
    Attribute(Float3, 48, 0),
    Attribute(Float3, 64, 0)]

  const MetalStride: nat := 80

  function Components(t: ShaderType): nat {
    match t
    case Float2 => 2
    case Float3 => 3
    case Float4 => 4
    case Float3x3 => 9
    case Float4x4 => 16
    case UInt => 1
  }

  /** The input at location `k` reads field `k` of `VertexData` from
      attribute `k`, whose format is that field's type; an input with more
      components than its attribute (the float4 position fed from a
      float3) is filled in by the vertex fetch. */
  lemma InputsFollowVertexData()
    ensures |VertexInputs| == |VertexDataFields| == |MetalAttributes|
    ensures forall k | 0 <= k < |VertexInputs| ::
      && VertexInputs[k].location == k
      && VertexInputs[k].field == VertexDataFields[k]
      && MetalAttributes[k].format == FieldType(VertexDataFields[k])
      && Components(VertexInputs[k].ty) >= Components(MetalAttributes[k].format)
  {
  }

  /** The descriptor's offsets are where a C compiler places the simd
      fields of `VertexData`, the attributes do not overlap, and the stride
      is the size of the padded struct. */
  lemma AttributesMatchVertexData()
    ensures NaturalLayout(VertexDataTypes, seq(|MetalAttributes|, k requires 0 <= k < |MetalAttributes| => MetalAttributes[k].offset))
    ensures forall k | 0 <= k < |MetalAttributes| - 1 ::
      MetalAttributes[k].offset + SimdSize(MetalAttributes[k].format) <= MetalAttributes[k + 1].offset
    ensures MetalAttributes[4].offset + SimdSize(MetalAttributes[4].format) == MetalStride
    ensures MetalStride == AlignUp(MetalStride, 16)
  {
  }
}
