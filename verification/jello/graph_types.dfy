/** The compiler's port type lattice: the concrete types a port can finally
    carry, the graph types (some of them wildcards) that ports are declared
    with, their classification by composite size, dimensionality and rank, and
    the domain of concrete types each graph type stands for. */
module GraphTypes {
  import opened Results
  import opened Sequences

  /** Number of scalar components. */
  datatype CompositeSize = S1 | S2 | S3 | S4

  datatype Dimensionality = D1 | D2 | D3 | D4

  /** The dimension of a texture or procedural field (1d, 2d or 3d). */
  datatype FieldDim = Dim1 | Dim2 | Dim3

  function DimensionalityOfField(d: FieldDim): Dimensionality {
    match d
    case Dim1 => D1
    case Dim2 => D2
    case Dim3 => D3
  }

  /** A concrete data type. `Texture(Dim2, S3)` is the source's
      `texture2d_float3`, `ProceduralField(Dim1, S4)` its
      `proceduralField1d_float4`. */
  datatype ConcreteType =
    | Float | Float2 | Float3 | Float4 | Int | Bool
    | Texture(dim: FieldDim, channels: CompositeSize)
    | ProceduralField(dim: FieldDim, channels: CompositeSize)
    | SlabMaterial
  {
    function Composite(): Option<CompositeSize> {
      match this
      case Float => Some(S1)
      case Float2 => Some(S2)
      case Float3 => Some(S3)
      case Float4 => Some(S4)
      case Int => Some(S1)
      case Bool => Some(S1)
      case Texture(_, c) => Some(c)
      case ProceduralField(_, c) => Some(c)
      case SlabMaterial => None
    }

    function Dimension(): Option<Dimensionality> {
      match this
      case Float => Some(D1)
      case Float2 => Some(D2)
      case Float3 => Some(D3)
      case Float4 => Some(D4)
      case Int => Some(D1)
      case Bool => Some(D1)
      case Texture(d, _) => Some(DimensionalityOfField(d))
      case ProceduralField(d, _) => Some(DimensionalityOfField(d))
      case SlabMaterial => None
    }

    /** Every concrete type has the same rank. */
    function Rank(): int {
      1
    }
  }

  /** Which family of fields a field wildcard ranges over. */
  datatype FieldFamily = Fields | Textures | ProceduralFields

  /** The optional narrowing of a field wildcard: `anyTexture_float2` is
      `AnyOf(Textures, WithChannels(S2))`, `anyField_3d` is
      `AnyOf(Fields, WithDim(Dim3))`. */
  datatype FieldFilter = Unfiltered | WithChannels(channels: CompositeSize) | WithDim(dim: FieldDim)

  /** A graph (declared) data type: a concrete type, or a wildcard. */
  datatype GraphType =
    | Any
    | AnyFloat
    | AnyFloat123
    | AnyMaterial
    | Exactly(concrete: ConcreteType)
    | AnyOf(family: FieldFamily, filter: FieldFilter)
  {
    predicate IsWildcard() {
      !Exactly?
    }

    function Composite(): Option<CompositeSize> {
      match this
      case Exactly(c) => c.Composite()
      case AnyOf(_, WithChannels(c)) => Some(c)
      case _ => None
    }

    function Dimension(): Option<Dimensionality> {
      match this
      case Exactly(c) => c.Dimension()
      case AnyOf(_, WithDim(d)) => Some(DimensionalityOfField(d))
      case _ => None
    }

    function Rank(): int {
      match this
      case Any => 1
      case AnyFloat => 2
      case AnyOf(Fields, Unfiltered) => 2
      case AnyMaterial => 2
      case AnyOf(Fields, _) => 3
      case AnyOf(_, Unfiltered) => 3
      case AnyOf(_, _) => 4
      case AnyFloat123 => 4
      case Exactly(_) => 5
    }
  }

  function DimIndex(d: FieldDim): (k: nat)
    ensures k < 3
  {
    match d
    case Dim1 => 0
    case Dim2 => 1
    case Dim3 => 2
  }

  function ChannelIndex(ch: CompositeSize): (k: nat)
    ensures k < 4
  {
    match ch
    case S1 => 0
    case S2 => 1
    case S3 => 2
    case S4 => 3
  }

  function DimAt(k: nat): (d: FieldDim)
    requires k < 3
    ensures DimIndex(d) == k
  {
    if k == 0 then Dim1 else if k == 1 then Dim2 else Dim3
  }

  function ChannelAt(k: nat): (ch: CompositeSize)
    requires k < 4
    ensures ChannelIndex(ch) == k
  {
    if k == 0 then S1 else if k == 1 then S2 else if k == 2 then S3 else S4
  }

  /** The position of a concrete type in `JelloConcreteDataType.allCases`:
      the six scalar types, then the twelve textures (by dimension, then
      channel count), then the twelve procedural fields, then the material. */
  function CaseIndex(c: ConcreteType): (i: nat)
    ensures i < 31
    ensures 6 <= i < 18 <==> c.Texture?
    ensures 18 <= i < 30 <==> c.ProceduralField?
  {
    match c
    case Float => 0
    case Float2 => 1
    case Float3 => 2
    case Float4 => 3
    case Int => 4
    case Bool => 5
    case Texture(d, ch) => 6 + 4 * DimIndex(d) + ChannelIndex(ch)
    case ProceduralField(d, ch) => 18 + 4 * DimIndex(d) + ChannelIndex(ch)
    case SlabMaterial => 30
  }

  /** The concrete type at position `i` of `allCases`; the inverse of `CaseIndex`. */
  function CaseAt(i: nat): (c: ConcreteType)
    requires i < 31
    ensures CaseIndex(c) == i
  {
    if i == 0 then Float
    else if i == 1 then Float2
    else if i == 2 then Float3
    else if i == 3 then Float4
    else if i == 4 then Int
    else if i == 5 then Bool
    else if i < 18 then Texture(DimAt((i - 6) / 4), ChannelAt((i - 6) % 4))
    else if i < 30 then ProceduralField(DimAt((i - 18) / 4), ChannelAt((i - 18) % 4))
    else SlabMaterial
  }

  lemma CaseAtIndex(c: ConcreteType)
    ensures CaseAt(CaseIndex(c)) == c
  {
  }

  /** `JelloConcreteDataType.allCases`, in declaration order. */
  function AllConcrete(): (r: seq<ConcreteType>)
    ensures |r| == 31
    ensures forall i | 0 <= i < 31 :: CaseIndex(r[i]) == i
  {
    seq(31, i requires 0 <= i < 31 => CaseAt(i))
  }

  /** The textures, in `allCases` order (the order `anyTexture` and `anyField` list them). */
  const AllTextures: seq<ConcreteType> := AllConcrete()[6..18]

  /** The procedural fields, in `allCases` order. */
  const AllProceduralFields: seq<ConcreteType> := AllConcrete()[18..30]

  function TextureRow(d: FieldDim): (r: seq<ConcreteType>)
    ensures forall c | c in r :: c.Texture? && c.dim == d
  {
    [Texture(d, S1), Texture(d, S2), Texture(d, S3), Texture(d, S4)]
  }

  function ProceduralRow(d: FieldDim): (r: seq<ConcreteType>)
    ensures forall c | c in r :: c.ProceduralField? && c.dim == d
  {
    [ProceduralField(d, S1), ProceduralField(d, S2), ProceduralField(d, S3), ProceduralField(d, S4)]
  }

  function TextureColumn(ch: CompositeSize): (r: seq<ConcreteType>)
    ensures forall c | c in r :: c.Texture? && c.channels == ch
  {
    [Texture(Dim1, ch), Texture(Dim2, ch), Texture(Dim3, ch)]
  }

  function ProceduralColumn(ch: CompositeSize): (r: seq<ConcreteType>)
    ensures forall c | c in r :: c.ProceduralField? && c.channels == ch
  {
    [ProceduralField(Dim1, ch), ProceduralField(Dim2, ch), ProceduralField(Dim3, ch)]
  }

  lemma RowComplete(c: ConcreteType)
    requires c.Texture? || c.ProceduralField?
    ensures c.Texture? ==> c in TextureRow(c.dim)
    ensures c.ProceduralField? ==> c in ProceduralRow(c.dim)
  {
    match c.channels
    case S1 =>
    case S2 =>
    case S3 =>
    case S4 =>
  }

  lemma ColumnComplete(c: ConcreteType)
    requires c.Texture? || c.ProceduralField?
    ensures c.Texture? ==> c in TextureColumn(c.channels)
    ensures c.ProceduralField? ==> c in ProceduralColumn(c.channels)
  {
    match c.dim
    case Dim1 =>
    case Dim2 =>
    case Dim3 =>
  }

  /** The domain of concrete types a port declared with `g` may take, in the
      order the search tries them. */
  function GetDomain(g: GraphType): (r: seq<ConcreteType>)
    ensures |r| > 0
    ensures g.Exactly? ==> r == [g.concrete]
  {
    match g
    case Any => AllConcrete()
    case AnyFloat => [Float, Float2, Float3, Float4]
    case AnyFloat123 => [Float, Float2, Float3]
    case AnyMaterial => [SlabMaterial]
    case Exactly(c) => [c]
    case AnyOf(Fields, Unfiltered) => AllTextures + AllProceduralFields
    case AnyOf(Fields, WithChannels(ch)) => ProceduralColumn(ch) + TextureColumn(ch)
    case AnyOf(Fields, WithDim(d)) => ProceduralRow(d) + TextureRow(d)
    case AnyOf(ProceduralFields, Unfiltered) => AllProceduralFields
    case AnyOf(ProceduralFields, WithChannels(ch)) => ProceduralColumn(ch)
    case AnyOf(ProceduralFields, WithDim(d)) => ProceduralRow(d)
    case AnyOf(Textures, Unfiltered) => AllTextures
    case AnyOf(Textures, WithChannels(ch)) => TextureColumn(ch)
    case AnyOf(Textures, WithDim(d)) => TextureRow(d)
  }

  /** What each graph type admits, stated by the properties of the concrete
      type rather than by listing it. */
  predicate Admits(g: GraphType, c: ConcreteType) {
    match g
    case Any => true
    case AnyFloat => c.Float? || c.Float2? || c.Float3? || c.Float4?
    case AnyFloat123 => c.Float? || c.Float2? || c.Float3?
    case AnyMaterial => c.SlabMaterial?
    case Exactly(x) => c == x
    case AnyOf(fam, f) =>
      && (c.Texture? || c.ProceduralField?)
      && (fam == Textures ==> c.Texture?)
      && (fam == ProceduralFields ==> c.ProceduralField?)
      && (f.WithChannels? ==> c.channels == f.channels)
      && (f.WithDim? ==> c.dim == f.dim)
  }

  /** `allCases` holds every concrete type, each at its `CaseIndex`. */
  lemma AllConcreteComplete(c: ConcreteType)
    ensures AllConcrete()[CaseIndex(c)] == c
    ensures c in AllConcrete()
  {
    CaseAtIndex(c);
  }

  lemma AllTexturesMeaning(c: ConcreteType)
    ensures c in AllTextures <==> c.Texture?
  {
    if c.Texture? {
      AllConcreteComplete(c);
      assert AllTextures[CaseIndex(c) - 6] == c;
    }
  }

  lemma AllProceduralFieldsMeaning(c: ConcreteType)
    ensures c in AllProceduralFields <==> c.ProceduralField?
  {
    if c.ProceduralField? {
      AllConcreteComplete(c);
      assert AllProceduralFields[CaseIndex(c) - 18] == c;
    }
  }

  lemma UnfilteredDomainMeaning(fam: FieldFamily, c: ConcreteType)
    ensures c in GetDomain(AnyOf(fam, Unfiltered)) <==> Admits(AnyOf(fam, Unfiltered), c)
  {
    AllTexturesMeaning(c);
    AllProceduralFieldsMeaning(c);
  }

  lemma ChannelDomainMeaning(fam: FieldFamily, ch: CompositeSize, c: ConcreteType)
    ensures c in GetDomain(AnyOf(fam, WithChannels(ch))) <==> Admits(AnyOf(fam, WithChannels(ch)), c)
  {
    if c.Texture? || c.ProceduralField? {
      ColumnComplete(c);
    }
  }

  lemma DimDomainMeaning(fam: FieldFamily, d: FieldDim, c: ConcreteType)
    ensures c in GetDomain(AnyOf(fam, WithDim(d))) <==> Admits(AnyOf(fam, WithDim(d)), c)
  {
    if c.Texture? || c.ProceduralField? {
      RowComplete(c);
    }
  }

  /** A concrete type is in a graph type's domain exactly when the graph type
      admits it. */
  lemma DomainMeansAdmits(g: GraphType, c: ConcreteType)
    ensures c in GetDomain(g) <==> Admits(g, c)
  {
    match g
    case Any => AllConcreteComplete(c);
    case AnyOf(fam, Unfiltered) => UnfilteredDomainMeaning(fam, c);
    case AnyOf(fam, WithChannels(ch)) => ChannelDomainMeaning(fam, ch, c);
    case AnyOf(fam, WithDim(d)) => DimDomainMeaning(fam, d, c);
    case _ =>
  }


  /** `allCases` lists every concrete type once. */
  lemma AllConcreteNoDuplicates()
    ensures NoDuplicates(AllConcrete())
  {
    forall i, j | 0 <= i < j < |AllConcrete()|
      ensures AllConcrete()[i] != AllConcrete()[j]
    {
      assert CaseIndex(AllConcrete()[i]) == i;
      assert CaseIndex(AllConcrete()[j]) == j;
    }
  }

  /** Every domain lists each of its concrete types once. */
  lemma DomainHasNoDuplicates(g: GraphType)
    ensures NoDuplicates(GetDomain(g))
  {
    AllConcreteNoDuplicates();
    NoDuplicatesSlice(AllConcrete(), 6, 18);
    NoDuplicatesSlice(AllConcrete(), 18, 30);
    match g
    case AnyOf(Fields, Unfiltered) =>
      assert AllTextures + AllProceduralFields == AllConcrete()[6..30];
      NoDuplicatesSlice(AllConcrete(), 6, 30);
    case AnyOf(Fields, WithChannels(ch)) =>
      NoDuplicatesConcat(ProceduralColumn(ch), TextureColumn(ch));
    case AnyOf(Fields, WithDim(d)) =>
      NoDuplicatesConcat(ProceduralRow(d), TextureRow(d));
    case _ =>
  }

  /** A graph type with a known composite size (or dimensionality) only admits
      concrete types of that size (or dimensionality). */
  lemma DomainAgreesWithClassification(g: GraphType, c: ConcreteType)
    requires c in GetDomain(g)
    ensures g.Composite().Some? ==> c.Composite() == g.Composite()
    ensures g.Dimension().Some? ==> c.Dimension() == g.Dimension()
  {
    DomainMeansAdmits(g, c);
  }

  /** `anyField` is exactly `anyTexture` together with `anyProceduralField`,
      and the same split holds for every channel and dimension filter. */
  lemma FieldDomainSplits(f: FieldFilter, c: ConcreteType)
    ensures c in GetDomain(AnyOf(Fields, f))
        <==> c in GetDomain(AnyOf(Textures, f)) || c in GetDomain(AnyOf(ProceduralFields, f))
  {
    DomainMeansAdmits(AnyOf(Fields, f), c);
    DomainMeansAdmits(AnyOf(Textures, f), c);
    DomainMeansAdmits(AnyOf(ProceduralFields, f), c);
  }
}
