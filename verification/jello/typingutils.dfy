/** The editor's port typing of `TypingUtils.swift`: which data type an
    edge may carry into which port, and the type an edge takes when it
    joins two ports. The wildcard `anyFloat` stands for the four float
    types, `anyTexture` for the three textures, `anyMaterial` for the slab
    material, and `any` for every type. */
module TypingUtils {

  /** `JelloGraphDataType`. */
  datatype DataType =
    | Any | AnyFloat | Float4 | Float3 | Float2 | Float | Int | Bool
    | AnyTexture | Texture1d | Texture2d | Texture3d
    | AnyMaterial | SlabMaterial

  predicate IsFloat(t: DataType) {
    t == Float || t == Float2 || t == Float3 || t == Float4
  }

  predicate IsTexture(t: DataType) {
    t == Texture1d || t == Texture2d || t == Texture3d
  }

  /** `isPortTypeCompatible(edge:port:)`: the cases in the order the
      switch tries them, one branch per group of cases. */
  function IsPortTypeCompatible(edge: DataType, port: DataType): bool {
    if port == Any || edge == Any then true
    else if edge == port then true
    else if port == AnyFloat then IsFloat(edge)
    else if edge == AnyFloat then IsFloat(port)
    else if port == AnyTexture then IsTexture(edge)
    else if edge == AnyTexture then IsTexture(port)
    else if edge == AnyMaterial && port == SlabMaterial then true
    else if edge == SlabMaterial && port == AnyMaterial then true
    else false
  }

  /** The types a wildcard stands for; empty for every other type. */
  function Members(t: DataType): set<DataType> {
    match t
    case AnyFloat => {Float, Float2, Float3, Float4}
    case AnyTexture => {Texture1d, Texture2d, Texture3d}
    case AnyMaterial => {SlabMaterial}
    case _ => {}
  }

  predicate IsWildcard(t: DataType) {
    t == Any || t == AnyFloat || t == AnyTexture || t == AnyMaterial
  }

  /** Two types are compatible when either is `any`, they are equal, or
      one is a wildcard standing for the other. */
  predicate Compatible(a: DataType, b: DataType) {
    a == Any || b == Any || a == b || a in Members(b) || b in Members(a)
  }

  /** The switch decides exactly the wildcard rule. */
  lemma CompatibilityIsWildcardRule(a: DataType, b: DataType)
    ensures IsPortTypeCompatible(a, b) == Compatible(a, b)
  {
  }

  /** Compatibility is symmetric and reflexive, and `any` is compatible
      with every type in either position. */
  lemma CompatibilitySymmetric(a: DataType, b: DataType)
    ensures IsPortTypeCompatible(a, b) == IsPortTypeCompatible(b, a)
    ensures IsPortTypeCompatible(a, a)
    ensures IsPortTypeCompatible(a, Any) && IsPortTypeCompatible(Any, a)
  {
    CompatibilityIsWildcardRule(a, b);
    CompatibilityIsWildcardRule(b, a);
  }

  /** What each wildcard is compatible with, in either position, and that
      distinct types that are not wildcards are incompatible. */
  lemma WildcardCompatibility(t: DataType)
    ensures IsPortTypeCompatible(AnyFloat, t) == IsPortTypeCompatible(t, AnyFloat)
      == (t in {Any, AnyFloat, Float, Float2, Float3, Float4})
    ensures IsPortTypeCompatible(AnyTexture, t) == IsPortTypeCompatible(t, AnyTexture)
      == (t in {Any, AnyTexture, Texture1d, Texture2d, Texture3d})
    ensures IsPortTypeCompatible(AnyMaterial, t) == IsPortTypeCompatible(t, AnyMaterial)
      == (t in {Any, AnyMaterial, SlabMaterial})
    ensures forall u | !IsWildcard(t) && !IsWildcard(u) && t != u :: !IsPortTypeCompatible(t, u)
  {
  }

  // ---------------------------------------------------------------------
  // The most specific type
  // ---------------------------------------------------------------------

  /** `getMostSpecificType(a:b:)` as written: the cases in the order the
      switch tries them. `anyMaterial` is not among the wildcards it
      skips, and a wildcard in first place gives way even to `any`. */
  function GetMostSpecificTypeAsWritten(a: DataType, b: DataType): DataType {
    if a == b then a
    else if a == Any || a == AnyFloat || a == AnyTexture then b
    else if b == Any || b == AnyFloat || b == AnyTexture then a
    else a
  }

  /** The concrete types a port of type `t` can end up holding. */
  function Concretes(t: DataType): (r: set<DataType>)
    ensures forall c | c in r :: !IsWildcard(c)
  {
    if t == Any then {Float4, Float3, Float2, Float, Int, Bool, Texture1d, Texture2d, Texture3d, SlabMaterial}
    else if IsWildcard(t) then Members(t)
    else {t}
  }

  /** `any` below the other wildcards below the concrete types. */
  function Specificity(t: DataType): nat {
    if t == Any then 0 else if IsWildcard(t) then 1 else 2
  }

  /** The more specific of the two types, the first on a tie. */
  function MostSpecificType(a: DataType, b: DataType): (r: DataType)
    ensures r == a || r == b
    ensures Specificity(r) >= Specificity(a) && Specificity(r) >= Specificity(b)
  {
    if Specificity(b) > Specificity(a) then b else a
  }

  /** For compatible types, the most specific type allows exactly the
      concrete types both allow, and does not depend on the order of the
      two. */
  lemma MostSpecificTypeMeets(a: DataType, b: DataType)
    requires Compatible(a, b)
    ensures Concretes(MostSpecificType(a, b)) == Concretes(a) * Concretes(b)
    ensures MostSpecificType(a, b) == MostSpecificType(b, a)
  {
  }

  /** What the switch as written does get right: it returns one of its
      arguments, `x` for `(x, x)`, the other argument when the first is
      `any`, and the first argument when neither is a wildcard. */
  lemma AsWrittenBasics(a: DataType, b: DataType)
    ensures GetMostSpecificTypeAsWritten(a, b) in {a, b}
    ensures GetMostSpecificTypeAsWritten(a, a) == a
    ensures GetMostSpecificTypeAsWritten(Any, b) == b
    ensures !IsWildcard(a) && !IsWildcard(b) ==> GetMostSpecificTypeAsWritten(a, b) == a
  {
  }

  /** On compatible types the switch as written gives the most specific
      type except in exactly three cases: `anyFloat` or `anyTexture`
      joined with `any` gives `any`, and `anyMaterial` joined with the
      slab material gives `anyMaterial`. */
  lemma AsWrittenDiffersExactly(a: DataType, b: DataType)
    requires Compatible(a, b)
    ensures GetMostSpecificTypeAsWritten(a, b) != MostSpecificType(a, b) <==>
      ((a == AnyFloat || a == AnyTexture) && b == Any) || (a == AnyMaterial && b == SlabMaterial)
  {
    if a == b || a == Any {
    } else if Specificity(a) == 2 {
      assert !IsWildcard(b) ==> a == b;
    }
  }

  /** The switch as written loses the float wildcard when it comes
      first, yet keeps it when it comes second, and likewise lets
      `anyMaterial` hide the slab material. */
  lemma AsWrittenLosesSpecificity()
    ensures Compatible(AnyFloat, Any) && Compatible(AnyMaterial, SlabMaterial)
    ensures GetMostSpecificTypeAsWritten(AnyFloat, Any) == Any
    ensures GetMostSpecificTypeAsWritten(Any, AnyFloat) == AnyFloat
    ensures Concretes(GetMostSpecificTypeAsWritten(AnyFloat, Any)) != Concretes(AnyFloat) * Concretes(Any)
    ensures GetMostSpecificTypeAsWritten(AnyMaterial, SlabMaterial) == AnyMaterial
    ensures GetMostSpecificTypeAsWritten(SlabMaterial, AnyMaterial) == SlabMaterial
  {
    assert Int in Concretes(Any) && Int !in Concretes(AnyFloat);
  }
}
