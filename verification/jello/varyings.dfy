/** The values the default vertex shader hands to the fragment shader that
    `compileToSpirv` builds. A fragment input at location L receives the
    vertex output decorated with location L; the two shaders must agree
    on which value sits at which location (the interface matching rule of
    the Vulkan specification, section 15.1.3 "Interface Matching", which
    SPIRV-Cross carries over to Metal's user attributes).

    The vertex shader numbers its outputs from a `modelPos` output at
    location 0 that it never writes, while the fragment shader numbers its
    inputs from 0 without it, so every fragment input reads the output one
    place before the value it is named after. Two corrections restore the
    match: `VertexOutputsRelocated` drops `modelPos` (which the vertex
    entry point's interface list already leaves out) and numbers the
    remaining outputs from 0, which is the Metal output the vertex
    shader's own test expects; `FragmentInputs` instead moves the fragment
    inputs one location on. */
module Varyings {
  import opened Results
  import opened FrameLayout

  /** The values passed from the vertex to the fragment stage. */
  datatype Varying = ClipPosition | ModelPos | WorldPos | TexCoordOut | TangentOut | BitangentOut | NormalOut

  datatype Placement = BuiltIn | Location(n: nat)

  /** An output variable of the vertex shader, and whether its main
      function stores a value into it. */
  datatype Output = Output(varying: Varying, placement: Placement, ty: ShaderType, stored: bool)

  /** An input variable of the fragment shader. */
  datatype Input = Input(varying: Varying, location: nat, ty: ShaderType)

  /** The vertex shader's outputs in declaration order. `modelPos` is
      declared at location 0 but nothing is stored into it. */
  const VertexOutputs: seq<Output> := [
    Output(ClipPosition, BuiltIn, Float4, true),
    Output(ModelPos, Location(0), Float4, false),
    Output(WorldPos, Location(1), Float4, true),
    Output(TexCoordOut, Location(2), Float2, true),
    Output(TangentOut, Location(3), Float3, true),
    Output(BitangentOut, Location(4), Float3, true),
    Output(NormalOut, Location(5), Float3, true)]

  /** The outputs the vertex entry point lists in its interface, in the
      order listed: every output but `modelPos`. */
  const VertexInterface: seq<Varying> := [ClipPosition, WorldPos, TexCoordOut, TangentOut, BitangentOut, NormalOut]

  /** A location moved one place down; built-ins stay. */
  function MovedDown(p: Placement): Placement {
    if p.Location? && p.n > 0 then Location(p.n - 1) else p
  }

  /** The vertex outputs the interface lists, in order, with every location
      moved one place down: the numbering from 0 of the outputs the vertex
      stage actually hands on. */
  function Relocate(outputs: seq<Output>, interface: seq<Varying>): (r: seq<Output>)
    ensures |r| <= |outputs|
  {
    if outputs == [] then []
    else
      var p := outputs[0];
      (if p.varying in interface then [p.(placement := MovedDown(p.placement))] else []) + Relocate(outputs[1..], interface)
  }

  /** Relocating keeps exactly the listed outputs, each moved down. */
  lemma {:induction false} RelocateKeepsListed(outputs: seq<Output>, interface: seq<Varying>)
    ensures forall o | o in Relocate(outputs, interface) :: o.varying in interface
    ensures forall p | p in outputs && p.varying in interface :: p.(placement := MovedDown(p.placement)) in Relocate(outputs, interface)
  {
    if outputs != [] {
      RelocateKeepsListed(outputs[1..], interface);
      assert forall p | p in outputs :: p == outputs[0] || p in outputs[1..];
    }
  }

  /** The vertex outputs numbered from 0 without `modelPos`: the Metal
      output the vertex shader's test expects, with the world position,
      texture coordinate, tangent, bitangent and normal at locations 0 to 4. */
  const VertexOutputsRelocated: seq<Output> := [
    Output(ClipPosition, BuiltIn, Float4, true),
    Output(WorldPos, Location(0), Float4, true),
    Output(TexCoordOut, Location(1), Float2, true),
    Output(TangentOut, Location(2), Float3, true),
    Output(BitangentOut, Location(3), Float3, true),
    Output(NormalOut, Location(4), Float3, true)]

  /** The fragment shader's inputs as written. */
  const FragmentInputsAsWritten: seq<Input> := [
    Input(WorldPos, 0, Float4),
    Input(TexCoordOut, 1, Float2),
    Input(TangentOut, 2, Float3),
    Input(BitangentOut, 3, Float3),
    Input(NormalOut, 4, Float3)]

  /** The fragment shader's inputs at the locations the vertex shader
      writes them to. */
  const FragmentInputs: seq<Input> := [
    Input(WorldPos, 1, Float4),
    Input(TexCoordOut, 2, Float2),
    Input(TangentOut, 3, Float3),
    Input(BitangentOut, 4, Float3),
    Input(NormalOut, 5, Float3)]

  /** No two outputs share a location. */
  predicate DistinctLocations(outputs: seq<Output>) {
    forall j, k | 0 <= j < k < |outputs| :: outputs[j].placement.Location? ==> outputs[j].placement != outputs[k].placement
  }

  /** The input receives the value it is named after: an output at its
      location carries that value, with the same type, and the vertex
      shader stores it. */
  predicate Receives(outputs: seq<Output>, i: Input) {
    exists o | o in outputs :: o.placement == Location(i.location) && o.varying == i.varying && o.ty == i.ty && o.stored
  }

  /** The vertex shader gives each location to one output. */
  lemma VertexLocationsDistinct()
    ensures DistinctLocations(VertexOutputs)
  {
  }

  /** As written, no fragment input receives its value. */
  lemma AsWrittenNoneReceive()
    ensures forall k | 0 <= k < |FragmentInputsAsWritten| :: !Receives(VertexOutputs, FragmentInputsAsWritten[k])
  {
  }

  /** As written, each fragment input reads the vertex output one place
      before the value it is named after. */
  lemma AsWrittenReadsOneBefore()
    ensures forall k | 0 <= k < |FragmentInputsAsWritten| ::
      var i := FragmentInputsAsWritten[k];
      exists o | o in VertexOutputs :: o.placement == Location(i.location + 1) && o.varying == i.varying
  {
    forall k | 0 <= k < |FragmentInputsAsWritten|
      ensures var i := FragmentInputsAsWritten[k];
        exists o | o in VertexOutputs :: o.placement == Location(i.location + 1) && o.varying == i.varying
    {
      assert VertexOutputs[k + 2] in VertexOutputs;
    }
  }

  /** The world position is read from `modelPos`, which is never stored,
      and the texture coordinate, a float2, from the float4 world
      position. */
  lemma AsWrittenWrongValues()
    ensures FragmentInputsAsWritten[0] == Input(WorldPos, 0, Float4)
    ensures forall o | o in VertexOutputs && o.placement == Location(0) :: o.varying == ModelPos && !o.stored
    ensures FragmentInputsAsWritten[1] == Input(TexCoordOut, 1, Float2)
    ensures forall o | o in VertexOutputs && o.placement == Location(1) :: o.varying == WorldPos && o.ty == Float4
  {
  }

  /** With the corrected locations every fragment input receives its
      value. */
  lemma CorrectedInputsReceive()
    ensures forall k | 0 <= k < |FragmentInputs| :: Receives(VertexOutputs, FragmentInputs[k])
  {
    forall k | 0 <= k < |FragmentInputs| ensures Receives(VertexOutputs, FragmentInputs[k]) {
      assert VertexOutputs[k + 2] in VertexOutputs;
    }
  }

  /** Every stored, located output of the vertex shader is read by the
      corrected fragment shader at its location and type. */
  lemma CorrectedInputsCover()
    ensures forall j | 0 <= j < |VertexOutputs| && VertexOutputs[j].placement.Location? && VertexOutputs[j].stored ::
      var o := VertexOutputs[j];
      exists i | i in FragmentInputs :: i.varying == o.varying && i.location == o.placement.n && i.ty == o.ty
  {
    forall j | 0 <= j < |VertexOutputs| && VertexOutputs[j].placement.Location? && VertexOutputs[j].stored
      ensures var o := VertexOutputs[j];
        exists i | i in FragmentInputs :: i.varying == o.varying && i.location == o.placement.n && i.ty == o.ty
    {
      assert FragmentInputs[j - 2] in FragmentInputs;
    }
  }

  /** The corrected inputs are those written, one location further on. */
  lemma CorrectedOnlyRelocates()
    ensures |FragmentInputs| == |FragmentInputsAsWritten|
    ensures forall k | 0 <= k < |FragmentInputs| ::
      FragmentInputs[k] == FragmentInputsAsWritten[k].(location := FragmentInputsAsWritten[k].location + 1)
  {
  }

  /** The outputs the test expects are those of the vertex shader as
      written, without the one its interface leaves out and each moved one
      location down. */
  lemma RelocatedMatchesTest()
    ensures VertexOutputsRelocated == Relocate(VertexOutputs, VertexInterface)
  {
    var v := VertexOutputs;
    assert ModelPos !in VertexInterface;
    assert Relocate(v[7..], VertexInterface) == [];
    assert Relocate(v[6..], VertexInterface) == VertexOutputsRelocated[5..] by {
      assert v[6..][1..] == v[7..];
    }
    assert Relocate(v[5..], VertexInterface) == VertexOutputsRelocated[4..] by {
      assert v[5..][1..] == v[6..];
    }
    assert Relocate(v[4..], VertexInterface) == VertexOutputsRelocated[3..] by {
      assert v[4..][1..] == v[5..];
    }
    assert Relocate(v[3..], VertexInterface) == VertexOutputsRelocated[2..] by {
      assert v[3..][1..] == v[4..];
    }
    assert Relocate(v[2..], VertexInterface) == VertexOutputsRelocated[1..] by {
      assert v[2..][1..] == v[3..];
    }
    assert Relocate(v[1..], VertexInterface) == VertexOutputsRelocated[1..] by {
      assert v[1..][1..] == v[2..];
    }
    assert v[0..] == v;
    assert v[1..] == v[0..][1..];
  }

  /** With the vertex outputs relocated, every fragment input as written
      receives its value. */
  lemma RelocatedVertexFeedsFragment()
    ensures DistinctLocations(VertexOutputsRelocated)
    ensures forall k | 0 <= k < |FragmentInputsAsWritten| :: Receives(VertexOutputsRelocated, FragmentInputsAsWritten[k])
  {
    var v := VertexOutputsRelocated;
    forall k | 0 <= k < |FragmentInputsAsWritten|
      ensures Receives(v, FragmentInputsAsWritten[k])
    {
      assert v[k + 1] in v;
    }
  }

  /** With the vertex outputs relocated, the fragment shader as written
      reads every located output at its location and type. */
  lemma RelocatedVertexAllRead()
    ensures forall j | 0 <= j < |VertexOutputsRelocated| && VertexOutputsRelocated[j].placement.Location? ::
      var o := VertexOutputsRelocated[j];
      exists i | i in FragmentInputsAsWritten :: i.varying == o.varying && i.location == o.placement.n && i.ty == o.ty
  {
    var v := VertexOutputsRelocated;
    forall j | 0 <= j < |v| && v[j].placement.Location?
      ensures exists i | i in FragmentInputsAsWritten :: i.varying == v[j].varying && i.location == v[j].placement.n && i.ty == v[j].ty
    {
      assert FragmentInputsAsWritten[j - 1] in FragmentInputsAsWritten;
    }
  }
}
