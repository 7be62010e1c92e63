/** The three port constraints of the type concretiser. Each one reads and
    rewrites the partial assignment (port to concrete type) and the domains
    (port to the concrete types it may still take), and reports which ports
    it changed, that it changed nothing, or that it found a contradiction. */
module Constraints {
  import opened Results
  import opened Sequences
  import opened GraphTypes

  type PortId = nat

  /** A constraint's ports. The source keeps them in a `Set`, so they are
      distinct; the order here is the order the constraint visits them. */
  type PortSet = s: seq<PortId> | NoDuplicates(s)

  type Assignments = map<PortId, ConcreteType>

  type Domains = map<PortId, seq<ConcreteType>>

  function Lookup(asg: Assignments, p: PortId): Option<ConcreteType> {
    if p in asg then Some(asg[p]) else None
  }

  /** A port's domain; a port without an entry has the empty domain. */
  function DomainOf(dom: Domains, p: PortId): seq<ConcreteType> {
    if p in dom then dom[p] else []
  }

  datatype Effect = Dirty(changed: seq<PortId>) | Unchanged | Contradiction

  datatype Applied = Applied(effect: Effect, asg: Assignments, dom: Domains)

  function ChangedPorts(e: Effect): seq<PortId> {
    if e.Dirty? then e.changed else []
  }

  datatype Constraint =
    | SameTypes(ports: PortSet)
    | SameCompositeSize(ports: PortSet)
    | SameDimensionality(ports: PortSet)

  /** The classification a feature constraint compares. */
  datatype Feature = CompositeSizeOf | DimensionalityOf

  datatype FeatureValue = Size(size: CompositeSize) | Dims(dims: Dimensionality)

  /** The feature of a concrete type; `None` for the slab material, which
      has neither a composite size nor a dimensionality. */
  function Key(f: Feature, c: ConcreteType): Option<FeatureValue> {
    match f
    case CompositeSizeOf => if c.Composite().Some? then Some(Size(c.Composite().value)) else None
    case DimensionalityOf => if c.Dimension().Some? then Some(Dims(c.Dimension().value)) else None
  }

  /** The partial result of visiting a constraint's ports in order: `ok` is
      false once a contradiction has stopped the visit. */
  datatype Sweep = Sweep(ok: bool, asg: Assignments, dom: Domains, changed: seq<PortId>)

  function Finish(s: Sweep): (r: Applied)
    ensures r.asg == s.asg && r.dom == s.dom
    ensures r.effect == Contradiction <==> !s.ok
    ensures s.ok ==> ChangedPorts(r.effect) == s.changed
    ensures r.effect.Dirty? ==> |r.effect.changed| > 0
  {
    if !s.ok then Applied(Contradiction, s.asg, s.dom)
    else if s.changed == [] then Applied(Unchanged, s.asg, s.dom)
    else Applied(Dirty(s.changed), s.asg, s.dom)
  }

  // ---------------------------------------------------------------------
  // Properties every constraint keeps
  // ---------------------------------------------------------------------

  /** Domains only shrink: the same ports have domains, and every value still
      listed for a port was listed before. */
  predicate Narrows(dom: Domains, dom': Domains) {
    && dom'.Keys == dom.Keys
    && forall p | p in dom' :: forall x | x in dom'[p] :: x in dom[p]
  }

  /** Ports outside `ports` keep their assignment and their domain. */
  ghost predicate Untouched(ports: seq<PortId>, asg: Assignments, dom: Domains, asg': Assignments, dom': Domains) {
    forall q | q !in ports :: Lookup(asg', q) == Lookup(asg, q) && DomainOf(dom', q) == DomainOf(dom, q)
  }

  /** Assignments are never withdrawn, and a port given a new assignment
      has exactly that value left in its domain. */
  predicate PinsWhatItAssigns(asg: Assignments, asg': Assignments, dom': Domains) {
    && asg.Keys <= asg'.Keys
    && forall p | p in asg' && Lookup(asg, p) != Some(asg'[p]) :: DomainOf(dom', p) == [asg'[p]]
  }

  /** Every domain lists each value once (true of every `GetDomain` list). */
  predicate DistinctDomains(dom: Domains) {
    forall p | p in dom :: NoDuplicates(dom[p])
  }

  lemma SingletonSeq<T>(s: seq<T>)
    ensures |s| == 1 ==> s == [s[0]]
  {
  }

  lemma NoDuplicatesTailIfAny<T>(s: seq<T>)
    requires |s| > 0
    ensures NoDuplicates(s) ==> NoDuplicates(s[1..]) && s[0] !in s[1..]
  {
    if NoDuplicates(s) {
      NoDuplicatesTail(s);
    }
  }

  // ---------------------------------------------------------------------
  // SameTypesConstraint
  // ---------------------------------------------------------------------

  /** The assigned values of the ports, in port order. */
  function AssignedValues(ports: seq<PortId>, asg: Assignments): (r: seq<ConcreteType>)
    ensures forall p | p in ports && p in asg :: asg[p] in r
    ensures |r| == 0 <==> forall p | p in ports :: p !in asg
  {
    if ports == [] then []
    else if ports[0] in asg then [asg[ports[0]]] + AssignedValues(ports[1..], asg)
    else AssignedValues(ports[1..], asg)
  }

  /** Every value in `AssignedValues` is some port's assignment. */
  lemma {:induction false} AssignedValuesAreAssignments(ports: seq<PortId>, asg: Assignments, v: ConcreteType)
    requires v in AssignedValues(ports, asg)
    ensures exists p | p in ports :: Lookup(asg, p) == Some(v)
    decreases |ports|
  {
    if ports[0] in asg && v == asg[ports[0]] {
      assert Lookup(asg, ports[0]) == Some(v);
    } else {
      AssignedValuesAreAssignments(ports[1..], asg, v);
      var p :| p in ports[1..] && Lookup(asg, p) == Some(v);
      assert p in ports;
    }
  }

  /** The values of `s` that every port's domain lists, in the order of `s`. */
  function InEveryDomain(s: seq<ConcreteType>, ports: seq<PortId>, dom: Domains): (r: seq<ConcreteType>)
    ensures forall x :: x in r <==> x in s && forall q | q in ports :: x in DomainOf(dom, q)
    ensures NoDuplicates(s) ==> NoDuplicates(r)
  {
    if s == [] then []
    else
      var rest := InEveryDomain(s[1..], ports, dom);
      NoDuplicatesTailIfAny(s);
      if forall q | q in ports :: s[0] in DomainOf(dom, q) then
        NoDuplicatesCons(s[0], rest);
        [s[0]] + rest
      else rest
  }

  /** The intersection of the ports' domains, listed in the order of the
      first port's domain; empty when there are no ports. */
  function CommonDomain(ports: seq<PortId>, dom: Domains): (r: seq<ConcreteType>)
    ensures forall x :: x in r <==> |ports| > 0 && forall q | q in ports :: x in DomainOf(dom, q)
    ensures |ports| > 0 && NoDuplicates(DomainOf(dom, ports[0])) ==> NoDuplicates(r)
  {
    if ports == [] then [] else InEveryDomain(DomainOf(dom, ports[0]), ports, dom)
  }

  /** Assigns `t` to every port in turn (with domain `[t]`), stopping with a
      contradiction at the first port whose domain lacks `t`. */
  function PinAll(ports: PortSet, t: ConcreteType, asg: Assignments, dom: Domains): (r: Sweep)
    decreases |ports|
  {
    if ports == [] then Sweep(true, asg, dom, [])
    else
      var p := ports[0];
      NoDuplicatesTail(ports);
      if t !in DomainOf(dom, p) then Sweep(false, asg, dom, [])
      else if Lookup(asg, p) == Some(t) then PinAll(ports[1..], t, asg, dom)
      else
        var rest := PinAll(ports[1..], t, asg[p := t], dom[p := [t]]);
        rest.(changed := [p] + rest.changed)
  }

  /** A write to port `p` leaves every other port alone. */
  lemma WriteFrame(asg: Assignments, dom: Domains, p: PortId, asg': Assignments, dom': Domains)
    requires asg' == asg || (p in asg' && asg' == asg[p := asg'[p]])
    requires p in dom' && dom' == dom[p := dom'[p]]
    ensures forall q | q != p :: Lookup(asg', q) == Lookup(asg, q) && DomainOf(dom', q) == DomainOf(dom, q)
  {
  }

  lemma {:induction false} PinAllFrame(ports: PortSet, t: ConcreteType, asg: Assignments, dom: Domains)
    ensures var r := PinAll(ports, t, asg, dom);
      && Narrows(dom, r.dom)
      && Untouched(ports, asg, dom, r.asg, r.dom)
      && PinsWhatItAssigns(asg, r.asg, r.dom)
      && (DistinctDomains(dom) ==> DistinctDomains(r.dom))
    decreases |ports|
  {
    if ports != [] {
      var p := ports[0];
      NoDuplicatesTail(ports);
      if t in DomainOf(dom, p) {
        if Lookup(asg, p) == Some(t) {
          PinAllFrame(ports[1..], t, asg, dom);
        } else {
          var asg1, dom1 := asg[p := t], dom[p := [t]];
          PinAllFrame(ports[1..], t, asg1, dom1);
          WriteFrame(asg, dom, p, asg1, dom1);
          var r := PinAll(ports[1..], t, asg1, dom1);
          assert Lookup(r.asg, p) == Some(t) && DomainOf(r.dom, p) == [t];
        }
      }
    }
  }

  /** Whether pinning succeeds, and what it does to each port. */
  lemma PinAllOutcome(ports: PortSet, t: ConcreteType, asg: Assignments, dom: Domains)
    ensures var r := PinAll(ports, t, asg, dom);
      && (r.ok <==> forall p | p in ports :: t in DomainOf(dom, p))
      && (r.ok ==> forall p | p in ports :: Lookup(r.asg, p) == Some(t))
      && (r.ok ==> forall p | p in ports ::
            DomainOf(r.dom, p) == if Lookup(asg, p) == Some(t) then DomainOf(dom, p) else [t])
      && (r.ok ==> forall p :: p in r.changed <==> p in ports && Lookup(asg, p) != Some(t))
  {
    PinAllOk(ports, t, asg, dom);
    PinAllAssigns(ports, t, asg, dom);
    PinAllDomains(ports, t, asg, dom);
    PinAllChanged(ports, t, asg, dom);
  }

  lemma {:induction false} PinAllOk(ports: PortSet, t: ConcreteType, asg: Assignments, dom: Domains)
    ensures var r := PinAll(ports, t, asg, dom);
      r.ok <==> forall p | p in ports :: t in DomainOf(dom, p)
    decreases |ports|
  {
    if ports != [] {
      var p := ports[0];
      NoDuplicatesTail(ports);
      assert forall q | q in ports :: q == p || q in ports[1..];
      if t in DomainOf(dom, p) {
        if Lookup(asg, p) == Some(t) {
          PinAllOk(ports[1..], t, asg, dom);
        } else {
          var asg1, dom1 := asg[p := t], dom[p := [t]];
          PinAllOk(ports[1..], t, asg1, dom1);
          WriteFrame(asg, dom, p, asg1, dom1);
        }
      }
    }
  }

  lemma {:induction false} PinAllAssigns(ports: PortSet, t: ConcreteType, asg: Assignments, dom: Domains)
    ensures var r := PinAll(ports, t, asg, dom);
      r.ok ==> forall p | p in ports :: Lookup(r.asg, p) == Some(t)
    decreases |ports|
  {
    if ports != [] {
      var p := ports[0];
      NoDuplicatesTail(ports);
      assert forall q | q in ports :: q == p || q in ports[1..];
      if t in DomainOf(dom, p) {
        if Lookup(asg, p) == Some(t) {
          PinAllAssigns(ports[1..], t, asg, dom);
          PinAllFrame(ports[1..], t, asg, dom);
        } else {
          var asg1, dom1 := asg[p := t], dom[p := [t]];
          PinAllAssigns(ports[1..], t, asg1, dom1);
          PinAllFrame(ports[1..], t, asg1, dom1);
          WriteFrame(asg, dom, p, asg1, dom1);
        }
      }
    }
  }

  lemma {:induction false} PinAllDomains(ports: PortSet, t: ConcreteType, asg: Assignments, dom: Domains)
    ensures var r := PinAll(ports, t, asg, dom);
      r.ok ==> forall p | p in ports ::
        DomainOf(r.dom, p) == if Lookup(asg, p) == Some(t) then DomainOf(dom, p) else [t]
    decreases |ports|
  {
    if ports != [] {
      var p := ports[0];
      NoDuplicatesTail(ports);
      assert forall q | q in ports :: q == p || q in ports[1..];
      if t in DomainOf(dom, p) {
        if Lookup(asg, p) == Some(t) {
          PinAllDomains(ports[1..], t, asg, dom);
          PinAllFrame(ports[1..], t, asg, dom);
        } else {
          var asg1, dom1 := asg[p := t], dom[p := [t]];
          PinAllDomains(ports[1..], t, asg1, dom1);
          PinAllFrame(ports[1..], t, asg1, dom1);
          WriteFrame(asg, dom, p, asg1, dom1);
        }
      }
    }
  }

  lemma {:induction false} PinAllChanged(ports: PortSet, t: ConcreteType, asg: Assignments, dom: Domains)
    ensures var r := PinAll(ports, t, asg, dom);
      r.ok ==> forall p :: p in r.changed <==> p in ports && Lookup(asg, p) != Some(t)
    decreases |ports|
  {
    if ports != [] {
      var p := ports[0];
      NoDuplicatesTail(ports);
      assert forall q | q in ports :: q == p || q in ports[1..];
      if t in DomainOf(dom, p) {
        if Lookup(asg, p) == Some(t) {
          PinAllChanged(ports[1..], t, asg, dom);
        } else {
          var asg1, dom1 := asg[p := t], dom[p := [t]];
          PinAllChanged(ports[1..], t, asg1, dom1);
          WriteFrame(asg, dom, p, asg1, dom1);
        }
      }
    }
  }

  /** Sets every port's domain to `common` when its size differs, also
      assigning the single value when `common` has one. */
  function NarrowAll(ports: PortSet, common: seq<ConcreteType>, asg: Assignments, dom: Domains): (r: Sweep)
    ensures r.ok
    decreases |ports|
  {
    if ports == [] then Sweep(true, asg, dom, [])
    else
      var p := ports[0];
      NoDuplicatesTail(ports);
      if |common| != |DomainOf(dom, p)| then
        var rest := NarrowAll(ports[1..], common, if |common| == 1 then asg[p := common[0]] else asg, dom[p := common]);
        rest.(changed := [p] + rest.changed)
      else NarrowAll(ports[1..], common, asg, dom)
  }

  lemma {:induction false} NarrowAllFrame(ports: PortSet, common: seq<ConcreteType>, asg: Assignments, dom: Domains)
    requires |common| > 0
    requires forall p, x | p in ports && x in common :: x in DomainOf(dom, p)
    ensures var r := NarrowAll(ports, common, asg, dom);
      && Narrows(dom, r.dom)
      && Untouched(ports, asg, dom, r.asg, r.dom)
      && PinsWhatItAssigns(asg, r.asg, r.dom)
      && (DistinctDomains(dom) && NoDuplicates(common) ==> DistinctDomains(r.dom))
    decreases |ports|
  {
    if ports != [] {
      var p := ports[0];
      NoDuplicatesTail(ports);
      if |common| != |DomainOf(dom, p)| {
        var asg1 := if |common| == 1 then asg[p := common[0]] else asg;
        var dom1 := dom[p := common];
        assert common[0] in common;
        assert common[0] in DomainOf(dom, p);
        WriteFrame(asg, dom, p, asg1, dom1);
        NarrowAllFrame(ports[1..], common, asg1, dom1);
        SingletonSeq(common);
      } else {
        NarrowAllFrame(ports[1..], common, asg, dom);
      }
    }
  }

  /** What narrowing does to each port, and that it touches no other. */
  lemma NarrowAllOutcome(ports: PortSet, common: seq<ConcreteType>, asg: Assignments, dom: Domains)
    ensures var r := NarrowAll(ports, common, asg, dom);
      && (forall p | p in ports ::
            DomainOf(r.dom, p) == if |common| != |DomainOf(dom, p)| then common else DomainOf(dom, p))
      && (forall p | p in ports ::
            Lookup(r.asg, p) == if |common| != |DomainOf(dom, p)| && |common| == 1 then Some(common[0]) else Lookup(asg, p))
      && (forall p :: p in r.changed <==> p in ports && |common| != |DomainOf(dom, p)|)
      && Untouched(ports, asg, dom, r.asg, r.dom)
  {
    NarrowAllDomains(ports, common, asg, dom);
    NarrowAllAssigns(ports, common, asg, dom);
    NarrowAllChanged(ports, common, asg, dom);
    NarrowAllUntouched(ports, common, asg, dom);
  }

  lemma {:induction false} NarrowAllUntouched(ports: PortSet, common: seq<ConcreteType>, asg: Assignments, dom: Domains)
    ensures var r := NarrowAll(ports, common, asg, dom);
      Untouched(ports, asg, dom, r.asg, r.dom)
    decreases |ports|
  {
    if ports != [] {
      var p := ports[0];
      NoDuplicatesTail(ports);
      if |common| != |DomainOf(dom, p)| {
        var asg1 := if |common| == 1 then asg[p := common[0]] else asg;
        var dom1 := dom[p := common];
        WriteFrame(asg, dom, p, asg1, dom1);
        NarrowAllUntouched(ports[1..], common, asg1, dom1);
      } else {
        NarrowAllUntouched(ports[1..], common, asg, dom);
      }
    }
  }

  lemma {:induction false} NarrowAllDomains(ports: PortSet, common: seq<ConcreteType>, asg: Assignments, dom: Domains)
    ensures var r := NarrowAll(ports, common, asg, dom);
      forall p | p in ports ::
        DomainOf(r.dom, p) == if |common| != |DomainOf(dom, p)| then common else DomainOf(dom, p)
    decreases |ports|
  {
    if ports != [] {
      var p := ports[0];
      NoDuplicatesTail(ports);
      assert forall q | q in ports :: q == p || q in ports[1..];
      if |common| != |DomainOf(dom, p)| {
        var asg1 := if |common| == 1 then asg[p := common[0]] else asg;
        var dom1 := dom[p := common];
        WriteFrame(asg, dom, p, asg1, dom1);
        NarrowAllDomains(ports[1..], common, asg1, dom1);
        NarrowAllUntouched(ports[1..], common, asg1, dom1);
      } else {
        NarrowAllDomains(ports[1..], common, asg, dom);
        NarrowAllUntouched(ports[1..], common, asg, dom);
      }
    }
  }

  lemma {:induction false} NarrowAllAssigns(ports: PortSet, common: seq<ConcreteType>, asg: Assignments, dom: Domains)
    ensures var r := NarrowAll(ports, common, asg, dom);
      forall p | p in ports ::
        Lookup(r.asg, p) == if |common| != |DomainOf(dom, p)| && |common| == 1 then Some(common[0]) else Lookup(asg, p)
    decreases |ports|
  {
    if ports != [] {
      var p := ports[0];
      NoDuplicatesTail(ports);
      assert forall q | q in ports :: q == p || q in ports[1..];
      if |common| != |DomainOf(dom, p)| {
        var asg1 := if |common| == 1 then asg[p := common[0]] else asg;
        var dom1 := dom[p := common];
        WriteFrame(asg, dom, p, asg1, dom1);
        NarrowAllAssigns(ports[1..], common, asg1, dom1);
        NarrowAllUntouched(ports[1..], common, asg1, dom1);
      } else {
        NarrowAllAssigns(ports[1..], common, asg, dom);
        NarrowAllUntouched(ports[1..], common, asg, dom);
      }
    }
  }

  lemma {:induction false} NarrowAllChanged(ports: PortSet, common: seq<ConcreteType>, asg: Assignments, dom: Domains)
    ensures var r := NarrowAll(ports, common, asg, dom);
      forall p :: p in r.changed <==> p in ports && |common| != |DomainOf(dom, p)|
    decreases |ports|
  {
    if ports != [] {
      var p := ports[0];
      NoDuplicatesTail(ports);
      assert forall q | q in ports :: q == p || q in ports[1..];
      if |common| != |DomainOf(dom, p)| {
        var asg1 := if |common| == 1 then asg[p := common[0]] else asg;
        var dom1 := dom[p := common];
        WriteFrame(asg, dom, p, asg1, dom1);
        NarrowAllChanged(ports[1..], common, asg1, dom1);
      } else {
        NarrowAllChanged(ports[1..], common, asg, dom);
      }
    }
  }

  /** `SameTypesConstraint.apply`: all ports must end with the same type. */
  function ApplySameTypes(ports: PortSet, asg: Assignments, dom: Domains): (r: Applied)
  {
    var vals := AssignedValues(ports, asg);
    if |vals| > 0 then
      if exists v | v in vals :: v != vals[0] then Applied(Contradiction, asg, dom)
      else Finish(PinAll(ports, vals[0], asg, dom))
    else
      var common := CommonDomain(ports, dom);
      if |common| == 0 then Applied(Contradiction, asg, dom)
      else Finish(NarrowAll(ports, common, asg, dom))
  }

  /** Two ports of a same-type constraint already assigned different types
      make it a contradiction. */
  lemma SameTypesClash(ports: PortSet, asg: Assignments, dom: Domains, p: PortId, q: PortId)
    requires p in ports && q in ports && p in asg && q in asg && asg[p] != asg[q]
    ensures ApplySameTypes(ports, asg, dom).effect == Contradiction
  {
    var vals := AssignedValues(ports, asg);
    assert asg[p] in vals && asg[q] in vals;
  }

  /** When the assigned ports agree on `t`, the constraint is a contradiction
      exactly when some port's domain lacks `t`; otherwise every port ends
      assigned `t`, and each port not already assigned `t` has domain `[t]`. */
  lemma SameTypesPins(ports: PortSet, asg: Assignments, dom: Domains, p: PortId, t: ConcreteType)
    requires p in ports && Lookup(asg, p) == Some(t)
    requires forall q | q in ports && q in asg :: asg[q] == t
    ensures var r := ApplySameTypes(ports, asg, dom);
      && (r.effect == Contradiction <==> exists q | q in ports :: t !in DomainOf(dom, q))
      && (r.effect != Contradiction ==> forall q | q in ports :: Lookup(r.asg, q) == Some(t))
      && (r.effect != Contradiction ==> forall q | q in ports && Lookup(asg, q) != Some(t) :: DomainOf(r.dom, q) == [t])
  {
    var vals := AssignedValues(ports, asg);
    assert t in vals;
    forall v | v in vals
      ensures v == t
    {
      AssignedValuesAreAssignments(ports, asg, v);
    }
    assert vals[0] in vals;
    PinAllOutcome(ports, t, asg, dom);
  }

  /** With no port assigned, the constraint is a contradiction exactly when
      the domains have no value in common; otherwise every port's domain
      holds exactly the common values, and when there is one common value,
      every port whose domain shrank is assigned it. */
  lemma SameTypesIntersects(ports: PortSet, asg: Assignments, dom: Domains)
    requires forall p | p in ports :: p !in asg
    requires DistinctDomains(dom)
    ensures var r := ApplySameTypes(ports, asg, dom);
      var common := CommonDomain(ports, dom);
      && (r.effect == Contradiction <==> |common| == 0)
      && (r.effect != Contradiction ==> forall p, x | p in ports :: x in DomainOf(r.dom, p) <==> x in common)
      && (r.effect != Contradiction && |common| == 1 ==>
            forall p | p in ports && DomainOf(r.dom, p) != DomainOf(dom, p) :: Lookup(r.asg, p) == Some(common[0]))
  {
    var common := CommonDomain(ports, dom);
    if |common| > 0 {
      NarrowAllOutcome(ports, common, asg, dom);
      assert |ports| > 0;
      forall p | p in ports && |common| == |DomainOf(dom, p)|
        ensures forall x :: x in DomainOf(dom, p) <==> x in common
      {
        assert p in dom;
        SameLengthSubsetIsSameSet(common, DomainOf(dom, p));
      }
    }
  }

  /** `ApplySameTypes` only narrows domains, touches only its ports, and
      pins every port it assigns. */
  lemma SameTypesFrame(ports: PortSet, asg: Assignments, dom: Domains)
    ensures var r := ApplySameTypes(ports, asg, dom);
      && Narrows(dom, r.dom)
      && Untouched(ports, asg, dom, r.asg, r.dom)
      && PinsWhatItAssigns(asg, r.asg, r.dom)
      && (DistinctDomains(dom) ==> DistinctDomains(r.dom))
  {
    var vals := AssignedValues(ports, asg);
    if |vals| > 0 {
      PinAllFrame(ports, vals[0], asg, dom);
    } else {
      var common := CommonDomain(ports, dom);
      if |common| > 0 {
        NarrowAllFrame(ports, common, asg, dom);
      }
    }
  }

  /** The dirty list of `ApplySameTypes` names exactly the ports whose
      assignment or domain changed. */
  lemma SameTypesReportsChanges(ports: PortSet, asg: Assignments, dom: Domains)
    ensures var r := ApplySameTypes(ports, asg, dom);
      r.effect != Contradiction ==>
        forall p :: p in ChangedPorts(r.effect) <==> Lookup(r.asg, p) != Lookup(asg, p) || DomainOf(r.dom, p) != DomainOf(dom, p)
  {
    var vals := AssignedValues(ports, asg);
    if |vals| > 0 {
      PinAllOutcome(ports, vals[0], asg, dom);
      PinAllFrame(ports, vals[0], asg, dom);
    } else {
      var common := CommonDomain(ports, dom);
      if |common| > 0 {
        NarrowAllOutcome(ports, common, asg, dom);
        var r := NarrowAll(ports, common, asg, dom);
        forall p | p in ports && |common| != |DomainOf(dom, p)| && |common| == 1
          ensures Lookup(r.asg, p) != Lookup(asg, p)
        {
        }
      }
    }
  }

  // ---------------------------------------------------------------------
  // SameCompositeSizeConstraint and SameDimensionalityConstraint
  // ---------------------------------------------------------------------

  /** The values of `s` whose feature is in `allowed`, in order. */
  function KeepKeys(s: seq<ConcreteType>, f: Feature, allowed: set<Option<FeatureValue>>): (r: seq<ConcreteType>)
    ensures forall x :: x in r <==> x in s && Key(f, x) in allowed
    ensures |r| <= |s|
    ensures |r| == |s| ==> r == s
    ensures NoDuplicates(s) ==> NoDuplicates(r)
  {
    if s == [] then []
    else
      var rest := KeepKeys(s[1..], f, allowed);
      NoDuplicatesTailIfAny(s);
      if Key(f, s[0]) in allowed then
        NoDuplicatesCons(s[0], rest);
        assert |rest| == |s[1..]| ==> [s[0]] + rest == s;
        [s[0]] + rest
      else rest
  }

  /** Filtering twice by the same keys changes nothing more. */
  lemma {:induction false} KeepKeysIdempotent(s: seq<ConcreteType>, f: Feature, allowed: set<Option<FeatureValue>>)
    ensures KeepKeys(KeepKeys(s, f, allowed), f, allowed) == KeepKeys(s, f, allowed)
  {
    if s != [] {
      KeepKeysIdempotent(s[1..], f, allowed);
    }
  }

  /** The feature of the first port (in port order) that is assigned a type
      having that feature. */
  function FirstAssignedKey(f: Feature, ports: seq<PortId>, asg: Assignments): (r: Option<FeatureValue>)
    ensures r.Some? ==> exists p | p in ports && p in asg :: Key(f, asg[p]) == r
    ensures r.None? <==> forall p | p in ports && p in asg :: Key(f, asg[p]).None?
  {
    if ports == [] then None
    else if ports[0] in asg && Key(f, asg[ports[0]]).Some? then Key(f, asg[ports[0]])
    else FirstAssignedKey(f, ports[1..], asg)
  }

  /** The features (including "none") present in a list of types. */
  function KeySet(f: Feature, s: seq<ConcreteType>): set<Option<FeatureValue>> {
    set x | x in s :: Key(f, x)
  }

  /** The features every port's domain offers; empty when there are no ports. */
  function CommonKeys(f: Feature, ports: seq<PortId>, dom: Domains): (r: set<Option<FeatureValue>>)
    ensures forall k :: k in r <==> |ports| > 0 && forall q | q in ports :: k in KeySet(f, DomainOf(dom, q))
  {
    if ports == [] then {}
    else if |ports| == 1 then KeySet(f, DomainOf(dom, ports[0]))
    else KeySet(f, DomainOf(dom, ports[0])) * CommonKeys(f, ports[1..], dom)
  }

  /** Filters every port's domain to the allowed features, assigning a port
      whose domain shrinks to one value, and stopping with a contradiction at
      the first port whose domain empties. */
  function FilterAll(f: Feature, ports: PortSet, allowed: set<Option<FeatureValue>>, asg: Assignments, dom: Domains): (r: Sweep)
    decreases |ports|
  {
    if ports == [] then Sweep(true, asg, dom, [])
    else
      var p := ports[0];
      NoDuplicatesTail(ports);
      var before := DomainOf(dom, p);
      var kept := KeepKeys(before, f, allowed);
      if |kept| == 0 then Sweep(false, asg, dom, [])
      else if |kept| != |before| then
        var rest := FilterAll(f, ports[1..], allowed, if |kept| == 1 then asg[p := kept[0]] else asg, dom[p := kept]);
        rest.(changed := [p] + rest.changed)
      else FilterAll(f, ports[1..], allowed, asg, dom)
  }

  lemma {:induction false} FilterAllFrame(f: Feature, ports: PortSet, allowed: set<Option<FeatureValue>>, asg: Assignments, dom: Domains)
    ensures var r := FilterAll(f, ports, allowed, asg, dom);
      && Narrows(dom, r.dom)
      && Untouched(ports, asg, dom, r.asg, r.dom)
      && PinsWhatItAssigns(asg, r.asg, r.dom)
      && (DistinctDomains(dom) ==> DistinctDomains(r.dom))
    decreases |ports|
  {
    if ports != [] {
      var p := ports[0];
      NoDuplicatesTail(ports);
      var before := DomainOf(dom, p);
      var kept := KeepKeys(before, f, allowed);
      if |kept| != 0 && |kept| != |before| {
        var asg1 := if |kept| == 1 then asg[p := kept[0]] else asg;
        var dom1 := dom[p := kept];
        assert kept[0] in kept;
        WriteFrame(asg, dom, p, asg1, dom1);
        FilterAllFrame(f, ports[1..], allowed, asg1, dom1);
        SingletonSeq(kept);
      } else if |kept| != 0 {
        FilterAllFrame(f, ports[1..], allowed, asg, dom);
      }
    }
  }

  lemma {:induction false} FilterAllSucceeds(f: Feature, ports: PortSet, allowed: set<Option<FeatureValue>>, asg: Assignments, dom: Domains)
    ensures FilterAll(f, ports, allowed, asg, dom).ok <==> forall p | p in ports :: |KeepKeys(DomainOf(dom, p), f, allowed)| > 0
    decreases |ports|
  {
    if ports != [] {
      var p := ports[0];
      NoDuplicatesTail(ports);
      assert forall q | q in ports :: q == p || q in ports[1..];
      var before := DomainOf(dom, p);
      var kept := KeepKeys(before, f, allowed);
      if |kept| != 0 && |kept| != |before| {
        var asg1 := if |kept| == 1 then asg[p := kept[0]] else asg;
        var dom1 := dom[p := kept];
        WriteFrame(asg, dom, p, asg1, dom1);
        FilterAllSucceeds(f, ports[1..], allowed, asg1, dom1);
      } else if |kept| != 0 {
        FilterAllSucceeds(f, ports[1..], allowed, asg, dom);
      }
    }
  }

  lemma {:induction false} FilterAllDomains(f: Feature, ports: PortSet, allowed: set<Option<FeatureValue>>, asg: Assignments, dom: Domains)
    ensures var r := FilterAll(f, ports, allowed, asg, dom);
      r.ok ==> forall p | p in ports :: DomainOf(r.dom, p) == KeepKeys(DomainOf(dom, p), f, allowed)
    decreases |ports|
  {
    if ports != [] {
      var p := ports[0];
      NoDuplicatesTail(ports);
      assert forall q | q in ports :: q == p || q in ports[1..];
      var before := DomainOf(dom, p);
      var kept := KeepKeys(before, f, allowed);
      if |kept| != 0 && |kept| != |before| {
        var asg1 := if |kept| == 1 then asg[p := kept[0]] else asg;
        var dom1 := dom[p := kept];
        WriteFrame(asg, dom, p, asg1, dom1);
        FilterAllDomains(f, ports[1..], allowed, asg1, dom1);
        FilterAllFrame(f, ports[1..], allowed, asg1, dom1);
      } else if |kept| != 0 {
        FilterAllDomains(f, ports[1..], allowed, asg, dom);
        FilterAllFrame(f, ports[1..], allowed, asg, dom);
      }
    }
  }


  lemma {:induction false} FilterAllAssigns(f: Feature, ports: PortSet, allowed: set<Option<FeatureValue>>, asg: Assignments, dom: Domains)
    ensures var r := FilterAll(f, ports, allowed, asg, dom);
      r.ok ==> forall p | p in ports ::
        Lookup(r.asg, p) ==
          var kept := KeepKeys(DomainOf(dom, p), f, allowed);
          if |kept| != |DomainOf(dom, p)| && |kept| == 1 then Some(kept[0]) else Lookup(asg, p)
    decreases |ports|
  {
    if ports != [] {
      var p := ports[0];
      NoDuplicatesTail(ports);
      assert forall q | q in ports :: q == p || q in ports[1..];
      var before := DomainOf(dom, p);
      var kept := KeepKeys(before, f, allowed);
      if |kept| != 0 && |kept| != |before| {
        var asg1 := if |kept| == 1 then asg[p := kept[0]] else asg;
        var dom1 := dom[p := kept];
        WriteFrame(asg, dom, p, asg1, dom1);
        FilterAllAssigns(f, ports[1..], allowed, asg1, dom1);
        FilterAllFrame(f, ports[1..], allowed, asg1, dom1);
      } else if |kept| != 0 {
        FilterAllAssigns(f, ports[1..], allowed, asg, dom);
        FilterAllFrame(f, ports[1..], allowed, asg, dom);
      }
    }
  }

  lemma {:induction false} FilterAllChanged(f: Feature, ports: PortSet, allowed: set<Option<FeatureValue>>, asg: Assignments, dom: Domains)
    ensures var r := FilterAll(f, ports, allowed, asg, dom);
      r.ok ==> forall p :: p in r.changed <==> p in ports && |KeepKeys(DomainOf(dom, p), f, allowed)| != |DomainOf(dom, p)|
    decreases |ports|
  {
    if ports != [] {
      var p := ports[0];
      NoDuplicatesTail(ports);
      assert forall q | q in ports :: q == p || q in ports[1..];
      var before := DomainOf(dom, p);
      var kept := KeepKeys(before, f, allowed);
      if |kept| != 0 && |kept| != |before| {
        var asg1 := if |kept| == 1 then asg[p := kept[0]] else asg;
        var dom1 := dom[p := kept];
        WriteFrame(asg, dom, p, asg1, dom1);
        FilterAllChanged(f, ports[1..], allowed, asg1, dom1);
        FilterAllFrame(f, ports[1..], allowed, asg1, dom1);
      } else if |kept| != 0 {
        FilterAllChanged(f, ports[1..], allowed, asg, dom);
        FilterAllFrame(f, ports[1..], allowed, asg, dom);
      }
    }
  }



  /** The features a feature constraint keeps: the feature of the first
      assigned port that has one, otherwise those every domain offers. */
  function AllowedKeys(f: Feature, ports: seq<PortId>, asg: Assignments, dom: Domains): set<Option<FeatureValue>> {
    var first := FirstAssignedKey(f, ports, asg);
    if first.Some? then {first} else CommonKeys(f, ports, dom)
  }

  /** `SameCompositeSizeConstraint.apply` and `SameDimensionalityConstraint.apply`. */
  function ApplySameFeature(f: Feature, ports: PortSet, asg: Assignments, dom: Domains): Applied {
    Finish(FilterAll(f, ports, AllowedKeys(f, ports, asg, dom), asg, dom))
  }

  /** A feature constraint is a contradiction exactly when its filter leaves
      some port's domain empty; otherwise each port's domain is exactly its
      old domain filtered, and the dirty list names exactly the ports whose
      assignment or domain changed. */
  lemma SameFeatureContradiction(f: Feature, ports: PortSet, asg: Assignments, dom: Domains)
    ensures var r := ApplySameFeature(f, ports, asg, dom);
      var allowed := AllowedKeys(f, ports, asg, dom);
      r.effect == Contradiction <==> exists p | p in ports :: forall x | x in DomainOf(dom, p) :: Key(f, x) !in allowed
  {
    var allowed := AllowedKeys(f, ports, asg, dom);
    FilterAllSucceeds(f, ports, allowed, asg, dom);
    forall p | p in ports
      ensures |KeepKeys(DomainOf(dom, p), f, allowed)| == 0 <==> forall x | x in DomainOf(dom, p) :: Key(f, x) !in allowed
    {
      var kept := KeepKeys(DomainOf(dom, p), f, allowed);
      if |kept| > 0 {
        assert kept[0] in kept;
      }
    }
  }

  lemma SameFeatureFilters(f: Feature, ports: PortSet, asg: Assignments, dom: Domains)
    ensures var r := ApplySameFeature(f, ports, asg, dom);
      var allowed := AllowedKeys(f, ports, asg, dom);
      r.effect != Contradiction ==> forall p, x | p in ports ::
        x in DomainOf(r.dom, p) <==> x in DomainOf(dom, p) && Key(f, x) in allowed
  {
    var allowed := AllowedKeys(f, ports, asg, dom);
    FilterAllDomains(f, ports, allowed, asg, dom);
  }

  lemma SameFeatureReportsChanges(f: Feature, ports: PortSet, asg: Assignments, dom: Domains)
    ensures var r := ApplySameFeature(f, ports, asg, dom);
      r.effect != Contradiction ==>
        forall p :: p in ChangedPorts(r.effect) <==> Lookup(r.asg, p) != Lookup(asg, p) || DomainOf(r.dom, p) != DomainOf(dom, p)
  {
    var allowed := AllowedKeys(f, ports, asg, dom);
    var s := FilterAll(f, ports, allowed, asg, dom);
    FilterAllDomains(f, ports, allowed, asg, dom);
    FilterAllChanged(f, ports, allowed, asg, dom);
    FilterAllAssigns(f, ports, allowed, asg, dom);
    FilterAllFrame(f, ports, allowed, asg, dom);
  }


  // ---------------------------------------------------------------------
  // PortConstraint.apply
  // ---------------------------------------------------------------------

  function Apply(c: Constraint, asg: Assignments, dom: Domains): Applied {
    match c
    case SameTypes(ports) => ApplySameTypes(ports, asg, dom)
    case SameCompositeSize(ports) => ApplySameFeature(CompositeSizeOf, ports, asg, dom)
    case SameDimensionality(ports) => ApplySameFeature(DimensionalityOf, ports, asg, dom)
  }

  /** Every constraint only narrows domains, leaves ports outside it alone,
      never withdraws an assignment, pins what it assigns, keeps domains
      duplicate-free, and reports exactly the ports whose state changed. */
  lemma ApplyFrame(c: Constraint, asg: Assignments, dom: Domains)
    ensures var r := Apply(c, asg, dom);
      && Narrows(dom, r.dom)
      && Untouched(c.ports, asg, dom, r.asg, r.dom)
      && PinsWhatItAssigns(asg, r.asg, r.dom)
      && (DistinctDomains(dom) ==> DistinctDomains(r.dom))
      && (r.effect != Contradiction ==>
            forall p :: p in ChangedPorts(r.effect) <==> Lookup(r.asg, p) != Lookup(asg, p) || DomainOf(r.dom, p) != DomainOf(dom, p))
      && (r.effect.Dirty? ==> |r.effect.changed| > 0)
  {
    match c
    case SameTypes(ports) =>
      SameTypesFrame(ports, asg, dom);
      SameTypesReportsChanges(ports, asg, dom);
    case SameCompositeSize(ports) =>
      FilterAllFrame(CompositeSizeOf, ports, AllowedKeys(CompositeSizeOf, ports, asg, dom), asg, dom);
      SameFeatureReportsChanges(CompositeSizeOf, ports, asg, dom);
    case SameDimensionality(ports) =>
      FilterAllFrame(DimensionalityOf, ports, AllowedKeys(DimensionalityOf, ports, asg, dom), asg, dom);
      SameFeatureReportsChanges(DimensionalityOf, ports, asg, dom);
  }

  // ---------------------------------------------------------------------
  // Soundness: a constraint never discards a solution
  // ---------------------------------------------------------------------

  /** Whether two concrete types agree in the sense a constraint demands. */
  predicate Agree(c: Constraint, a: ConcreteType, b: ConcreteType) {
    match c
    case SameTypes(_) => a == b
    case SameCompositeSize(_) => Key(CompositeSizeOf, a) == Key(CompositeSizeOf, b)
    case SameDimensionality(_) => Key(DimensionalityOf, a) == Key(DimensionalityOf, b)
  }

  /** `sol` gives every port of `c` a type, and those types agree. */
  predicate Satisfies(c: Constraint, sol: Assignments) {
    && (forall p | p in c.ports :: p in sol)
    && forall p, q | p in c.ports && q in c.ports :: Agree(c, sol[p], sol[q])
  }

  /** `sol` is still possible in a state: each port's type is in its domain
      and equals its assignment, if any. */
  predicate Allows(ports: seq<PortId>, sol: Assignments, asg: Assignments, dom: Domains) {
    forall p | p in ports :: p in sol && sol[p] in DomainOf(dom, p) && (p in asg ==> asg[p] == sol[p])
  }

  lemma SameTypesKeepsSolutions(ports: PortSet, asg: Assignments, dom: Domains, sol: Assignments)
    requires |ports| > 0
    requires Satisfies(SameTypes(ports), sol) && Allows(ports, sol, asg, dom)
    ensures var r := ApplySameTypes(ports, asg, dom);
      r.effect != Contradiction && Allows(ports, sol, r.asg, r.dom)
  {
    var vals := AssignedValues(ports, asg);
    if |vals| > 0 {
      var p :| p in ports && p in asg;
      var t := sol[p];
      forall v | v in vals
        ensures v == t
      {
        AssignedValuesAreAssignments(ports, asg, v);
      }
      assert vals[0] in vals;
      PinAllOutcome(ports, t, asg, dom);
    } else {
      var t := sol[ports[0]];
      var common := CommonDomain(ports, dom);
      forall p | p in ports
        ensures sol[p] == t
      {
        assert Agree(SameTypes(ports), sol[p], sol[ports[0]]);
      }
      assert t in common;
      NarrowAllOutcome(ports, common, asg, dom);
      SingletonSeq(common);
      var r := NarrowAll(ports, common, asg, dom);
      forall p | p in ports
        ensures p in sol && sol[p] in DomainOf(r.dom, p) && (p in r.asg ==> r.asg[p] == sol[p])
      {
        assert p !in asg;
      }
    }
  }

  lemma SameFeatureKeepsSolutions(c: Constraint, f: Feature, asg: Assignments, dom: Domains, sol: Assignments)
    requires c.SameCompositeSize? || c.SameDimensionality?
    requires f == if c.SameCompositeSize? then CompositeSizeOf else DimensionalityOf
    requires Satisfies(c, sol) && Allows(c.ports, sol, asg, dom)
    ensures var r := ApplySameFeature(f, c.ports, asg, dom);
      r.effect != Contradiction && Allows(c.ports, sol, r.asg, r.dom)
  {
    var ports := c.ports;
    var allowed := AllowedKeys(f, ports, asg, dom);
    forall p | p in ports
      ensures Key(f, sol[p]) in allowed
    {
      var first := FirstAssignedKey(f, ports, asg);
      if first.Some? {
        var p0 :| p0 in ports && p0 in asg && Key(f, asg[p0]) == first;
        assert Agree(c, sol[p], sol[p0]);
      } else {
        forall q | q in ports
          ensures Key(f, sol[p]) in KeySet(f, DomainOf(dom, q))
        {
          assert Agree(c, sol[p], sol[q]);
        }
      }
    }
    FilterAllSucceeds(f, ports, allowed, asg, dom);
    FilterAllDomains(f, ports, allowed, asg, dom);
    FilterAllAssigns(f, ports, allowed, asg, dom);
    forall p | p in ports
      ensures sol[p] in KeepKeys(DomainOf(dom, p), f, allowed)
    {
    }
    forall p | p in ports && |KeepKeys(DomainOf(dom, p), f, allowed)| == 1
      ensures KeepKeys(DomainOf(dom, p), f, allowed)[0] == sol[p]
    {
      SingletonSeq(KeepKeys(DomainOf(dom, p), f, allowed));
    }
  }

  /** A same-type constraint over no ports at all is a contradiction: the
      intersection of no domains is taken to be empty. */
  lemma EmptySameTypesContradicts(asg: Assignments, dom: Domains)
    ensures ApplySameTypes([], asg, dom).effect == Contradiction
  {
  }

  /** Propagation is sound: a choice of types that satisfies a constraint
      and is still possible before it is applied is never ruled out by it,
      so in particular the constraint does not report a contradiction. The
      one exception is a same-type constraint over no ports. */
  lemma ApplyKeepsSolutions(c: Constraint, asg: Assignments, dom: Domains, sol: Assignments)
    requires c.SameTypes? ==> |c.ports| > 0
    requires Satisfies(c, sol) && Allows(c.ports, sol, asg, dom)
    ensures var r := Apply(c, asg, dom);
      r.effect != Contradiction && Allows(c.ports, sol, r.asg, r.dom)
  {
    match c
    case SameTypes(ports) => SameTypesKeepsSolutions(ports, asg, dom, sol);
    case SameCompositeSize(ports) => SameFeatureKeepsSolutions(c, CompositeSizeOf, asg, dom, sol);
    case SameDimensionality(ports) => SameFeatureKeepsSolutions(c, DimensionalityOf, asg, dom, sol);
  }
}
