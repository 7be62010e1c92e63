/** The type concretiser's search: worklist propagation of the port
    constraints from one freshly assigned port, and the backtracking search
    over the ports in order (`propagateConstraintsFromCurrentPort` and
    `concretiseTypesInGraphImpl` in JelloCompilerFunctions.swift). */
module Solver {
  import opened Results
  import opened Sequences
  import opened GraphTypes
  import opened Constraints

  /** `constraintsMapped`: for each port, the constraints mentioning it, in
      the order they were created. */
  type ConstraintMap = map<PortId, seq<Constraint>>

  function ConstraintsOf(cmap: ConstraintMap, p: PortId): seq<Constraint> {
    if p in cmap then cmap[p] else []
  }

  /** Every constraint is filed under each of its ports and only under them,
      which is how `concretiseTypesInGraph` builds the map. */
  ghost predicate WellFiled(cmap: ConstraintMap) {
    && (forall p, c | c in ConstraintsOf(cmap, p) :: p in c.ports)
    && (forall p, q, c | c in ConstraintsOf(cmap, p) && q in c.ports :: c in ConstraintsOf(cmap, q))
  }

  /** The graph only ever creates same-type constraints. */
  ghost predicate OnlySameTypes(cmap: ConstraintMap) {
    forall p, c | c in ConstraintsOf(cmap, p) :: c.SameTypes?
  }

  // ---------------------------------------------------------------------
  // A measure that every successful constraint application lowers
  // ---------------------------------------------------------------------

  /** A port weighs the size of its domain, plus one while it is unassigned. */
  function PortWeight(asg: Assignments, dom: Domains, p: PortId): nat {
    |DomainOf(dom, p)| + (if p in asg then 0 else 1)
  }

  function Weight(keys: seq<PortId>, asg: Assignments, dom: Domains): nat {
    if keys == [] then 0 else PortWeight(asg, dom, keys[0]) + Weight(keys[1..], asg, dom)
  }

  /** No port got heavier, and every port of `strict` got lighter. */
  ghost predicate Lighter(asg: Assignments, dom: Domains, asg': Assignments, dom': Domains, strict: seq<PortId>) {
    forall p ::
      && PortWeight(asg', dom', p) <= PortWeight(asg, dom, p)
      && (p in strict ==> PortWeight(asg', dom', p) < PortWeight(asg, dom, p))
  }

  lemma {:induction false} WeightNoHeavier(keys: seq<PortId>, asg: Assignments, dom: Domains, asg': Assignments, dom': Domains, strict: seq<PortId>)
    requires Lighter(asg, dom, asg', dom', strict)
    ensures Weight(keys, asg', dom') <= Weight(keys, asg, dom)
    ensures (exists q | q in keys :: q in strict) ==> Weight(keys, asg', dom') < Weight(keys, asg, dom)
  {
    if keys != [] {
      WeightNoHeavier(keys[1..], asg, dom, asg', dom', strict);
      assert forall q | q in keys :: q == keys[0] || q in keys[1..];
    }
  }

  /** A same-type constraint lowers the weight of each port it changes and
      changes only ports that have a domain. */
  lemma SameTypesLighter(ports: PortSet, asg: Assignments, dom: Domains)
    requires DistinctDomains(dom)
    ensures var r := ApplySameTypes(ports, asg, dom);
      r.effect != Contradiction ==>
        Lighter(asg, dom, r.asg, r.dom, ChangedPorts(r.effect)) && forall p | p in ChangedPorts(r.effect) :: p in dom
  {
    if |AssignedValues(ports, asg)| > 0 {
      PinnedLighter(ports, asg, dom);
    } else {
      NarrowedLighter(ports, asg, dom);
    }
  }

  /** The case where some port of the constraint is assigned: the others
      are pinned to its value. */
  lemma PinnedLighter(ports: PortSet, asg: Assignments, dom: Domains)
    requires |AssignedValues(ports, asg)| > 0
    ensures var r := ApplySameTypes(ports, asg, dom);
      r.effect != Contradiction ==>
        Lighter(asg, dom, r.asg, r.dom, ChangedPorts(r.effect)) && forall p | p in ChangedPorts(r.effect) :: p in dom
  {
    var vals := AssignedValues(ports, asg);
    var r := ApplySameTypes(ports, asg, dom);
    SameTypesFrame(ports, asg, dom);
    if r.effect != Contradiction {
      var t := vals[0];
      PinAllOutcome(ports, t, asg, dom);
      forall q | q in ports && q in asg
        ensures asg[q] == t
      {
        assert asg[q] in vals;
      }
      forall p
        ensures PortWeight(r.asg, r.dom, p) <= PortWeight(asg, dom, p)
        ensures p in ChangedPorts(r.effect) ==> PortWeight(r.asg, r.dom, p) < PortWeight(asg, dom, p) && p in dom
      {
        if p in ports && Lookup(asg, p) != Some(t) {
          assert t in DomainOf(dom, p);
        }
      }
    }
  }

  /** The case where no port of the constraint is assigned: every domain
      is narrowed to the common one. */
  lemma NarrowedLighter(ports: PortSet, asg: Assignments, dom: Domains)
    requires DistinctDomains(dom)
    requires |AssignedValues(ports, asg)| == 0
    ensures var r := ApplySameTypes(ports, asg, dom);
      r.effect != Contradiction ==>
        Lighter(asg, dom, r.asg, r.dom, ChangedPorts(r.effect)) && forall p | p in ChangedPorts(r.effect) :: p in dom
  {
    var r := ApplySameTypes(ports, asg, dom);
    SameTypesFrame(ports, asg, dom);
    if r.effect != Contradiction {
      var common := CommonDomain(ports, dom);
      NarrowAllOutcome(ports, common, asg, dom);
      assert NoDuplicates(DomainOf(dom, ports[0]));
      forall p
        ensures PortWeight(r.asg, r.dom, p) <= PortWeight(asg, dom, p)
        ensures p in ChangedPorts(r.effect) ==> PortWeight(r.asg, r.dom, p) < PortWeight(asg, dom, p) && p in dom
      {
        if p in ports && |common| != |DomainOf(dom, p)| {
          SubsetLength(common, DomainOf(dom, p));
          assert common[0] in DomainOf(dom, p);
        }
      }
    }
  }

  /** A feature constraint lowers the weight of each port it changes and
      changes only ports that have a domain. */
  lemma SameFeatureLighter(f: Feature, ports: PortSet, asg: Assignments, dom: Domains)
    ensures var r := ApplySameFeature(f, ports, asg, dom);
      r.effect != Contradiction ==>
        Lighter(asg, dom, r.asg, r.dom, ChangedPorts(r.effect)) && forall p | p in ChangedPorts(r.effect) :: p in dom
  {
    var allowed := AllowedKeys(f, ports, asg, dom);
    var r := ApplySameFeature(f, ports, asg, dom);
    FilterAllDomains(f, ports, allowed, asg, dom);
    FilterAllAssigns(f, ports, allowed, asg, dom);
    FilterAllChanged(f, ports, allowed, asg, dom);
    FilterAllFrame(f, ports, allowed, asg, dom);
    if r.effect != Contradiction {
      forall p
        ensures PortWeight(r.asg, r.dom, p) <= PortWeight(asg, dom, p)
        ensures p in ChangedPorts(r.effect) ==> PortWeight(r.asg, r.dom, p) < PortWeight(asg, dom, p) && p in dom
      {
      }
    }
  }

  lemma ApplyLighter(c: Constraint, asg: Assignments, dom: Domains)
    requires DistinctDomains(dom)
    ensures var r := Apply(c, asg, dom);
      r.effect != Contradiction ==>
        Lighter(asg, dom, r.asg, r.dom, ChangedPorts(r.effect)) && forall p | p in ChangedPorts(r.effect) :: p in dom
  {
    match c
    case SameTypes(ports) => SameTypesLighter(ports, asg, dom);
    case SameCompositeSize(ports) => SameFeatureLighter(CompositeSizeOf, ports, asg, dom);
    case SameDimensionality(ports) => SameFeatureLighter(DimensionalityOf, ports, asg, dom);
  }

  // ---------------------------------------------------------------------
  // propagateConstraintsFromCurrentPort
  // ---------------------------------------------------------------------

  /** The state after applying one port's constraints in turn; `ok` is false
      once one of them is a contradiction. */
  datatype Step = Step(ok: bool, asg: Assignments, dom: Domains, dirty: seq<PortId>)

  /** The inner loop: applies each constraint to the state the previous one
      left, collecting the dirty ports in order. */
  function ApplyEach(cs: seq<Constraint>, asg: Assignments, dom: Domains): (r: Step)
  {
    if cs == [] then Step(true, asg, dom, [])
    else
      var a := Apply(cs[0], asg, dom);
      if a.effect == Contradiction then Step(false, a.asg, a.dom, [])
      else
        var rest := ApplyEach(cs[1..], a.asg, a.dom);
        rest.(dirty := ChangedPorts(a.effect) + rest.dirty)
  }

  /** Every domain lists only values the matching domain of `dom0` lists. */
  predicate Within(dom0: Domains, dom: Domains) {
    forall p, x | p in dom && x in dom[p] :: x in DomainOf(dom0, p)
  }

  lemma {:induction false} ApplyEachLighter(cs: seq<Constraint>, asg: Assignments, dom: Domains)
    requires DistinctDomains(dom)
    ensures var r := ApplyEach(cs, asg, dom);
      r.ok ==>
        && Lighter(asg, dom, r.asg, r.dom, r.dirty)
        && (forall p | p in r.dirty :: p in dom)
        && DistinctDomains(r.dom)
        && r.dom.Keys == dom.Keys
  {
    if cs != [] {
      var a := Apply(cs[0], asg, dom);
      ApplyFrame(cs[0], asg, dom);
      if a.effect != Contradiction {
        ApplyLighter(cs[0], asg, dom);
        ApplyEachLighter(cs[1..], a.asg, a.dom);
      }
    }
  }

  /** The whole state a sequence of constraints leaves behind keeps to the
      original domains: it only narrows them, and every assignment it makes
      is a value of the port's original domain. */
  lemma {:induction false} ApplyEachStaysWithin(cs: seq<Constraint>, asg: Assignments, dom: Domains, dom0: Domains)
    requires Within(dom0, dom)
    requires forall p | p in asg :: asg[p] in DomainOf(dom0, p)
    ensures var r := ApplyEach(cs, asg, dom);
      Within(dom0, r.dom) && forall p | p in r.asg :: r.asg[p] in DomainOf(dom0, p)
  {
    if cs != [] {
      var a := Apply(cs[0], asg, dom);
      ApplyFrame(cs[0], asg, dom);
      forall p | p in a.asg
        ensures a.asg[p] in DomainOf(dom0, p)
      {
        if Lookup(asg, p) != Some(a.asg[p]) {
          assert DomainOf(a.dom, p) == [a.asg[p]];
        }
      }
      if a.effect != Contradiction {
        ApplyEachStaysWithin(cs[1..], a.asg, a.dom, dom0);
      }
    }
  }

  /** The outcome of propagation: the assignments it reached, a
      contradiction, or the force-unwrap of an unassigned queued port, which
      traps in the source. */
  datatype Propagation = Consistent(asg: Assignments) | Contradicted | UnassignedPort

  /** Pops ports off the queue; each popped port must be assigned, and its
      constraints are applied in turn, threading assignments and domains
      through, with the ports they report dirty appended to the queue.
      `keys` lists every port that has a domain; it only measures progress. */
  function Propagate(keys: seq<PortId>, cmap: ConstraintMap, queue: seq<PortId>, asg: Assignments, dom: Domains): Propagation
    requires DistinctDomains(dom)
    requires forall p | p in dom :: p in keys
    decreases Weight(keys, asg, dom), |queue|
  {
    if queue == [] then Consistent(asg)
    else if queue[0] !in asg then UnassignedPort
    else
      var s := ApplyEach(ConstraintsOf(cmap, queue[0]), asg, dom);
      if !s.ok then Contradicted
      else
        ApplyEachLighter(ConstraintsOf(cmap, queue[0]), asg, dom);
        WeightNoHeavier(keys, asg, dom, s.asg, s.dom, s.dirty);
        assert s.dirty != [] ==> s.dirty[0] in keys;
        Propagate(keys, cmap, queue[1..] + s.dirty, s.asg, s.dom)
  }

  /** `propagateConstraintsFromCurrentPort(port: start, ...)`. The domains
      are a private copy: only the assignments come back. */
  function PropagateFrom(keys: seq<PortId>, cmap: ConstraintMap, start: PortId, asg: Assignments, dom: Domains): Propagation
    requires DistinctDomains(dom)
    requires forall p | p in dom :: p in keys
  {
    Propagate(keys, cmap, [start], asg, dom)
  }

  // ---------------------------------------------------------------------
  // What propagation promises
  // ---------------------------------------------------------------------

  /** `sol` gives every listed port a type from its domain and satisfies
      every constraint of the map. */
  ghost predicate Solves(cmap: ConstraintMap, keys: seq<PortId>, dom: Domains, sol: Assignments) {
    && (forall p | p in keys :: p in sol && sol[p] in DomainOf(dom, p))
    && (forall p, c | c in ConstraintsOf(cmap, p) :: Satisfies(c, sol))
  }

  /** Every constraint's ports are listed. */
  ghost predicate Covers(cmap: ConstraintMap, keys: seq<PortId>) {
    forall p, c, q | c in ConstraintsOf(cmap, p) && q in c.ports :: q in keys
  }

  /** Propagation never discards a solution: when `sol` satisfies every
      constraint and is still possible, propagation reports no
      contradiction, and the assignments it reaches agree with `sol`. */
  lemma {:induction false} PropagateKeepsSolutions(keys: seq<PortId>, cmap: ConstraintMap, queue: seq<PortId>, asg: Assignments, dom: Domains, sol: Assignments)
    requires DistinctDomains(dom)
    requires forall p | p in dom :: p in keys
    requires WellFiled(cmap) && Covers(cmap, keys)
    requires forall p, c | c in ConstraintsOf(cmap, p) :: Satisfies(c, sol)
    requires Allows(keys, sol, asg, dom)
    ensures Propagate(keys, cmap, queue, asg, dom) != Contradicted
    ensures var r := Propagate(keys, cmap, queue, asg, dom);
      r.Consistent? ==> forall p | p in keys && p in r.asg :: r.asg[p] == sol[p]
    decreases Weight(keys, asg, dom), |queue|
  {
    if queue != [] && queue[0] in asg {
      var cs := ConstraintsOf(cmap, queue[0]);
      var s := ApplyEach(cs, asg, dom);
      ApplyEachKeepsSolutions(keys, cmap, queue[0], cs, asg, dom, sol);
      ApplyEachLighter(cs, asg, dom);
      WeightNoHeavier(keys, asg, dom, s.asg, s.dom, s.dirty);
      assert s.dirty != [] ==> s.dirty[0] in keys;
      PropagateKeepsSolutions(keys, cmap, queue[1..] + s.dirty, s.asg, s.dom, sol);
    }
  }

  lemma {:induction false} ApplyEachKeepsSolutions(keys: seq<PortId>, cmap: ConstraintMap, p: PortId, cs: seq<Constraint>, asg: Assignments, dom: Domains, sol: Assignments)
    requires forall c | c in cs :: c in ConstraintsOf(cmap, p)
    requires WellFiled(cmap) && Covers(cmap, keys)
    requires forall q, c | c in ConstraintsOf(cmap, q) :: Satisfies(c, sol)
    requires Allows(keys, sol, asg, dom)
    ensures var r := ApplyEach(cs, asg, dom);
      r.ok && Allows(keys, sol, r.asg, r.dom)
  {
    if cs != [] {
      var c := cs[0];
      assert c in ConstraintsOf(cmap, p);
      assert p in c.ports;
      assert forall q | q in c.ports :: q in keys;
      ApplyKeepsSolutions(c, asg, dom, sol);
      ApplyFrame(c, asg, dom);
      var a := Apply(c, asg, dom);
      assert Allows(keys, sol, a.asg, a.dom) by {
        forall q | q in keys
          ensures q in sol && sol[q] in DomainOf(a.dom, q) && (q in a.asg ==> a.asg[q] == sol[q])
        {
          if q !in c.ports {
            assert Lookup(a.asg, q) == Lookup(asg, q);
          }
        }
      }
      ApplyEachKeepsSolutions(keys, cmap, p, cs[1..], a.asg, a.dom, sol);
    }
  }

  /** Every assignment propagation reaches is a value of the port's
      original domain. */
  lemma {:induction false} PropagateStaysWithin(keys: seq<PortId>, cmap: ConstraintMap, queue: seq<PortId>, asg: Assignments, dom: Domains, dom0: Domains)
    requires DistinctDomains(dom)
    requires forall p | p in dom :: p in keys
    requires Within(dom0, dom)
    requires forall p | p in asg :: asg[p] in DomainOf(dom0, p)
    ensures var r := Propagate(keys, cmap, queue, asg, dom);
      r.Consistent? ==> forall p | p in r.asg :: r.asg[p] in DomainOf(dom0, p)
    decreases Weight(keys, asg, dom), |queue|
  {
    if queue != [] && queue[0] in asg {
      var cs := ConstraintsOf(cmap, queue[0]);
      var s := ApplyEach(cs, asg, dom);
      if s.ok {
        ApplyEachStaysWithin(cs, asg, dom, dom0);
        ApplyEachLighter(cs, asg, dom);
        WeightNoHeavier(keys, asg, dom, s.asg, s.dom, s.dirty);
        assert s.dirty != [] ==> s.dirty[0] in keys;
        PropagateStaysWithin(keys, cmap, queue[1..] + s.dirty, s.asg, s.dom, dom0);
      }
    }
  }

  // ---------------------------------------------------------------------
  // Same-type constraints only: no trap, and the reached state is settled
  // ---------------------------------------------------------------------

  /** `asg'` keeps every assignment of `asg`. */
  predicate Extends(asg: Assignments, asg': Assignments) {
    forall p | p in asg :: p in asg' && asg'[p] == asg[p]
  }

  /** Once any port of `c` is assigned, all are, to the same type. */
  predicate Closed(c: Constraint, asg: Assignments) {
    forall p, q | p in c.ports && q in c.ports && p in asg :: q in asg && asg[q] == asg[p]
  }

  /** Every assigned port that is not waiting in the queue has all its
      constraints closed. */
  predicate Settled(cmap: ConstraintMap, queue: seq<PortId>, asg: Assignments) {
    forall p, c | p in asg && p !in queue && c in ConstraintsOf(cmap, p) :: Closed(c, asg)
  }

  /** A same-type constraint applied with one of its ports assigned closes:
      it keeps every assignment, assigns every port, and reports exactly the
      ports it newly assigned. */
  lemma SameTypesFromAssigned(ports: PortSet, asg: Assignments, dom: Domains, p: PortId)
    requires p in ports && p in asg
    ensures var r := ApplySameTypes(ports, asg, dom);
      r.effect != Contradiction ==>
        && Extends(asg, r.asg)
        && Closed(SameTypes(ports), r.asg)
        && (forall q :: q in ChangedPorts(r.effect) <==> q in r.asg && q !in asg)
  {
    var r := ApplySameTypes(ports, asg, dom);
    var vals := AssignedValues(ports, asg);
    assert asg[p] in vals;
    if r.effect != Contradiction {
      var t := vals[0];
      forall v | v in vals
        ensures v == t
      {
      }
      forall q | q in ports && q in asg
        ensures asg[q] == t
      {
        assert asg[q] in vals;
      }
      PinAllOutcome(ports, t, asg, dom);
      PinAllFrame(ports, t, asg, dom);
    }
  }

  /** A closed constraint with an assigned port stays closed when
      assignments are only added. */
  lemma ClosedKept(c: Constraint, asg: Assignments, asg': Assignments, p: PortId)
    requires p in c.ports && p in asg
    requires Closed(c, asg) && Extends(asg, asg')
    ensures Closed(c, asg')
  {
    forall q, q' | q in c.ports && q' in c.ports && q in asg'
      ensures q' in asg' && asg'[q'] == asg'[q]
    {
      assert q in asg && q' in asg;
    }
  }

  /** The inner loop over a port's same-type constraints, each mentioning
      the port, keeps every assignment and reports exactly the ports it
      newly assigned. */
  lemma {:induction false} ApplyEachFromAssigned(cs: seq<Constraint>, asg: Assignments, dom: Domains, p: PortId)
    requires p in asg
    requires forall c | c in cs :: c.SameTypes? && p in c.ports
    ensures var r := ApplyEach(cs, asg, dom);
      r.ok ==> Extends(asg, r.asg) && forall q :: q in r.dirty <==> q in r.asg && q !in asg
  {
    if cs != [] {
      var c := cs[0];
      SameTypesFromAssigned(c.ports, asg, dom, p);
      var a := Apply(c, asg, dom);
      if a.effect != Contradiction {
        ApplyEachFromAssigned(cs[1..], a.asg, a.dom, p);
      }
    }
  }

  /** ... and leaves every one of those constraints closed. */
  lemma {:induction false} ApplyEachCloses(cs: seq<Constraint>, asg: Assignments, dom: Domains, p: PortId)
    requires p in asg
    requires forall c | c in cs :: c.SameTypes? && p in c.ports
    ensures var r := ApplyEach(cs, asg, dom);
      r.ok ==> forall c | c in cs :: Closed(c, r.asg)
  {
    if cs != [] {
      var c := cs[0];
      SameTypesFromAssigned(c.ports, asg, dom, p);
      var a := Apply(c, asg, dom);
      if a.effect != Contradiction {
        ApplyEachCloses(cs[1..], a.asg, a.dom, p);
        ApplyEachFromAssigned(cs[1..], a.asg, a.dom, p);
        var r := ApplyEach(cs[1..], a.asg, a.dom);
        if r.ok {
          ClosedKept(c, a.asg, r.asg, p);
          assert forall c' | c' in cs :: c' == c || c' in cs[1..];
        }
      }
    }
  }

  /** With same-type constraints only, a queue of assigned ports never
      reaches an unassigned one, and a consistent outcome keeps every
      assignment and leaves every assigned port settled. */
  lemma {:induction false} PropagateSettles(keys: seq<PortId>, cmap: ConstraintMap, queue: seq<PortId>, asg: Assignments, dom: Domains)
    requires DistinctDomains(dom)
    requires forall p | p in dom :: p in keys
    requires WellFiled(cmap) && OnlySameTypes(cmap)
    requires forall q | q in queue :: q in asg
    requires Settled(cmap, queue, asg)
    ensures Propagate(keys, cmap, queue, asg, dom) != UnassignedPort
    ensures var r := Propagate(keys, cmap, queue, asg, dom);
      r.Consistent? ==> Extends(asg, r.asg) && Settled(cmap, [], r.asg)
    decreases Weight(keys, asg, dom), |queue|
  {
    if queue != [] {
      var p := queue[0];
      var cs := ConstraintsOf(cmap, p);
      var s := ApplyEach(cs, asg, dom);
      ApplyEachFromAssigned(cs, asg, dom, p);
      ApplyEachCloses(cs, asg, dom, p);
      if s.ok {
        ApplyEachLighter(cs, asg, dom);
        WeightNoHeavier(keys, asg, dom, s.asg, s.dom, s.dirty);
        assert s.dirty != [] ==> s.dirty[0] in keys;
        var queue' := queue[1..] + s.dirty;
        forall u, c | u in s.asg && u !in queue' && c in ConstraintsOf(cmap, u)
          ensures Closed(c, s.asg)
        {
          if u != p {
            assert u in asg && u !in queue;
            ClosedKept(c, asg, s.asg, u);
          }
        }
        PropagateSettles(keys, cmap, queue', s.asg, s.dom);
      }
    }
  }

  /** Assigning a port that no constraint of an assigned port mentions keeps
      every other assigned port settled; only the new port waits. */
  lemma FreshSettled(cmap: ConstraintMap, asg: Assignments, p: PortId, v: ConcreteType)
    requires WellFiled(cmap)
    requires p !in asg && Settled(cmap, [], asg)
    ensures Settled(cmap, [p], asg[p := v])
  {
    var a := asg[p := v];
    forall u, c | u in a && u !in [p] && c in ConstraintsOf(cmap, u)
      ensures Closed(c, a)
    {
      assert u in asg && u in c.ports;
      assert Closed(c, asg);
      assert p !in c.ports;
    }
  }

  // ---------------------------------------------------------------------
  // concretiseTypesInGraphImpl and the singleton pre-pass
  // ---------------------------------------------------------------------

  /** The outcome of the search: an assignment, none (the source returns
      `nil` or throws `couldNotConcretiseTypesError`), or a trap inside
      propagation. */
  datatype Solved = Solution(asg: Assignments) | NoSolution | Crashed

  /** `concretiseTypesInGraphImpl`: takes the first remaining port; a port
      without a domain fails; an assigned port is propagated from, and on
      success the search goes on with the assignments as they were before
      that propagation; an unassigned port tries each value of its domain in
      order, propagating from it and searching on from the result. */
  function Search(keys: seq<PortId>, cmap: ConstraintMap, dom: Domains, remaining: seq<PortId>, asg: Assignments): Solved
    requires DistinctDomains(dom)
    requires forall p | p in dom :: p in keys
    decreases |remaining|, 1
  {
    if remaining == [] then Solution(asg)
    else
      var p := remaining[0];
      if p !in dom then NoSolution
      else if p in asg then
        match PropagateFrom(keys, cmap, p, asg, dom)
        case Contradicted => NoSolution
        case UnassignedPort => Crashed
        case Consistent(_) => Search(keys, cmap, dom, remaining[1..], asg)
      else TryValues(keys, cmap, dom, remaining, dom[p], asg)
  }

  /** The `for value in domain` loop of `concretiseTypesInGraphImpl`. */
  function TryValues(keys: seq<PortId>, cmap: ConstraintMap, dom: Domains, remaining: seq<PortId>, values: seq<ConcreteType>, asg: Assignments): Solved
    requires DistinctDomains(dom)
    requires forall p | p in dom :: p in keys
    requires |remaining| > 0
    decreases |remaining|, 0, |values|
  {
    if values == [] then NoSolution
    else
      var p := remaining[0];
      match PropagateFrom(keys, cmap, p, asg[p := values[0]], dom)
      case Contradicted => TryValues(keys, cmap, dom, remaining, values[1..], asg)
      case UnassignedPort => Crashed
      case Consistent(next) =>
        var r := Search(keys, cmap, dom, remaining[1..], next);
        if r.NoSolution? then TryValues(keys, cmap, dom, remaining, values[1..], asg) else r
  }

  /** The pre-pass of `concretiseTypesInGraph`: each port whose domain has
      exactly one value is assigned it and propagated from, keeping the
      propagated assignments; a contradiction fails the whole concretisation. */
  function Prepass(keys: seq<PortId>, cmap: ConstraintMap, dom: Domains, ports: seq<PortId>, asg: Assignments): Solved
    requires DistinctDomains(dom)
    requires forall p | p in dom :: p in keys
  {
    if ports == [] then Solution(asg)
    else
      var p := ports[0];
      if p in dom && |dom[p]| == 1 then
        match PropagateFrom(keys, cmap, p, asg[p := dom[p][0]], dom)
        case Contradicted => NoSolution
        case UnassignedPort => Crashed
        case Consistent(next) => Prepass(keys, cmap, dom, ports[1..], next)
      else Prepass(keys, cmap, dom, ports[1..], asg)
  }

  /** The solving part of `concretiseTypesInGraph`: the pre-pass over the
      ports in order, then the search over all of them. */
  function Solve(keys: seq<PortId>, cmap: ConstraintMap, dom: Domains): Solved
    requires DistinctDomains(dom)
    requires forall p | p in dom :: p in keys
  {
    match Prepass(keys, cmap, dom, keys, map[])
    case Solution(asg) => Search(keys, cmap, dom, keys, asg)
    case NoSolution => NoSolution
    case Crashed => Crashed
  }

  // ---------------------------------------------------------------------
  // Soundness and completeness of the search
  // ---------------------------------------------------------------------

  /** Every assignment is a value of its port's domain. */
  predicate InDomains(asg: Assignments, dom: Domains) {
    forall p | p in asg :: asg[p] in DomainOf(dom, p)
  }

  /** The shared assumptions of the search lemmas: domains as
      `getDomain` builds them for exactly the listed ports, and the
      constraint map of a graph. */
  ghost predicate Setting(keys: seq<PortId>, cmap: ConstraintMap, dom: Domains) {
    && DistinctDomains(dom)
    && (forall p | p in dom :: p in keys)
    && (forall p | p in keys :: p in dom)
    && WellFiled(cmap) && OnlySameTypes(cmap) && Covers(cmap, keys)
  }

  /** Propagating from an assigned port of a settled state never traps, and
      a consistent outcome is settled, keeps every assignment and stays in
      the domains. */
  lemma PropagateFromSettled(keys: seq<PortId>, cmap: ConstraintMap, p: PortId, asg: Assignments, dom: Domains)
    requires Setting(keys, cmap, dom)
    requires p in asg && Settled(cmap, [p], asg) && InDomains(asg, dom)
    ensures PropagateFrom(keys, cmap, p, asg, dom) != UnassignedPort
    ensures var r := PropagateFrom(keys, cmap, p, asg, dom);
      r.Consistent? ==> Extends(asg, r.asg) && Settled(cmap, [], r.asg) && InDomains(r.asg, dom)
  {
    PropagateSettles(keys, cmap, [p], asg, dom);
    PropagateStaysWithin(keys, cmap, [p], asg, dom, dom);
  }

  lemma {:induction false} SearchSound(keys: seq<PortId>, cmap: ConstraintMap, dom: Domains, remaining: seq<PortId>, asg: Assignments)
    requires Setting(keys, cmap, dom)
    requires InDomains(asg, dom) && Settled(cmap, [], asg)
    ensures Search(keys, cmap, dom, remaining, asg) != Crashed
    ensures var r := Search(keys, cmap, dom, remaining, asg);
      r.Solution? ==>
        && Extends(asg, r.asg) && InDomains(r.asg, dom) && Settled(cmap, [], r.asg)
        && forall q | q in remaining :: q in r.asg
    decreases |remaining|, 1
  {
    if remaining != [] {
      var p := remaining[0];
      assert forall q | q in remaining :: q == p || q in remaining[1..];
      if p in dom {
        if p in asg {
          PropagateFromSettled(keys, cmap, p, asg, dom);
          SearchSound(keys, cmap, dom, remaining[1..], asg);
        } else {
          TryValuesSound(keys, cmap, dom, remaining, dom[p], asg);
        }
      }
    }
  }

  lemma {:induction false} TryValuesSound(keys: seq<PortId>, cmap: ConstraintMap, dom: Domains, remaining: seq<PortId>, values: seq<ConcreteType>, asg: Assignments)
    requires Setting(keys, cmap, dom)
    requires InDomains(asg, dom) && Settled(cmap, [], asg)
    requires |remaining| > 0 && remaining[0] !in asg
    requires forall v | v in values :: v in DomainOf(dom, remaining[0])
    ensures TryValues(keys, cmap, dom, remaining, values, asg) != Crashed
    ensures var r := TryValues(keys, cmap, dom, remaining, values, asg);
      r.Solution? ==>
        && Extends(asg, r.asg) && InDomains(r.asg, dom) && Settled(cmap, [], r.asg)
        && forall q | q in remaining :: q in r.asg
    decreases |remaining|, 0, |values|
  {
    if values != [] {
      var p := remaining[0];
      var a := asg[p := values[0]];
      FreshSettled(cmap, asg, p, values[0]);
      PropagateFromSettled(keys, cmap, p, a, dom);
      match PropagateFrom(keys, cmap, p, a, dom)
      case Contradicted =>
        TryValuesSound(keys, cmap, dom, remaining, values[1..], asg);
      case Consistent(next) =>
        TriedValueSound(keys, cmap, dom, remaining, asg, values[0], next);
        TryValuesSound(keys, cmap, dom, remaining, values[1..], asg);
    }
  }

  /** Searching on after a consistent propagation from a tried value. */
  lemma {:induction false} TriedValueSound(keys: seq<PortId>, cmap: ConstraintMap, dom: Domains, remaining: seq<PortId>, asg: Assignments, v: ConcreteType, next: Assignments)
    requires Setting(keys, cmap, dom)
    requires |remaining| > 0
    requires Extends(asg[remaining[0] := v], next) && InDomains(next, dom) && Settled(cmap, [], next)
    ensures Search(keys, cmap, dom, remaining[1..], next) != Crashed
    ensures var r := Search(keys, cmap, dom, remaining[1..], next);
      r.Solution? ==>
        && Extends(asg[remaining[0] := v], r.asg) && InDomains(r.asg, dom) && Settled(cmap, [], r.asg)
        && forall q | q in remaining :: q in r.asg
    decreases |remaining|, 0, 0
  {
    SearchSound(keys, cmap, dom, remaining[1..], next);
    assert forall q | q in remaining :: q == remaining[0] || q in remaining[1..];
  }

  lemma {:induction false} PrepassSound(keys: seq<PortId>, cmap: ConstraintMap, dom: Domains, ports: seq<PortId>, asg: Assignments)
    requires Setting(keys, cmap, dom)
    requires InDomains(asg, dom) && Settled(cmap, [], asg)
    ensures Prepass(keys, cmap, dom, ports, asg) != Crashed
    ensures var r := Prepass(keys, cmap, dom, ports, asg);
      r.Solution? ==> Extends(asg, r.asg) && InDomains(r.asg, dom) && Settled(cmap, [], r.asg)
  {
    if ports != [] {
      var p := ports[0];
      if p in dom && |dom[p]| == 1 {
        var a := asg[p := dom[p][0]];
        if p in asg {
          assert asg[p] in dom[p];
          assert a == asg;
        } else {
          FreshSettled(cmap, asg, p, dom[p][0]);
        }
        PropagateFromSettled(keys, cmap, p, a, dom);
        match PropagateFrom(keys, cmap, p, a, dom)
        case Contradicted =>
        case Consistent(next) =>
          PrepassSound(keys, cmap, dom, ports[1..], next);
      } else {
        PrepassSound(keys, cmap, dom, ports[1..], asg);
      }
    }
  }

  /** Soundness of `concretiseTypesInGraph`'s solver: it never traps, and an
      assignment it returns types every port from its domain and satisfies
      every constraint. */
  lemma SolveSound(keys: seq<PortId>, cmap: ConstraintMap, dom: Domains)
    requires Setting(keys, cmap, dom)
    ensures Solve(keys, cmap, dom) != Crashed
    ensures var r := Solve(keys, cmap, dom);
      r.Solution? ==> Solves(cmap, keys, dom, r.asg)
  {
    PrepassSound(keys, cmap, dom, keys, map[]);
    match Prepass(keys, cmap, dom, keys, map[])
    case Solution(asg) =>
      SearchSound(keys, cmap, dom, keys, asg);
      var r := Search(keys, cmap, dom, keys, asg);
      if r.Solution? {
        forall p, c | c in ConstraintsOf(cmap, p)
          ensures Satisfies(c, r.asg)
        {
          assert p in c.ports && p in keys;
          assert Closed(c, r.asg);
        }
      }
    case NoSolution =>
  }

  /** Propagating from a port whose assignment agrees with a solution is
      never a contradiction, and reaches assignments that still agree. */
  lemma PropagateFromSolution(keys: seq<PortId>, cmap: ConstraintMap, p: PortId, asg: Assignments, dom: Domains, sol: Assignments)
    requires Setting(keys, cmap, dom)
    requires Solves(cmap, keys, dom, sol)
    requires Allows(keys, sol, asg, dom)
    ensures PropagateFrom(keys, cmap, p, asg, dom) != Contradicted
    ensures var r := PropagateFrom(keys, cmap, p, asg, dom);
      r.Consistent? && InDomains(r.asg, dom) ==> Allows(keys, sol, r.asg, dom)
  {
    PropagateKeepsSolutions(keys, cmap, [p], asg, dom, sol);
  }

  lemma {:induction false} SearchComplete(keys: seq<PortId>, cmap: ConstraintMap, dom: Domains, remaining: seq<PortId>, asg: Assignments, sol: Assignments)
    requires Setting(keys, cmap, dom)
    requires InDomains(asg, dom) && Settled(cmap, [], asg)
    requires Solves(cmap, keys, dom, sol) && Allows(keys, sol, asg, dom)
    requires forall q | q in remaining :: q in keys
    ensures Search(keys, cmap, dom, remaining, asg).Solution?
    decreases |remaining|, 1
  {
    if remaining != [] {
      var p := remaining[0];
      if p in asg {
        PropagateFromSettled(keys, cmap, p, asg, dom);
        PropagateFromSolution(keys, cmap, p, asg, dom, sol);
        SearchComplete(keys, cmap, dom, remaining[1..], asg, sol);
      } else {
        TryValuesComplete(keys, cmap, dom, remaining, dom[p], asg, sol);
      }
    }
  }

  lemma {:induction false} TryValuesComplete(keys: seq<PortId>, cmap: ConstraintMap, dom: Domains, remaining: seq<PortId>, values: seq<ConcreteType>, asg: Assignments, sol: Assignments)
    requires Setting(keys, cmap, dom)
    requires InDomains(asg, dom) && Settled(cmap, [], asg)
    requires Solves(cmap, keys, dom, sol) && Allows(keys, sol, asg, dom)
    requires forall q | q in remaining :: q in keys
    requires |remaining| > 0 && remaining[0] !in asg
    requires forall v | v in values :: v in DomainOf(dom, remaining[0])
    requires sol[remaining[0]] in values
    ensures TryValues(keys, cmap, dom, remaining, values, asg).Solution?
    decreases |remaining|, 0, |values|
  {
    if values[0] == sol[remaining[0]] {
      TriedSolutionValue(keys, cmap, dom, remaining, asg, sol);
    } else {
      TriedOtherValue(keys, cmap, dom, remaining, values, asg, sol);
    }
  }

  /** A value other than the solution's either fails, and the loop goes
      on to the later values, or leads to a solution. */
  lemma {:induction false} TriedOtherValue(keys: seq<PortId>, cmap: ConstraintMap, dom: Domains, remaining: seq<PortId>, values: seq<ConcreteType>, asg: Assignments, sol: Assignments)
    requires Setting(keys, cmap, dom)
    requires InDomains(asg, dom) && Settled(cmap, [], asg)
    requires Solves(cmap, keys, dom, sol) && Allows(keys, sol, asg, dom)
    requires forall q | q in remaining :: q in keys
    requires |remaining| > 0 && remaining[0] !in asg
    requires forall v | v in values :: v in DomainOf(dom, remaining[0])
    requires sol[remaining[0]] in values && values[0] != sol[remaining[0]]
    ensures TryValues(keys, cmap, dom, remaining, values, asg).Solution?
    decreases |remaining|, 0, |values|, 0
  {
    var p := remaining[0];
    var a := asg[p := values[0]];
    FreshSettled(cmap, asg, p, values[0]);
    PropagateFromSettled(keys, cmap, p, a, dom);
    match PropagateFrom(keys, cmap, p, a, dom)
    case Contradicted =>
      TryValuesComplete(keys, cmap, dom, remaining, values[1..], asg, sol);
    case Consistent(next) =>
      SearchSound(keys, cmap, dom, remaining[1..], next);
      if Search(keys, cmap, dom, remaining[1..], next).NoSolution? {
        TryValuesComplete(keys, cmap, dom, remaining, values[1..], asg, sol);
      }
  }

  /** Trying the solution's own value propagates consistently and the
      search goes on to succeed. */
  lemma {:induction false} TriedSolutionValue(keys: seq<PortId>, cmap: ConstraintMap, dom: Domains, remaining: seq<PortId>, asg: Assignments, sol: Assignments)
    requires Setting(keys, cmap, dom)
    requires InDomains(asg, dom) && Settled(cmap, [], asg)
    requires Solves(cmap, keys, dom, sol) && Allows(keys, sol, asg, dom)
    requires forall q | q in remaining :: q in keys
    requires |remaining| > 0 && remaining[0] !in asg && remaining[0] in sol
    requires sol[remaining[0]] in DomainOf(dom, remaining[0])
    ensures var pr := PropagateFrom(keys, cmap, remaining[0], asg[remaining[0] := sol[remaining[0]]], dom);
      pr.Consistent? && Search(keys, cmap, dom, remaining[1..], pr.asg).Solution?
    decreases |remaining|, 0, 0
  {
    var p := remaining[0];
    var a := asg[p := sol[p]];
    FreshSettled(cmap, asg, p, sol[p]);
    PropagateFromSettled(keys, cmap, p, a, dom);
    PropagateFromSolution(keys, cmap, p, a, dom, sol);
    var next := PropagateFrom(keys, cmap, p, a, dom).asg;
    SearchComplete(keys, cmap, dom, remaining[1..], next, sol);
  }

  lemma {:induction false} PrepassComplete(keys: seq<PortId>, cmap: ConstraintMap, dom: Domains, ports: seq<PortId>, asg: Assignments, sol: Assignments)
    requires Setting(keys, cmap, dom)
    requires InDomains(asg, dom) && Settled(cmap, [], asg)
    requires Solves(cmap, keys, dom, sol) && Allows(keys, sol, asg, dom)
    ensures var r := Prepass(keys, cmap, dom, ports, asg);
      r.Solution? && Allows(keys, sol, r.asg, dom)
  {
    if ports != [] {
      var p := ports[0];
      if p in dom && |dom[p]| == 1 {
        var a := asg[p := dom[p][0]];
        assert p in keys && sol[p] in dom[p];
        if p in asg {
          assert asg[p] in dom[p];
          assert a == asg;
        } else {
          FreshSettled(cmap, asg, p, dom[p][0]);
        }
        PropagateFromSettled(keys, cmap, p, a, dom);
        PropagateFromSolution(keys, cmap, p, a, dom, sol);
        PrepassComplete(keys, cmap, dom, ports[1..], PropagateFrom(keys, cmap, p, a, dom).asg, sol);
      } else {
        PrepassComplete(keys, cmap, dom, ports[1..], asg, sol);
      }
    }
  }

  /** Completeness of `concretiseTypesInGraph`'s solver: whenever some
      assignment types every port from its domain and satisfies every
      constraint, the solver finds one, so it fails only when the graph
      has no consistent typing. */
  lemma SolveComplete(keys: seq<PortId>, cmap: ConstraintMap, dom: Domains, sol: Assignments)
    requires Setting(keys, cmap, dom)
    requires Solves(cmap, keys, dom, sol)
    ensures Solve(keys, cmap, dom).Solution?
  {
    PrepassComplete(keys, cmap, dom, keys, map[], sol);
    PrepassSound(keys, cmap, dom, keys, map[]);
    var asg := Prepass(keys, cmap, dom, keys, map[]).asg;
    SearchComplete(keys, cmap, dom, keys, asg, sol);
  }
}
