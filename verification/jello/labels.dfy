/** `labelBranches` (JelloCompilerFunctions.swift): a breadth-first walk
    upstream from the output node. Each queue entry is an input port and the
    branch it carries; popping it tags the node feeding that port with the
    branch and queues every connected input of that node, carrying the
    port's own `newBranchId` when it starts a branch and the inherited
    branch otherwise. Only node tags change. */
module Labels {
  import opened Results
  import opened Constraints
  import opened Graph

  /** A queue entry: a connected input port and the branch it carries. */
  datatype Visit = Visit(branch: BranchId, port: PortId)

  /** A node carrying a branch tag. */
  datatype Tagging = Tagging(node: NodeId, branch: BranchId)

  /** The outcome: the labelled world, the source's trap on a connected
      input of the output node without a `newBranchId`, or a walk longer
      than the fuel allows. */
  datatype Labelled = Labelled(w: World) | MissingBranchId | OutOfFuel

  type Tags = map<NodeId, set<BranchId>>

  /** A world whose output node exists and in which every connected input
      has a producer; the walk never changes it. */
  type Linked = w: World | w.output in w.nodes && Feeds(w)
    witness World(map[0 := Node(Plain, [], [], {}, map[])], map[], map[], [], 0, 0)

  function TagsOf(tags: Tags, n: NodeId): set<BranchId> {
    if n in tags then tags[n] else {}
  }

  /** The branch an entry through input port `u` carries when the node
      above inherited `b`. */
  function Label(w: World, u: PortId, b: BranchId): BranchId {
    if u in w.inputs then w.inputs[u].newBranchId.GetOr(b) else b
  }

  /** The entries queued for the connected inputs `ports` of a node tagged
      with `b`. */
  function Pushes(w: World, ports: seq<PortId>, b: BranchId): (r: seq<Visit>)
    requires forall u | u in ports :: Connected(w, u)
    ensures |r| == |ports|
    ensures forall i | 0 <= i < |r| :: r[i] == Visit(Label(w, ports[i], b), ports[i])
  {
    seq(|ports|, i requires 0 <= i < |ports| => Visit(Label(w, ports[i], b), ports[i]))
  }

  /** The initial queue: the output node's connected inputs, each with its
      own branch id, which must be set. */
  function StartVisits(w: World): (r: Option<seq<Visit>>)
    requires WellLinked(w)
    ensures r.Some? <==> forall u | u in ConnectedInputs(w, w.output) :: w.inputs[u].newBranchId.Some?
  {
    var ports := ConnectedInputs(w, w.output);
    if forall u | u in ports :: w.inputs[u].newBranchId.Some? then
      Some(seq(|ports|, i requires 0 <= i < |ports| => Visit(w.inputs[ports[i]].newBranchId.value, ports[i])))
    else None
  }

  /** The queue after popping its head `v`: the rest, then an entry for
      each connected input of the node `v` tags. */
  function NextQueue(w: Linked, queue: seq<Visit>): (r: seq<Visit>)
    requires queue != [] && forall v | v in queue :: Connected(w, v.port)
    ensures forall v | v in r :: Connected(w, v.port)
  {
    queue[1..] + Pushes(w, ConnectedInputs(w, Producer(w, queue[0].port)), queue[0].branch)
  }

  /** The `while !queue.isEmpty` loop over the tags alone; the structure of
      the world does not change while labelling. `None` when the fuel runs
      out first. */
  function LabelLoop(w: Linked, tags: Tags, queue: seq<Visit>, fuel: nat): Option<Tags>
    requires forall v | v in queue :: Connected(w, v.port)
    decreases fuel
  {
    if queue == [] then Some(tags)
    else if fuel == 0 then None
    else LabelLoop(w, Tag(tags, Target(w, queue[0])), NextQueue(w, queue), fuel - 1)
  }

  /** `tags` with the pair `t` added. */
  function Tag(tags: Tags, t: Tagging): Tags {
    tags[t.node := TagsOf(tags, t.node) + {t.branch}]
  }

  /** The world with every node's tags replaced by `tags`. */
  function WithTags(w: World, tags: Tags): (w': World)
    ensures w'.nodes.Keys == w.nodes.Keys
    ensures forall n | n in w.nodes :: w'.nodes[n] == w.nodes[n].(tags := TagsOf(tags, n))
    ensures w'.inputs == w.inputs && w'.outputs == w.outputs && w'.graph == w.graph
    ensures w'.output == w.output && w'.nextId == w.nextId
  {
    w.(nodes := map n | n in w.nodes :: w.nodes[n].(tags := TagsOf(tags, n)))
  }

  /** Retagging keeps every reference resolving. */
  lemma WithTagsKeepsLinks(w: World, tags: Tags)
    requires WellLinked(w)
    ensures WellLinked(WithTags(w, tags))
  {
    WithTagsPointsBack(w, tags);
    WithTagsHasNodes(w, tags);
  }

  lemma WithTagsPointsBack(w: World, tags: Tags)
    requires PortsPointBack(w)
    ensures PortsPointBack(WithTags(w, tags))
  {
    var w' := WithTags(w, tags);
    forall n, u | n in w'.nodes && u in w'.nodes[n].inputs
      ensures u in w'.inputs && w'.inputs[u].node == Some(n)
    {
      assert w'.nodes[n].inputs == w.nodes[n].inputs;
    }
    forall n, o | n in w'.nodes && o in w'.nodes[n].outputs
      ensures o in w'.outputs && w'.outputs[o].node == Some(n)
    {
      assert w'.nodes[n].outputs == w.nodes[n].outputs;
    }
  }

  lemma WithTagsHasNodes(w: World, tags: Tags)
    requires PortsHaveNodes(w)
    ensures PortsHaveNodes(WithTags(w, tags))
  {
    var w' := WithTags(w, tags);
    forall u | u in w'.inputs
      ensures w'.inputs[u].node.Some? && w'.inputs[u].node.value in w'.nodes && u in w'.nodes[w'.inputs[u].node.value].inputs
    {
      var n := w.inputs[u].node.value;
      assert w'.nodes[n].inputs == w.nodes[n].inputs;
    }
    forall o | o in w'.outputs
      ensures w'.outputs[o].node.Some? && w'.outputs[o].node.value in w'.nodes && o in w'.nodes[w'.outputs[o].node.value].outputs
    {
      var n := w.outputs[o].node.value;
      assert w'.nodes[n].outputs == w.nodes[n].outputs;
    }
  }

  function InitialTags(w: World): (tags: Tags)
    ensures forall n | n in w.nodes :: TagsOf(tags, n) == w.nodes[n].tags
  {
    map n | n in w.nodes :: w.nodes[n].tags
  }

  /** `labelBranches`, given a bound on the number of queue entries it
      may pop. */
  function LabelBranches(w: World, fuel: nat): (r: Labelled)
    requires WellLinked(w)
    ensures r == MissingBranchId <==>
      exists u | u in w.nodes[w.output].inputs :: Connected(w, u) && w.inputs[u].newBranchId.None?
    ensures r.Labelled? ==>
      && r.w.inputs == w.inputs && r.w.outputs == w.outputs && r.w.graph == w.graph
      && r.w.output == w.output && r.w.nextId == w.nextId && r.w.nodes.Keys == w.nodes.Keys
      && (forall n | n in w.nodes :: r.w.nodes[n] == w.nodes[n].(tags := r.w.nodes[n].tags))
  {
    match StartVisits(w)
    case None => MissingBranchId
    case Some(start) =>
      match LabelLoop(w, InitialTags(w), start, fuel)
      case None => OutOfFuel
      case Some(tags) => Labelled(WithTags(w, tags))
  }

  // ---------------------------------------------------------------------
  // The pairs the walk reaches
  // ---------------------------------------------------------------------

  /** The pair an entry stands for: the node it tags and the branch. */
  function Target(w: Linked, v: Visit): Tagging
    requires Connected(w, v.port)
  {
    Tagging(Producer(w, v.port), v.branch)
  }

  /** The pairs popped by the loop, in the order it pops them. */
  ghost function LabelTrace(w: Linked, queue: seq<Visit>, fuel: nat): iset<Tagging>
    requires forall v | v in queue :: Connected(w, v.port)
    decreases fuel
  {
    if queue == [] || fuel == 0 then iset{}
    else iset{Target(w, queue[0])} + LabelTrace(w, NextQueue(w, queue), fuel - 1)
  }

  /** The loop empties the queue within `fuel` pops. */
  ghost predicate Finishes(w: Linked, queue: seq<Visit>, fuel: nat)
    requires forall v | v in queue :: Connected(w, v.port)
    decreases fuel
  {
    queue == [] || (fuel > 0 && Finishes(w, NextQueue(w, queue), fuel - 1))
  }

  /** The loop finishes exactly when the walk does, whatever the tags. */
  lemma {:induction false} LoopFinishes(w: Linked, tags: Tags, queue: seq<Visit>, fuel: nat)
    requires forall v | v in queue :: Connected(w, v.port)
    ensures LabelLoop(w, tags, queue, fuel).Some? <==> Finishes(w, queue, fuel)
    decreases fuel
  {
    if queue != [] && fuel > 0 {
      LoopFinishes(w, Tag(tags, Target(w, queue[0])), NextQueue(w, queue), fuel - 1);
    }
  }

  /** A set of pairs closed under the walk's step: a node tagged `b` passes
      each of its connected inputs' labels on to the node feeding it. */
  ghost predicate StepClosed(w: Linked, r: iset<Tagging>)
  {
    forall n, b, u | Tagging(n, b) in r && n in w.nodes && u in w.nodes[n].inputs && Connected(w, u) ::
      Tagging(Producer(w, u), Label(w, u, b)) in r
  }

  /** The pairs that the initial queue stands for. */
  ghost predicate HoldsStart(w: Linked, r: iset<Tagging>)
  {
    forall u | u in w.nodes[w.output].inputs && Connected(w, u) && w.inputs[u].newBranchId.Some? ::
      Tagging(Producer(w, u), w.inputs[u].newBranchId.value) in r
  }

  /** The final tags are the initial ones plus the popped pairs. */
  lemma {:induction false} LoopAddsTrace(w: Linked, tags: Tags, queue: seq<Visit>, fuel: nat, tags': Tags)
    requires forall v | v in queue :: Connected(w, v.port)
    requires LabelLoop(w, tags, queue, fuel) == Some(tags')
    ensures AddsPairs(tags, tags', LabelTrace(w, queue, fuel))
    decreases fuel
  {
    if queue != [] {
      var t := Target(w, queue[0]);
      var next := NextQueue(w, queue);
      assert fuel > 0;
      assert LabelLoop(w, Tag(tags, t), next, fuel - 1) == Some(tags');
      LoopAddsTrace(w, Tag(tags, t), next, fuel - 1, tags');
      assert LabelTrace(w, queue, fuel) == iset{t} + LabelTrace(w, next, fuel - 1);
      AddsOnePair(tags, t, tags', LabelTrace(w, next, fuel - 1));
    }
  }

  /** `tags'` holds exactly the tags of `tags` and the pairs of `pairs`. */
  ghost predicate AddsPairs(tags: Tags, tags': Tags, pairs: iset<Tagging>) {
    forall n, b :: b in TagsOf(tags', n) <==> b in TagsOf(tags, n) || Tagging(n, b) in pairs
  }

  lemma AddsOnePair(tags: Tags, t: Tagging, tags': Tags, pairs: iset<Tagging>)
    requires AddsPairs(Tag(tags, t), tags', pairs)
    ensures AddsPairs(tags, tags', iset{t} + pairs)
  {
    forall m, b
      ensures b in TagsOf(tags', m) <==> b in TagsOf(tags, m) || Tagging(m, b) in iset{t} + pairs
    {
      var tags1 := Tag(tags, t);
      assert tags1 == tags[t.node := TagsOf(tags, t.node) + {t.branch}];
      assert TagsOf(tags1, m) == if m == t.node then TagsOf(tags, m) + {t.branch} else TagsOf(tags, m);
    }
  }

  /** Every popped pair lies in any step-closed set that holds the pairs
      of the queue. */
  lemma {:induction false} TraceWithin(w: Linked, queue: seq<Visit>, fuel: nat, r: iset<Tagging>)
    requires forall v | v in queue :: Connected(w, v.port)
    requires StepClosed(w, r)
    requires forall v | v in queue :: Target(w, v) in r
    ensures forall t | t in LabelTrace(w, queue, fuel) :: t in r
    decreases fuel
  {
    if queue != [] && fuel > 0 {
      var v := queue[0];
      var n := Producer(w, v.port);
      var pushed := Pushes(w, ConnectedInputs(w, n), v.branch);
      forall x | x in pushed
        ensures Target(w, x) in r
      {
        var i :| 0 <= i < |pushed| && pushed[i] == x;
        assert x.port in ConnectedInputs(w, n);
        assert v in queue;
        assert Target(w, v) == Tagging(n, v.branch);
      }
      TraceWithin(w, NextQueue(w, queue), fuel - 1, r);
    }
  }

  /** Every pair whose successors are done or still queued: the loop's
      invariant, with `done` the pairs popped so far. */
  ghost predicate Pending(w: Linked, done: iset<Tagging>, queue: seq<Visit>)
    requires forall v | v in queue :: Connected(w, v.port)
  {
    forall n, b, u | Tagging(n, b) in done && n in w.nodes && u in w.nodes[n].inputs && Connected(w, u) ::
      Tagging(Producer(w, u), Label(w, u, b)) in done || Visit(Label(w, u, b), u) in queue
  }

  /** Popping the head of the queue keeps the invariant. */
  lemma PendingStep(w: Linked, done: iset<Tagging>, queue: seq<Visit>)
    requires forall v | v in queue :: Connected(w, v.port)
    requires queue != [] && Pending(w, done, queue)
    ensures var v := queue[0];
      var next := NextQueue(w, queue);
      Pending(w, done + iset{Target(w, v)}, next)
  {
    var v := queue[0];
    var next := NextQueue(w, queue);
    var done' := done + iset{Target(w, v)};
    forall m, b, u | Tagging(m, b) in done' && m in w.nodes && u in w.nodes[m].inputs && Connected(w, u)
      ensures Tagging(Producer(w, u), Label(w, u, b)) in done' || Visit(Label(w, u, b), u) in next
    {
      if Tagging(m, b) == Target(w, v) {
        PushedQueued(w, queue, u);
      } else if Visit(Label(w, u, b), u) in queue && Visit(Label(w, u, b), u) != v {
        StillQueued(w, queue, Visit(Label(w, u, b), u));
      }
    }
  }

  /** Popping the head queues an entry for each connected input of the
      node it tags. */
  lemma PushedQueued(w: Linked, queue: seq<Visit>, u: PortId)
    requires forall v | v in queue :: Connected(w, v.port)
    requires queue != [] && u in w.nodes[Producer(w, queue[0].port)].inputs && Connected(w, u)
    ensures Visit(Label(w, u, queue[0].branch), u) in NextQueue(w, queue)
  {
    var ports := ConnectedInputs(w, Producer(w, queue[0].port));
    var pushed := Pushes(w, ports, queue[0].branch);
    assert u in ports;
    var i :| 0 <= i < |ports| && ports[i] == u;
    assert NextQueue(w, queue)[|queue| - 1 + i] == pushed[i];
  }

  /** Popping the head keeps every other entry queued. */
  lemma StillQueued(w: Linked, queue: seq<Visit>, x: Visit)
    requires forall v | v in queue :: Connected(w, v.port)
    requires x in queue && x != queue[0]
    ensures x in NextQueue(w, queue)
  {
    assert x in queue[1..];
  }

  /** When the loop finishes, the pairs already done together with the
      popped ones are step-closed. */
  lemma {:induction false} TraceCloses(w: Linked, queue: seq<Visit>, fuel: nat, done: iset<Tagging>)
    requires forall v | v in queue :: Connected(w, v.port)
    requires Finishes(w, queue, fuel)
    requires Pending(w, done, queue)
    ensures StepClosed(w, done + LabelTrace(w, queue, fuel))
    decreases fuel
  {
    if queue != [] {
      var t := Target(w, queue[0]);
      var next := NextQueue(w, queue);
      PendingStep(w, done, queue);
      TraceCloses(w, next, fuel - 1, done + iset{t});
      UnionAssociates(done, iset{t}, LabelTrace(w, next, fuel - 1));
    }
  }

  lemma UnionAssociates<T>(a: iset<T>, b: iset<T>, c: iset<T>)
    ensures (a + b) + c == a + (b + c)
  {
  }

  /** Every queued entry's pair is popped before the loop finishes. */
  lemma {:induction false} QueuedPopped(w: Linked, queue: seq<Visit>, fuel: nat)
    requires forall v | v in queue :: Connected(w, v.port)
    requires Finishes(w, queue, fuel)
    ensures forall v | v in queue :: Target(w, v) in LabelTrace(w, queue, fuel)
    decreases fuel
  {
    if queue != [] {
      var v := queue[0];
      var next := NextQueue(w, queue);
      QueuedPopped(w, next, fuel - 1);
      forall x | x in queue
        ensures Target(w, x) in LabelTrace(w, queue, fuel)
      {
        if x != v {
          StillQueued(w, queue, x);
        }
      }
    }
  }

  /** The pairs the initial queue stands for are exactly those `HoldsStart`
      asks for. */
  lemma StartTargets(w: World, start: seq<Visit>)
    requires WellLinked(w)
    requires StartVisits(w) == Some(start)
    ensures forall v | v in start :: Connected(w, v.port)
    ensures forall r: iset<Tagging> :: HoldsStart(w, r) <==> forall v | v in start :: Target(w, v) in r
  {
    var ports := ConnectedInputs(w, w.output);
    assert |start| == |ports|;
    assert forall i | 0 <= i < |start| :: start[i] == Visit(w.inputs[ports[i]].newBranchId.value, ports[i]);
    forall r: iset<Tagging>
      ensures HoldsStart(w, r) <==> forall v | v in start :: Target(w, v) in r
    {
      if HoldsStart(w, r) {
        forall v | v in start
          ensures Target(w, v) in r
        {
          var i :| 0 <= i < |start| && start[i] == v;
          assert ports[i] in ports;
        }
      }
      if forall v | v in start :: Target(w, v) in r {
        forall u | u in w.nodes[w.output].inputs && Connected(w, u) && w.inputs[u].newBranchId.Some?
          ensures Tagging(Producer(w, u), w.inputs[u].newBranchId.value) in r
        {
          assert u in ports;
          var i :| 0 <= i < |ports| && ports[i] == u;
          assert start[i] in start;
        }
      }
    }
  }

  /** `labelBranches` adds to each node exactly the branches of the least
      set of pairs that holds the output node's inputs and is closed under
      the step from a node to the nodes feeding it: a node carries branch
      `b` afterwards iff it did before or the walk from the output reaches
      it with `b`. */
  lemma LabelBranchesTags(w: World, fuel: nat)
    requires WellLinked(w)
    requires LabelBranches(w, fuel).Labelled?
    ensures var start := StartVisits(w).value;
      (forall v | v in start :: Connected(w, v.port)) &&
      var reached := LabelTrace(w, start, fuel);
      var w' := LabelBranches(w, fuel).w;
      && w'.nodes.Keys == w.nodes.Keys
      && (forall n, b | n in w.nodes :: b in w'.nodes[n].tags <==> b in w.nodes[n].tags || Tagging(n, b) in reached)
      && StepClosed(w, reached) && HoldsStart(w, reached)
      && (forall r | StepClosed(w, r) && HoldsStart(w, r) :: reached <= r)
  {
    var start := StartVisits(w).value;
    StartTargets(w, start);
    var tags := LabelLoop(w, InitialTags(w), start, fuel).value;
    LoopAddsTrace(w, InitialTags(w), start, fuel, tags);
    LoopFinishes(w, InitialTags(w), start, fuel);
    ReachedClosed(w, start, fuel);
    ReachedLeast(w, start, fuel);
  }

  /** The pairs a finished walk reaches are step-closed and hold the
      pairs of its initial queue. */
  lemma ReachedClosed(w: Linked, start: seq<Visit>, fuel: nat)
    requires forall v | v in start :: Connected(w, v.port)
    requires Finishes(w, start, fuel)
    ensures StepClosed(w, LabelTrace(w, start, fuel))
    ensures forall v | v in start :: Target(w, v) in LabelTrace(w, start, fuel)
  {
    var reached := LabelTrace(w, start, fuel);
    assert Pending(w, iset{}, start);
    TraceCloses(w, start, fuel, iset{});
    assert iset{} + reached == reached;
    QueuedPopped(w, start, fuel);
  }

  /** The pairs the walk reaches lie in every step-closed set holding the
      pairs of its initial queue. */
  lemma ReachedLeast(w: Linked, start: seq<Visit>, fuel: nat)
    requires forall v | v in start :: Connected(w, v.port)
    ensures forall r | StepClosed(w, r) && (forall v | v in start :: Target(w, v) in r) :: LabelTrace(w, start, fuel) <= r
  {
    forall r | StepClosed(w, r) && (forall v | v in start :: Target(w, v) in r)
      ensures LabelTrace(w, start, fuel) <= r
    {
      TraceWithin(w, start, fuel, r);
    }
  }
}
