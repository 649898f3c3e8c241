/** Which resources the builder of ecclesia/lib/redfish/topology_v2.cc reaches: a run visits exactly
    what the resources it placed, or searched through, refer to. */
module TopologyV2Links {
  import opened Wrappers
  import opened RedfishGraph
  import opened TopologyV2
  import opened TopologyV2Nodes

  /** A usable link or attribute of resource v leads to resource u, to be attached or to be skipped. */
  ghost predicate LinksTo(s: Service, v: Uri, u: Uri) {
    v in s.graph && (s.LeadsDownstream(s.graph[v], To(u)) || s.LeadsThrough(s.graph[v], To(u)))
  }

  predicate CabledTo(s: Service, v: Uri, u: Uri) {
    v in s.cables && u in s.cables[v] && u != ""
  }

  /** Resource v leads to u by a link, an attribute or a cable. */
  ghost predicate RefersTo(s: Service, v: Uri, u: Uri) {
    v in s.graph && (LinksTo(s, v, u) || CabledTo(s, v, u))
  }

  lemma CablesMeaning(s: Service, v: Uri, u: Uri)
    ensures To(u) in CableRefs(s, v) <==> CabledTo(s, v, u)
  {
    if CabledTo(s, v, u) {
      var i :| 0 <= i < |s.cables[v]| && s.cables[v][i] == u;
      assert CableRefs(s, v)[i] == To(u);
    }
  }

  /** Resource v belongs to some node. */
  predicate Listed(t: Topology, v: Uri) { Entry(t.uriToNodes, v) != [] }

  /** u is referred to by a placed resource, or linked from one that a search went through. */
  ghost predicate Followed(s: Service, st: State, u: Uri) {
    exists v :: Leads(s, st, v, u)
  }

  ghost predicate Leads(s: Service, st: State, v: Uri, u: Uri) {
    (Listed(st.topo, v) && RefersTo(s, v, u)) || (v in st.passed && LinksTo(s, v, u))
  }

  ghost predicate VisitedIsFollowed(s: Service, st: State) {
    forall u :: u in st.visited <==> u in s.graph && Followed(s, st, u)
  }

  lemma {:induction false} EnqueueVisits(s: Service, objs: seq<Ref>, parent: nat, queue: seq<Item>, visited: set<Uri>,
                                         u: Uri)
    ensures u in Enqueue(s, objs, parent, queue, visited).1 <==> u in visited || (u in s.graph && To(u) in objs)
  {
    if objs != [] {
      EnqueueVisits(s, objs[..|objs| - 1], parent, queue, visited, u);
      assert objs == objs[..|objs| - 1] + [objs[|objs| - 1]];
    }
  }

  ghost predicate LinkedFrom(s: Service, from: set<Uri>, u: Uri) {
    exists v :: v in from && LinksTo(s, v, u)
  }

  /** Expanding resource w visits what it refers to, and what the resources searched through link to. */
  lemma ExpandVisits(s: Service, w: Uri, current: nat, queue: seq<Item>, visited: set<Uri>, u: Uri)
    requires w in s.graph
    ensures u in Expand(s, w, current, queue, visited).1 <==>
      u in visited || (u in s.graph && (RefersTo(s, w, u) || LinkedFrom(s, Marks(s, w, visited), u)))
  {
    var (objs, v1) := s.Find(s.graph[w], visited);
    var (q2, v2) := Enqueue(s, objs, current, queue, v1);
    EnqueueVisits(s, objs, current, queue, v1, u);
    EnqueueVisits(s, CableRefs(s, w), current, q2, v2, u);
    CablesMeaning(s, w, u);
    s.FindReturnsDirectObjects(s.graph[w], visited, To(u));
    SearchVisits(s, w, visited, u);
  }

  lemma SearchVisits(s: Service, w: Uri, visited: set<Uri>, u: Uri)
    requires w in s.graph
    ensures var marks := Marks(s, w, visited);
      && (u in marks ==> u in s.graph && (LinksTo(s, w, u) || LinkedFrom(s, marks, u)))
      && (u in s.graph && s.LeadsThrough(s.graph[w], To(u)) ==> u in visited + marks)
      && forall v :: v in marks && v in s.graph && u in s.graph && s.LeadsThrough(s.graph[v], To(u)) ==>
        u in visited + marks
  {
    if s.graph[w].kind.Some? {
      s.FindThroughClosed(s.Skipped(s.graph[w]), visited);
      assert u in s.graph ==> s.Named(To(u));
      forall v | v in s.graph ensures s.LeadsThrough(s.graph[v], To(u)) <==> To(u) in s.Skipped(s.graph[v]) {
        s.SkippedMeaning(s.graph[v], To(u));
      }
      if u in Marks(s, w, visited) { s.MarkedIsSkippedTo(s.Skipped(s.graph[w]), visited, u); }
    }
  }

  lemma PlaceListing(t: Topology, parent: Option<nat>, u: Uri, r: Resource, v: Uri)
    requires parent.Some? ==> parent.value < |t.nodes|
    ensures var p := Place(t, parent, u, r); p.Placed? ==> (Listed(p.topo, v) <==> Listed(t, v) || v == u)
  {
    PlaceLists(t, parent, u, r, v);
  }

  lemma PlacedTurnFollows(s: Service, st: State, u: Uri)
    requires st.queue != [] && ParentsExist(st.topo, st.queue) && s.Named(st.queue[0].obj)
    requires var item := st.queue[0]; Place(st.topo, item.parent, item.obj.uri, s.graph[item.obj.uri]).Placed?
    ensures var w := st.queue[0].obj.uri;
      Followed(s, Step(s, st), u) <==>
        Followed(s, st, u) || RefersTo(s, w, u) || LinkedFrom(s, Marks(s, w, st.visited), u)
  {
    var item, st' := st.queue[0], Step(s, st);
    var w := item.obj.uri;
    forall v
      ensures Leads(s, st', v, u) <==>
        Leads(s, st, v, u) || (v == w && RefersTo(s, v, u)) || (v in Marks(s, w, st.visited) && LinksTo(s, v, u))
    {
      PlaceListing(st.topo, item.parent, w, s.graph[w], v);
    }
    if RefersTo(s, w, u) { assert Leads(s, st', w, u); }
    if v :| Leads(s, st, v, u) { assert Leads(s, st', v, u); }
    if v :| v in Marks(s, w, st.visited) && LinksTo(s, v, u) { assert Leads(s, st', v, u); }
    if v :| Leads(s, st', v, u) { assert Leads(s, st, v, u) || RefersTo(s, w, u) || v in Marks(s, w, st.visited); }
  }

  lemma StepKeepsVisited(s: Service, st: State)
    requires st.queue != [] && ParentsExist(st.topo, st.queue) && VisitedIsFollowed(s, st)
    ensures VisitedIsFollowed(s, Step(s, st))
  {
    var item, st' := st.queue[0], Step(s, st);
    forall u ensures u in st'.visited <==> u in s.graph && Followed(s, st', u) {
      if s.Named(item.obj) && Place(st.topo, item.parent, item.obj.uri, s.graph[item.obj.uri]).Placed? {
        var current := Place(st.topo, item.parent, item.obj.uri, s.graph[item.obj.uri]).current;
        var queue := st.queue[1..] + GoogleRootItems(s, item.parent, current);
        ExpandVisits(s, item.obj.uri, current, queue, st.visited, u);
        PlacedTurnFollows(s, st, u);
      } else {
        assert forall v :: Leads(s, st, v, u) <==> Leads(s, st', v, u);
      }
    }
  }

  lemma {:induction false} RunKeepsVisited(s: Service, st: State)
    requires Rooted(s, st) && VisitedIsFollowed(s, st)
    ensures VisitedIsFollowed(s, Run(s, st))
    decreases Measure(s, st)
  {
    if st.queue != [] {
      StepDecreases(s, st);
      StepKeepsRooted(s, st);
      StepKeepsVisited(s, st);
      RunKeepsVisited(s, Step(s, st));
    }
  }

  /** The worklist misses nothing and invents nothing: a resource is marked visited exactly when a
      link, attribute or cable of a placed resource, or a link or attribute of a resource some search
      went through, leads to it. */
  lemma BuildVisitsWhatIsFollowed(s: Service, u: Uri)
    ensures u in Build(s).visited <==> u in s.graph && Followed(s, Build(s), u)
  {
    forall v ensures !Followed(s, Start(s), v) {}
    RunKeepsVisited(s, Start(s));
  }

  // ---- What is reached, in terms of the service alone --------------------------------------------------

  /** A resource the builder does not give up, whatever it hangs on. */
  predicate Placeable(s: Service, v: Uri) {
    v in s.graph && (s.graph[v].hasPartLocation ==> MakesNode(s.graph[v]))
  }

  ghost predicate DequeuedIsPlaced(s: Service, st: State) {
    && (st.dequeued != [] ==> st.topo.nodes != [])
    && forall v :: v in st.dequeued && Placeable(s, v) ==> Listed(st.topo, v)
  }

  lemma StepKeepsPlaced(s: Service, st: State)
    requires st.queue != [] && Rooted(s, st) && DequeuedIsPlaced(s, st)
    ensures DequeuedIsPlaced(s, Step(s, st))
  {
    var item, st' := st.queue[0], Step(s, st);
    if s.Named(item.obj) {
      var u := item.obj.uri;
      assert item.parent.Some? ==> ParentBelow(item, |st.topo.nodes|);
      if item.parent.Some? && s.graph[u].hasPartLocation {
        ChildNodeMeaning(u, s.graph[u], st.topo.nodes[item.parent.value].localDevpath);
      }
      forall v | v in st'.dequeued && Placeable(s, v) ensures Listed(st'.topo, v) {
        PlaceListing(st.topo, item.parent, u, s.graph[u], v);
      }
    }
  }

  lemma {:induction false} RunKeepsPlaced(s: Service, st: State)
    requires Rooted(s, st) && DequeuedIsPlaced(s, st)
    ensures DequeuedIsPlaced(s, Run(s, st))
    decreases Measure(s, st)
  {
    if st.queue != [] {
      StepDecreases(s, st);
      StepKeepsRooted(s, st);
      StepKeepsPlaced(s, st);
      RunKeepsPlaced(s, Step(s, st));
    }
  }

  /** The root chassis, and every visited resource that can be placed, belongs to some node, unless a
      search went through it. */
  lemma BuildPlacesVisited(s: Service, v: Uri)
    requires v in s.graph && (s.root == To(v) || (v in Build(s).visited && Placeable(s, v)))
    ensures v in Build(s).passed || Listed(Build(s).topo, v)
  {
    StartInvariant(s);
    RunKeepsInvariant(s, Start(s));
    RunKeepsPlaced(s, Start(s));
    BuildDequeuesOnce(s, v);
    CountIn(Build(s).dequeued, v);
  }

  /** Whatever a link or attribute of the root chassis leads to is visited, and so on from every
      visited resource that can be placed. */
  lemma BuildIsComplete(s: Service, v: Uri, u: Uri)
    requires s.root == To(v) || (v in Build(s).visited && Placeable(s, v))
    requires LinksTo(s, v, u) && u in s.graph
    ensures u in Build(s).visited
  {
    BuildPlacesVisited(s, v);
    assert Leads(s, Build(s), v, u);
    BuildVisitsWhatIsFollowed(s, u);
  }

  /** The set holds the seeds and whatever a member leads to by a link, an attribute or a cable. */
  ghost predicate HoldsAllReferences(s: Service, T: set<Uri>) {
    && (forall u :: IsSeed(s, u) ==> u in T)
    && forall v, u :: v in T && RefersTo(s, v, u) && u in s.graph ==> u in T
  }

  ghost predicate Inside(s: Service, st: State, T: set<Uri>) {
    st.visited <= T && QueueInside(s, st.queue, T)
  }

  predicate QueueInside(s: Service, queue: seq<Item>, T: set<Uri>) {
    forall i :: 0 <= i < |queue| && s.Named(queue[i].obj) ==> queue[i].obj.uri in T
  }

  predicate RefsInside(s: Service, refs: seq<Ref>, T: set<Uri>) {
    forall ref :: ref in refs && s.Named(ref) ==> ref.uri in T
  }

  lemma {:induction false} MarksInside(s: Service, refs: seq<Ref>, visited: set<Uri>, T: set<Uri>)
    requires HoldsAllReferences(s, T) && visited <= T && RefsInside(s, refs, T)
    ensures s.FindThrough(refs, visited).1 <= T
    decreases s.graph.Keys - visited, |refs|
  {
    if refs == [] {
    } else if !s.Named(refs[0]) || refs[0].uri in visited {
      MarksInside(s, refs[1..], visited, T);
    } else {
      var head := refs[0].uri;
      forall ref | ref in s.Skipped(s.graph[head]) && s.Named(ref) ensures ref.uri in T {
        s.SkippedMeaning(s.graph[head], ref);
        assert RefersTo(s, head, ref.uri);
      }
      MarksInside(s, s.Skipped(s.graph[head]), visited + {head}, T);
      MarksInside(s, refs[1..], s.Find(s.graph[head], visited + {head}).1, T);
    }
  }

  lemma FindInside(s: Service, w: Uri, visited: set<Uri>, T: set<Uri>)
    requires HoldsAllReferences(s, T) && visited <= T && w in s.graph && w in T
    ensures s.Find(s.graph[w], visited).1 <= T && RefsInside(s, s.Find(s.graph[w], visited).0, T)
  {
    var r := s.graph[w];
    forall ref | ref in s.Skipped(r) && s.Named(ref) ensures ref.uri in T {
      s.SkippedMeaning(r, ref);
      assert RefersTo(s, w, ref.uri);
    }
    MarksInside(s, s.Skipped(r), visited, T);
    forall ref | ref in s.Find(r, visited).0 && s.Named(ref) ensures ref.uri in T {
      s.FindReturnsDirectObjects(r, visited, ref);
      if s.LeadsDownstream(r, ref) {
        assert RefersTo(s, w, ref.uri);
      } else {
        var v :| v in s.Find(r, visited).1 - visited && v in s.graph && s.LeadsDownstream(s.graph[v], ref);
        assert RefersTo(s, v, ref.uri);
      }
    }
  }

  lemma {:induction false} EnqueueInside(s: Service, objs: seq<Ref>, parent: nat, queue: seq<Item>, visited: set<Uri>,
                                         T: set<Uri>)
    requires visited <= T && QueueInside(s, queue, T) && RefsInside(s, objs, T)
    ensures var (q, v) := Enqueue(s, objs, parent, queue, visited); v <= T && QueueInside(s, q, T)
  {
    if objs != [] { EnqueueInside(s, objs[..|objs| - 1], parent, queue, visited, T); }
  }

  lemma ExpandInside(s: Service, w: Uri, current: nat, queue: seq<Item>, visited: set<Uri>, T: set<Uri>)
    requires HoldsAllReferences(s, T) && visited <= T && w in s.graph && w in T && QueueInside(s, queue, T)
    ensures var (q, v) := Expand(s, w, current, queue, visited); v <= T && QueueInside(s, q, T)
  {
    FindInside(s, w, visited, T);
    var (objs, v1) := s.Find(s.graph[w], visited);
    EnqueueInside(s, objs, current, queue, v1, T);
    var (q2, v2) := Enqueue(s, objs, current, queue, v1);
    forall ref | ref in CableRefs(s, w) && s.Named(ref) ensures ref.uri in T {
      CablesMeaning(s, w, ref.uri);
      assert RefersTo(s, w, ref.uri);
    }
    EnqueueInside(s, CableRefs(s, w), current, q2, v2, T);
  }

  lemma StepStaysInside(s: Service, st: State, T: set<Uri>)
    requires st.queue != [] && ParentsExist(st.topo, st.queue)
    requires HoldsAllReferences(s, T) && Inside(s, st, T)
    ensures Inside(s, Step(s, st), T)
  {
    var item, rest := st.queue[0], st.queue[1..];
    if s.Named(item.obj) {
      var u := item.obj.uri;
      match Place(st.topo, item.parent, u, s.graph[u])
      case GivenUp =>
      case Placed(_, current) =>
        var google := GoogleRootItems(s, item.parent, current);
        assert google != [] && s.Named(google[0].obj) ==> IsSeed(s, google[0].obj.uri);
        assert QueueInside(s, rest + google, T);
        ExpandInside(s, u, current, rest + google, st.visited, T);
    }
  }

  lemma {:induction false} RunStaysInside(s: Service, st: State, T: set<Uri>)
    requires Rooted(s, st) && HoldsAllReferences(s, T) && Inside(s, st, T)
    ensures Inside(s, Run(s, st), T)
    decreases Measure(s, st)
  {
    if st.queue != [] {
      StepDecreases(s, st);
      StepKeepsRooted(s, st);
      StepStaysInside(s, st, T);
      RunStaysInside(s, Step(s, st), T);
    }
  }

  /** Nothing else is visited: every set that holds the seeds and is closed under links, attributes and
      cables holds all that a run visits. */
  lemma BuildVisitsOnlyReachable(s: Service, T: set<Uri>)
    requires HoldsAllReferences(s, T)
    ensures Build(s).visited <= T
  {
    RunStaysInside(s, Start(s), T);
  }
}
