/** On which node the builder of ecclesia/lib/redfish/topology_v2.cc hangs a resource: on that of a
    resource that leads to it. And in which order the queue takes them. */
module TopologyV2Attachments {
  import opened Wrappers
  import opened RedfishGraph
  import opened TopologyV2
  import opened TopologyV2Links
  import opened TopologyV2Nodes

  // ---- In which order resources are queued -----------------------------------------------------------

  /** Entry i of the list names a resource for the first time, one not visited before. */
  predicate FirstMention(s: Service, list: seq<Ref>, visited: set<Uri>, i: nat)
    requires i < |list|
  {
    s.Named(list[i]) && list[i].uri !in visited && list[i] !in list[..i]
  }

  /** `picks` are the first mentions in the list, in order. */
  ghost predicate FirstMentions(s: Service, list: seq<Ref>, visited: set<Uri>, picks: seq<nat>) {
    && (forall k :: 0 <= k < |picks| ==> picks[k] < |list|)
    && (forall k, m :: 0 <= k < m < |picks| ==> picks[k] < picks[m])
    && (forall i: nat :: i < |list| ==> (i in picks <==> FirstMention(s, list, visited, i)))
  }

  ghost predicate QueuedBehind(queue: seq<Item>, longer: seq<Item>, parent: nat, list: seq<Ref>, picks: seq<nat>) {
    && queue <= longer && |longer| == |queue| + |picks|
    && forall k :: 0 <= k < |picks| && picks[k] < |list| ==> longer[|queue| + k] == Item(Some(parent), list[picks[k]])
  }

  lemma OneMoreMention(s: Service, front: seq<Ref>, ref: Ref, visited: set<Uri>, picks: seq<nat>)
    requires FirstMentions(s, front, visited, picks)
    ensures var list := front + [ref];
      FirstMentions(s, list, visited, if FirstMention(s, list, visited, |front|) then picks + [|front|] else picks)
  {
    var list := front + [ref];
    assert forall i: nat :: i <= |front| ==> list[..i] == front[..i];
    assert forall i: nat :: i < |front| ==> (FirstMention(s, list, visited, i) <==> FirstMention(s, front, visited, i));
  }

  lemma EnqueueOneMore(s: Service, front: seq<Ref>, ref: Ref, parent: nat, queue: seq<Item>, visited: set<Uri>)
    ensures var list := front + [ref];
      Enqueue(s, list, parent, queue, visited).0
      == Enqueue(s, front, parent, queue, visited).0
         + if FirstMention(s, list, visited, |front|) then [Item(Some(parent), ref)] else []
  {
    var list := front + [ref];
    assert list[..|list| - 1] == front && list[..|front|] == front;
    if s.Named(ref) { EnqueueVisits(s, front, parent, queue, visited, ref.uri); }
  }

  lemma OneMoreQueued(queue: seq<Item>, longer: seq<Item>, parent: nat, front: seq<Ref>, ref: Ref, picks: seq<nat>,
                      picked: bool)
    requires QueuedBehind(queue, longer, parent, front, picks) && forall k :: 0 <= k < |picks| ==> picks[k] < |front|
    ensures QueuedBehind(queue, longer + if picked then [Item(Some(parent), ref)] else [], parent, front + [ref],
                         if picked then picks + [|front|] else picks)
  {
  }

  lemma {:induction false} EnqueueInOrder(s: Service, list: seq<Ref>, parent: nat, queue: seq<Item>, visited: set<Uri>)
    returns (picks: seq<nat>)
    ensures FirstMentions(s, list, visited, picks)
    ensures QueuedBehind(queue, Enqueue(s, list, parent, queue, visited).0, parent, list, picks)
  {
    picks := [];
    if list != [] {
      var front, n := list[..|list| - 1], |list| - 1;
      var before := EnqueueInOrder(s, front, parent, queue, visited);
      assert list == front + [list[n]];
      OneMoreMention(s, front, list[n], visited, before);
      EnqueueOneMore(s, front, list[n], parent, queue, visited);
      OneMoreQueued(queue, Enqueue(s, front, parent, queue, visited).0, parent, front, list[n], before,
                    FirstMention(s, list, visited, n));
      picks := if FirstMention(s, list, visited, n) then before + [n] else before;
    }
  }

  lemma {:induction false} EnqueueSplits(s: Service, a: seq<Ref>, b: seq<Ref>, parent: nat, queue: seq<Item>,
                                         visited: set<Uri>)
    ensures var (q, v) := Enqueue(s, a, parent, queue, visited);
      Enqueue(s, a + b, parent, queue, visited) == Enqueue(s, b, parent, q, v)
  {
    if b == [] {
      assert a + b == a;
    } else {
      assert (a + b)[..|a + b| - 1] == a + b[..|b| - 1];
      EnqueueSplits(s, a, b[..|b| - 1], parent, queue, visited);
    }
  }

  /** What a placed resource adds to the end of the queue: first what the search below it returned,
      then its cables in the order of the cable map, each resource once, and below its node. */
  lemma ExpandInOrder(s: Service, u: Uri, current: nat, queue: seq<Item>, visited: set<Uri>)
    returns (cables: seq<Ref>, picks: seq<nat>)
    requires u in s.graph
    ensures |cables| == |Entry(s.cables, u)|
    ensures forall i :: 0 <= i < |cables| ==>
      cables[i] == if Entry(s.cables, u)[i] == "" then Null else To(Entry(s.cables, u)[i])
    ensures var (objs, marked) := s.Find(s.graph[u], visited);
      && FirstMentions(s, objs + cables, marked, picks)
      && QueuedBehind(queue, Expand(s, u, current, queue, visited).0, current, objs + cables, picks)
  {
    var (objs, marked) := s.Find(s.graph[u], visited);
    cables := CableRefs(s, u);
    EnqueueSplits(s, objs, cables, current, queue, marked);
    picks := EnqueueInOrder(s, objs + cables, current, queue, marked);
  }

  // ---- What a node hangs on ----------------------------------------------------------------------------

  /** Resource v leads to u, directly, through skipped resources, or by a cable. */
  ghost predicate FoundBelow(s: Service, v: Uri, u: Uri) {
    v in s.graph &&
    (|| s.LeadsDownstream(s.graph[v], To(u))
     || CabledTo(s, v, u)
     || exists path :: PassesTo(s, v, path, u))
  }

  /** A walk along skip links from v whose last resource leads to u. */
  ghost predicate PassesTo(s: Service, v: Uri, path: seq<Uri>, u: Uri)
    requires v in s.graph
  {
    s.SkipWalk(s.graph[v], {}, path) && path[|path| - 1] in s.graph
    && s.LeadsDownstream(s.graph[path[|path| - 1]], To(u))
  }

  /** One of the first k resources in node p leads to u, or u is the Google service root and p the root. */
  ghost predicate HangsOn(s: Service, t: Topology, p: nat, k: nat, u: Uri) {
    p < |t.nodes| && k <= |t.nodes[p].associatedUris|
    && (|| (p == 0 && s.useGoogleRoot && s.googleRoot == To(u))
        || exists j :: 0 <= j < k && FoundBelow(s, t.nodes[p].associatedUris[j], u))
  }

  ghost predicate ItemHangs(s: Service, t: Topology, item: Item) {
    item.parent.Some? && s.Named(item.obj) ==>
      item.parent.value < |t.nodes|
      && HangsOn(s, t, item.parent.value, |t.nodes[item.parent.value].associatedUris|, item.obj.uri)
  }

  ghost predicate QueueHangs(s: Service, t: Topology, queue: seq<Item>) {
    forall i :: 0 <= i < |queue| ==> ItemHangs(s, t, queue[i])
  }

  ghost predicate NodesHang(s: Service, t: Topology) {
    && (forall n: nat, p: nat :: IsParent(t, n, p) && n < |t.nodes| ==>
          p < |t.nodes| && t.nodes[n].associatedUris != []
          && HangsOn(s, t, p, |t.nodes[p].associatedUris|, t.nodes[n].associatedUris[0]))
    && (forall n: nat, k: nat :: n < |t.nodes| && 1 <= k < |t.nodes[n].associatedUris| ==>
          HangsOn(s, t, n, k, t.nodes[n].associatedUris[k]))
  }

  /** Nodes and what they list stay as they are; only more is added behind. */
  ghost predicate Extends(t: Topology, t': Topology) {
    |t.nodes| <= |t'.nodes|
    && forall n: nat :: n < |t.nodes| ==> t.nodes[n].associatedUris <= t'.nodes[n].associatedUris
  }

  lemma StillHangs(s: Service, t: Topology, t': Topology, p: nat, k: nat, k': nat, u: Uri)
    requires HangsOn(s, t, p, k, u) && Extends(t, t') && k <= k' <= |t'.nodes[p].associatedUris|
    ensures HangsOn(s, t', p, k', u)
  {
    if !(p == 0 && s.useGoogleRoot && s.googleRoot == To(u)) {
      var j :| 0 <= j < k && FoundBelow(s, t.nodes[p].associatedUris[j], u);
      assert FoundBelow(s, t'.nodes[p].associatedUris[j], u);
    }
  }

  lemma {:induction false} WalkFromScratch(s: Service, r: Resource, visited: set<Uri>, path: seq<Uri>)
    requires s.SkipWalk(r, visited, path)
    ensures s.SkipWalk(r, {}, path)
    decreases |path|
  {
    if |path| > 1 { WalkFromScratch(s, s.graph[path[0]], visited, path[1..]); }
  }

  lemma FoundBySearch(s: Service, v: Uri, visited: set<Uri>, u: Uri)
    requires v in s.graph && To(u) in s.Find(s.graph[v], visited).0 + CableRefs(s, v)
    ensures FoundBelow(s, v, u)
  {
    CablesMeaning(s, v, u);
    if !CabledTo(s, v, u) {
      s.FindReturnsDirectObjects(s.graph[v], visited, To(u));
      if !s.LeadsDownstream(s.graph[v], To(u)) {
        var w :| w in Marks(s, v, visited) && w in s.graph && s.LeadsDownstream(s.graph[w], To(u));
        FoundThroughMark(s, v, visited, w, u);
      }
    }
  }

  lemma FoundThroughMark(s: Service, v: Uri, visited: set<Uri>, w: Uri, u: Uri)
    requires v in s.graph && w in Marks(s, v, visited) && w in s.graph && s.LeadsDownstream(s.graph[w], To(u))
    ensures FoundBelow(s, v, u)
  {
    s.FindMarksWhatIsReachable(s.graph[v], visited, w);
    var path :| s.SkipWalk(s.graph[v], visited, path) && path[|path| - 1] == w;
    WalkFromScratch(s, s.graph[v], visited, path);
    assert PassesTo(s, v, path, u);
  }

  /** The resource just placed hangs what it adds to the queue on its own node. */
  lemma ExpandHangs(s: Service, t: Topology, w: Uri, current: nat, queue: seq<Item>, visited: set<Uri>)
    requires w in s.graph && current < |t.nodes| && w in t.nodes[current].associatedUris && QueueHangs(s, t, queue)
    ensures QueueHangs(s, t, Expand(s, w, current, queue, visited).0)
  {
    var cables, picks := ExpandInOrder(s, w, current, queue, visited);
    var list, longer := s.Find(s.graph[w], visited).0 + cables, Expand(s, w, current, queue, visited).0;
    assert cables == CableRefs(s, w);
    var j :| 0 <= j < |t.nodes[current].associatedUris| && t.nodes[current].associatedUris[j] == w;
    forall i | 0 <= i < |longer| ensures ItemHangs(s, t, longer[i]) {
      if i < |queue| {
        assert longer[i] == queue[i];
      } else {
        var ref := list[picks[i - |queue|]];
        assert longer[|queue| + (i - |queue|)] == Item(Some(current), ref);
        if s.Named(ref) {
          assert ref in list;
          FoundBySearch(s, w, visited, ref.uri);
          assert FoundBelow(s, t.nodes[current].associatedUris[j], ref.uri);
        }
      }
    }
  }

  lemma PlaceExtends(t: Topology, parent: Option<nat>, u: Uri, r: Resource)
    requires parent.Some? ==> parent.value < |t.nodes|
    ensures var p := Place(t, parent, u, r);
      p.Placed? ==> Extends(t, p.topo) && p.current < |p.topo.nodes| && u in p.topo.nodes[p.current].associatedUris
  {
  }

  lemma PlaceKeepsHanging(s: Service, t: Topology, item: Item)
    requires TreeShape(t) && NodesHang(s, t) && ItemHangs(s, t, item) && s.Named(item.obj)
    requires if item.parent.Some? then item.parent.value < |t.nodes| else t.nodes == []
    ensures var p := Place(t, item.parent, item.obj.uri, s.graph[item.obj.uri]); p.Placed? ==> NodesHang(s, p.topo)
  {
    var u := item.obj.uri;
    var p := Place(t, item.parent, u, s.graph[u]);
    if p.Placed? {
      var t' := p.topo;
      PlaceExtends(t, item.parent, u, s.graph[u]);
      forall n: nat, q: nat | IsParent(t', n, q) && n < |t'.nodes|
        ensures q < |t'.nodes| && t'.nodes[n].associatedUris != []
        ensures HangsOn(s, t', q, |t'.nodes[q].associatedUris|, t'.nodes[n].associatedUris[0])
      {
        NewNodeHangs(s, t, item, n, q);
      }
      forall n: nat, k: nat | n < |t'.nodes| && 1 <= k < |t'.nodes[n].associatedUris|
        ensures HangsOn(s, t', n, k, t'.nodes[n].associatedUris[k])
      {
        NewListingHangs(s, t, item, n, k);
      }
    }
  }

  lemma NewListingHangs(s: Service, t: Topology, item: Item, n: nat, k: nat)
    requires NodesHang(s, t) && ItemHangs(s, t, item) && s.Named(item.obj)
    requires if item.parent.Some? then item.parent.value < |t.nodes| else t.nodes == []
    requires var p := Place(t, item.parent, item.obj.uri, s.graph[item.obj.uri]);
      p.Placed? && n < |p.topo.nodes| && 1 <= k < |p.topo.nodes[n].associatedUris|
    ensures var t' := Place(t, item.parent, item.obj.uri, s.graph[item.obj.uri]).topo;
      HangsOn(s, t', n, k, t'.nodes[n].associatedUris[k])
  {
    var u := item.obj.uri;
    var t' := Place(t, item.parent, u, s.graph[u]).topo;
    PlaceExtends(t, item.parent, u, s.graph[u]);
    assert n < |t.nodes|;
    var uris := t.nodes[n].associatedUris;
    StillHangs(s, t, t', n, k, k, if k < |uris| then uris[k] else u);
  }

  lemma NewNodeHangs(s: Service, t: Topology, item: Item, n: nat, q: nat)
    requires TreeShape(t) && NodesHang(s, t) && ItemHangs(s, t, item) && s.Named(item.obj)
    requires if item.parent.Some? then item.parent.value < |t.nodes| else t.nodes == []
    requires var p := Place(t, item.parent, item.obj.uri, s.graph[item.obj.uri]);
      p.Placed? && IsParent(p.topo, n, q) && n < |p.topo.nodes|
    ensures var t' := Place(t, item.parent, item.obj.uri, s.graph[item.obj.uri]).topo;
      && q < |t'.nodes| && t'.nodes[n].associatedUris != []
      && HangsOn(s, t', q, |t'.nodes[q].associatedUris|, t'.nodes[n].associatedUris[0])
  {
    var u := item.obj.uri;
    var t' := Place(t, item.parent, u, s.graph[u]).topo;
    PlaceExtends(t, item.parent, u, s.graph[u]);
    if n < |t.nodes| {
      assert IsParent(t, n, q);
      StillHangs(s, t, t', q, |t.nodes[q].associatedUris|, |t'.nodes[q].associatedUris|, t.nodes[n].associatedUris[0]);
    } else {
      assert Entry(t.nodeToParents, n) == [] && [q] == [] + [item.parent.value] && [q][0] == item.parent.value;
      StillHangs(s, t, t', q, |t.nodes[q].associatedUris|, |t'.nodes[q].associatedUris|, u);
    }
  }

  lemma QueueStillHangs(s: Service, t: Topology, t': Topology, queue: seq<Item>)
    requires QueueHangs(s, t, queue) && Extends(t, t')
    ensures QueueHangs(s, t', queue)
  {
    forall i | 0 <= i < |queue| ensures ItemHangs(s, t', queue[i]) {
      assert ItemHangs(s, t, queue[i]);
      if queue[i].parent.Some? && s.Named(queue[i].obj) {
        var p := queue[i].parent.value;
        StillHangs(s, t, t', p, |t.nodes[p].associatedUris|, |t'.nodes[p].associatedUris|, queue[i].obj.uri);
      }
    }
  }

  lemma PlacedKeepsQueueHanging(s: Service, st: State)
    requires st.queue != [] && ParentsExist(st.topo, st.queue) && QueueHangs(s, st.topo, st.queue)
    requires s.Named(st.queue[0].obj) && (st.queue[0].parent.None? ==> st.topo.nodes == [])
    requires var item := st.queue[0]; Place(st.topo, item.parent, item.obj.uri, s.graph[item.obj.uri]).Placed?
    ensures QueueHangs(s, Step(s, st).topo, Step(s, st).queue)
  {
    var item, rest := st.queue[0], st.queue[1..];
    var u := item.obj.uri;
    var p := Place(st.topo, item.parent, u, s.graph[u]);
    PlacedStep(s, st);
    PlaceExtends(st.topo, item.parent, u, s.graph[u]);
    assert QueueHangs(s, st.topo, rest);
    QueueStillHangs(s, st.topo, p.topo, rest);
    var queue := rest + GoogleRootItems(s, item.parent, p.current);
    GoogleHangs(s, p.topo, item.parent, p.current, rest);
    ExpandHangs(s, p.topo, u, p.current, queue, st.visited);
  }

  lemma GoogleHangs(s: Service, t: Topology, parent: Option<nat>, current: nat, rest: seq<Item>)
    requires QueueHangs(s, t, rest) && current < |t.nodes| && (parent.None? ==> current == 0)
    ensures QueueHangs(s, t, rest + GoogleRootItems(s, parent, current))
  {
  }

  lemma StepKeepsHanging(s: Service, st: State)
    requires st.queue != [] && Rooted(s, st) && TreeShape(st.topo)
    requires NodesHang(s, st.topo) && QueueHangs(s, st.topo, st.queue)
    ensures NodesHang(s, Step(s, st).topo) && QueueHangs(s, Step(s, st).topo, Step(s, st).queue)
  {
    var item := st.queue[0];
    if s.Named(item.obj) {
      assert item.parent.Some? ==> ParentBelow(item, |st.topo.nodes|);
      PlaceKeepsHanging(s, st.topo, item);
      if Place(st.topo, item.parent, item.obj.uri, s.graph[item.obj.uri]).Placed? {
        PlacedStep(s, st);
        PlacedKeepsQueueHanging(s, st);
      } else {
        assert QueueHangs(s, st.topo, st.queue[1..]);
      }
    }
  }

  lemma {:induction false} RunKeepsHanging(s: Service, st: State)
    requires Invariant(s, st) && NodesHang(s, st.topo) && QueueHangs(s, st.topo, st.queue)
    ensures NodesHang(s, Run(s, st).topo)
    decreases Measure(s, st)
  {
    if st.queue != [] {
      StepDecreases(s, st);
      StepKeepsInvariant(s, st);
      StepKeepsHanging(s, st);
      RunKeepsHanging(s, Step(s, st));
    }
  }

  /** The tree follows the links: a node hangs on one with a resource that leads to the resource the
      node was made from, and a resource without a location belongs to a node that listed one leading
      to it before. The one exception is the Google service root, which hangs on the root. */
  lemma BuildFollowsLinks(s: Service, n: nat)
    requires n < |Build(s).topo.nodes|
    ensures var t := Build(s).topo;
      && (n > 0 ==> forall p: nat :: IsParent(t, n, p) ==>
            p < n && t.nodes[n].associatedUris != []
            && HangsOn(s, t, p, |t.nodes[p].associatedUris|, t.nodes[n].associatedUris[0]))
      && forall k: nat :: 1 <= k < |t.nodes[n].associatedUris| ==> HangsOn(s, t, n, k, t.nodes[n].associatedUris[k])
  {
    StartInvariant(s);
    RunKeepsHanging(s, Start(s));
    BuildIsIndexedTree(s);
  }
}
