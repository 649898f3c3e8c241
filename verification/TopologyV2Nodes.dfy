/** Which resources become nodes in the builder of ecclesia/lib/redfish/topology_v2.cc, and what those
    nodes are, read off the fields of the resources. */
module TopologyV2Nodes {
  import opened Wrappers
  import opened RedfishGraph
  import opened TopologyV2

  // ---- What every turn keeps -----------------------------------------------------------------------

  /** The first URI of node n is that of the resource it was made from; the others are of resources
      without a location. */
  ghost predicate NodeDepicted(s: Service, t: Topology, n: nat)
    requires n < |t.nodes|
  {
    var uris := t.nodes[n].associatedUris;
    && uris != [] && uris[0] in s.graph
    && (n == 0 ==> s.root == To(uris[0]) && DepictsRoot(t.nodes[0], s.graph[uris[0]]))
    && (forall p: nat :: IsParent(t, n, p) ==>
          p < |t.nodes| && Depicts(t.nodes[n], s.graph[uris[0]], t.nodes[p].localDevpath))
    && forall k :: 1 <= k < |uris| ==> uris[k] in s.graph && !s.graph[uris[k]].hasPartLocation
  }

  ghost predicate NodesDepicted(s: Service, t: Topology) {
    forall n: nat :: n < |t.nodes| ==> NodeDepicted(s, t, n)
  }

  lemma AddChildKeepsDepicted(s: Service, t: Topology, u: Uri, node: Node, parent: nat)
    requires TreeShape(t) && NodesDepicted(s, t) && parent < |t.nodes| && u in s.graph
    requires node.associatedUris == [u] && Depicts(node, s.graph[u], t.nodes[parent].localDevpath)
    ensures NodesDepicted(s, AddChild(t, u, node, parent))
  {
    var t', k := AddChild(t, u, node, parent), |t.nodes|;
    assert Entry(t.nodeToParents, k) + [parent] == [parent];
    forall n: nat | n < |t'.nodes| ensures NodeDepicted(s, t', n) {
      if n < k {
        assert NodeDepicted(s, t, n);
        forall p: nat | IsParent(t', n, p) ensures p < k { assert IsParent(t, n, p); }
      } else {
        forall p: nat | IsParent(t', n, p) ensures p == parent { assert [parent][0] == [p][0]; }
      }
    }
  }

  lemma AddRootKeepsDepicted(s: Service, t: Topology, u: Uri)
    requires TreeShape(t) && t.nodes == [] && u in s.graph && s.root == To(u)
    ensures NodesDepicted(s, AddNode(t, u, RootNode(u, s.graph[u])))
  {
    var t' := AddNode(t, u, RootNode(u, s.graph[u]));
    assert t'.nodeToParents == t.nodeToParents && 0 !in t.nodeToParents;
    assert NodeDepicted(s, t', 0);
  }

  lemma AssociateKeepsDepicted(s: Service, t: Topology, u: Uri, parent: nat)
    requires NodesDepicted(s, t) && parent < |t.nodes| && u in s.graph && !s.graph[u].hasPartLocation
    ensures NodesDepicted(s, Associate(t, u, parent))
  {
    var t' := Associate(t, u, parent);
    forall n: nat | n < |t'.nodes| ensures NodeDepicted(s, t', n) {
      assert NodeDepicted(s, t, n);
      var uris := t.nodes[n].associatedUris;
      assert t'.nodes[n].associatedUris == if n == parent then uris + [u] else uris;
      forall p: nat | IsParent(t', n, p)
        ensures p < |t'.nodes| && Depicts(t'.nodes[n], s.graph[uris[0]], t'.nodes[p].localDevpath)
      {
        assert IsParent(t, n, p);
      }
    }
  }

  lemma StepKeepsDepicted(s: Service, st: State)
    requires st.queue != [] && Rooted(s, st) && TreeShape(st.topo) && NodesDepicted(s, st.topo)
    ensures NodesDepicted(s, Step(s, st).topo)
  {
    var item := st.queue[0];
    if s.Named(item.obj) {
      var u := item.obj.uri;
      assert item.parent.Some? ==> ParentBelow(item, |st.topo.nodes|);
      if item.parent.None? {
        AddRootKeepsDepicted(s, st.topo, u);
      } else if !s.graph[u].hasPartLocation {
        AssociateKeepsDepicted(s, st.topo, u, item.parent.value);
      } else {
        var above := st.topo.nodes[item.parent.value].localDevpath;
        ChildNodeMeaning(u, s.graph[u], above);
        if MakesNode(s.graph[u]) {
          AddChildKeepsDepicted(s, st.topo, u, ChildNode(u, s.graph[u], above).value, item.parent.value);
        }
      }
    }
  }

  /** How often u is to be listed: each time it is taken from the queue, but for a located resource
      that gets no node only where it is the root chassis. */
  function Listings(s: Service, st: State, u: Uri): nat
    requires u in s.graph
  {
    if s.graph[u].hasPartLocation && !MakesNode(s.graph[u]) then One(s.root == To(u) && st.topo.nodes != [])
    else Count(st.dequeued, u)
  }

  ghost predicate ListedExactly(s: Service, st: State) {
    forall u :: u in s.graph ==> |Entry(st.topo.uriToNodes, u)| == Listings(s, st, u)
  }

  lemma StepKeepsListedExactly(s: Service, st: State)
    requires st.queue != [] && Rooted(s, st) && RootFirst(s, st.topo) && ListedExactly(s, st)
    ensures ListedExactly(s, Step(s, st))
  {
    var item, st' := st.queue[0], Step(s, st);
    if s.Named(item.obj) {
      var w := item.obj.uri;
      assert item.parent.Some? ==> ParentBelow(item, |st.topo.nodes|);
      if item.parent.Some? && s.graph[w].hasPartLocation {
        ChildNodeMeaning(w, s.graph[w], st.topo.nodes[item.parent.value].localDevpath);
      }
      forall u | u in s.graph ensures |Entry(st'.topo.uriToNodes, u)| == Listings(s, st', u) {
        CountAppend(st.dequeued, w, u);
        PlaceLists(st.topo, item.parent, w, s.graph[w], u);
      }
    }
  }

  lemma {:induction false} RunKeepsNodes(s: Service, st: State)
    requires Invariant(s, st) && NodesDepicted(s, st.topo) && ListedExactly(s, st)
    ensures NodesDepicted(s, Run(s, st).topo) && ListedExactly(s, Run(s, st))
    decreases Measure(s, st)
  {
    if st.queue != [] {
      StepDecreases(s, st);
      StepKeepsInvariant(s, st);
      StepKeepsDepicted(s, st);
      StepKeepsListedExactly(s, st);
      RunKeepsNodes(s, Step(s, st));
    }
  }

  // ---- The topology built ----------------------------------------------------------------------------

  /** Every node shows the resource its first URI names: the root chassis, or below its parent a
      located resource, with name, model, type, devpath and replaceability as the resource has them.
      The URIs behind the first are of resources without a location. */
  lemma BuildDepictsResources(s: Service, n: nat)
    requires n < |Build(s).topo.nodes|
    ensures var t := Build(s).topo;
      && (n in t.nodeToParents <==> n > 0)
      && NodeDepicted(s, t, n)
      && (n > 0 ==>
            && |t.nodeToParents[n]| == 1 && t.nodeToParents[n][0] < n
            && Depicts(t.nodes[n], s.graph[t.nodes[n].associatedUris[0]], t.nodes[t.nodeToParents[n][0]].localDevpath))
  {
    StartInvariant(s);
    RunKeepsNodes(s, Start(s));
    BuildIsIndexedTree(s);
    if n > 0 { assert IsParent(Build(s).topo, n, Build(s).topo.nodeToParents[n][0]); }
  }

  /** A located resource that gets no node is in none, unless it is the root chassis; any other
      resource is listed as often as it was taken from the queue. */
  lemma BuildListsResources(s: Service, u: Uri)
    requires u in s.graph
    ensures |Entry(Build(s).topo.uriToNodes, u)| == Listings(s, Build(s), u)
  {
    StartInvariant(s);
    RunKeepsNodes(s, Start(s));
  }

  /** Node n was made from resource u. */
  predicate IsNodeOf(t: Topology, n: nat, u: Uri) {
    0 < n < |t.nodes| && t.nodes[n].associatedUris != [] && t.nodes[n].associatedUris[0] == u
  }

  /** Node n lists u besides the resource it was made from. */
  predicate IsAssociated(t: Topology, n: nat, u: Uri) {
    n < |t.nodes| && exists k :: 1 <= k < |t.nodes[n].associatedUris| && t.nodes[n].associatedUris[k] == u
  }

  /** What became of a resource that was taken from the queue: a located one has a node of its own
      exactly when its fields call for one, and else is in no node at all; one without a location
      belongs to the node of what led to it. */
  lemma BuildPlacesResources(s: Service, u: Uri)
    requires u in Build(s).dequeued && s.root != To(u)
    ensures u in s.graph
    ensures MakesNode(s.graph[u]) <==> exists n: nat :: IsNodeOf(Build(s).topo, n, u)
    ensures !s.graph[u].hasPartLocation <==> exists n: nat :: IsAssociated(Build(s).topo, n, u)
  {
    var t := Build(s).topo;
    BuildDequeuesOnce(s, u);
    CountIn(Build(s).dequeued, u);
    BuildListsResources(s, u);
    if !s.graph[u].hasPartLocation || MakesNode(s.graph[u]) { FindListing(s, u); }
    if n: nat :| IsNodeOf(t, n, u) { BuildDepictsResources(s, n); }
    if n: nat :| IsAssociated(t, n, u) { BuildDepictsResources(s, n); }
  }

  lemma FindListing(s: Service, u: Uri)
    requires u in s.graph && s.root != To(u) && Entry(Build(s).topo.uriToNodes, u) != []
    ensures var t := Build(s).topo;
      exists n: nat ::
        || (IsNodeOf(t, n, u) && MakesNode(s.graph[u]))
        || (IsAssociated(t, n, u) && !s.graph[u].hasPartLocation)
  {
    var t := Build(s).topo;
    BuildIsIndexedTree(s);
    var n := Entry(t.uriToNodes, u)[0];
    CountIn(Entry(t.uriToNodes, u), n);
    assert Agree(t, u, n);
    CountIn(t.nodes[n].associatedUris, u);
    BuildDepictsResources(s, n);
    var k :| 0 <= k < |t.nodes[n].associatedUris| && t.nodes[n].associatedUris[k] == u;
    assert k == 0 ==> IsNodeOf(t, n, u);
    assert k > 0 ==> IsAssociated(t, n, u);
  }
}
