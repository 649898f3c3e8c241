/** CreateTopologyFromRedfishV2 (ecclesia/lib/redfish/topology_v2.cc): a queue of resources with the
    node each should attach to. Nodes live in an arena and are named by their creation index, which
    stands for the Node pointers of the C++ maps. */
module TopologyV2 {
  import opened Wrappers
  import opened RedfishGraph

  datatype NodeType = Board | Device | Cable

  datatype Node = Node(
    name: string, model: string, localDevpath: string, kind: NodeType, associatedUris: seq<Uri>, replaceableNode: bool)

  /** The value of a NodeTopology. */
  datatype Topology = Topology(
    nodes: seq<Node>,
    uriToNodes: map<Uri, seq<nat>>,
    devpathToNode: map<string, nat>,
    nodeToParents: map<nat, seq<nat>>,
    nodeToChildren: map<nat, seq<nat>>)

  const EMPTY := Topology([], map[], map[], map[], map[])
  const ROOT_DEVPATH := "/phys"

  /** AttachingNodes: only the root chassis is queued without a parent. */
  datatype Item = Item(parent: Option<nat>, obj: Ref)

  // ---- Changes to the topology --------------------------------------------------------------

  /** A new node with no parent yet, indexed under its URI and its devpath. */
  function AddNode(t: Topology, u: Uri, node: Node): Topology {
    var n := |t.nodes|;
    t.(nodes := t.nodes + [node],
       uriToNodes := PushBack(t.uriToNodes, u, n),
       devpathToNode := t.devpathToNode[node.localDevpath := n])
  }

  /** A new node attached below `parent`. */
  function AddChild(t: Topology, u: Uri, node: Node, parent: nat): Topology {
    var n := |t.nodes|;
    AddNode(t, u, node).(
      nodeToChildren := PushBack(t.nodeToChildren, parent, n),
      nodeToParents := PushBack(t.nodeToParents, n, parent))
  }

  /** A resource without a location becomes one more URI of its parent's node. */
  function Associate(t: Topology, u: Uri, parent: nat): Topology
    requires parent < |t.nodes|
  {
    var node := t.nodes[parent];
    t.(nodes := t.nodes[parent := node.(associatedUris := node.associatedUris + [u])],
       uriToNodes := PushBack(t.uriToNodes, u, parent))
  }

  // ---- Which node a resource becomes ---------------------------------------------------------

  function RootNode(u: Uri, r: Resource): Node {
    var name := r.name.GetOr("root");
    Node(name, r.model.GetOr(name), ROOT_DEVPATH, Board, [u], true)
  }

  /** How a child's devpath and replaceability relate: a device embedded in its parent, never
      replaceable, or a part plugged into it at a label. */
  ghost predicate DerivedFrom(node: Node, parentDevpath: string) {
    || (node.localDevpath == parentDevpath + ":device:" + node.name && !node.replaceableNode && node.kind != Board)
    || (node.kind != Device && exists label' :: node.localDevpath == parentDevpath + "/" + label')
  }

  const PLUG_IN_LOCATIONS := {"Slot", "Connector", "Bay", "Backplane", "Socket"}

  /** The node of a resource with a part location, or None where the builder gives it up. */
  function ChildNode(u: Uri, r: Resource, parentDevpath: string): (node: Option<Node>)
    ensures node.Some? ==> parentDevpath < node.value.localDevpath && node.value.associatedUris == [u]
    ensures node.Some? ==> DerivedFrom(node.value, parentDevpath)
  {
    if r.absent || r.locationType.None? || r.name.None? then None
    else
      var name := r.name.value;
      var model := r.model.GetOr(name);
      var isCable := r.kind == Some("Cable");
      if r.locationType.value == "Embedded" then
        Some(Node(name, model, parentDevpath + ":device:" + name, if isCable then Cable else Device, [u], false))
      else if r.locationType.value in PLUG_IN_LOCATIONS then
        if r.serviceLabel.None? then None
        else
          var canReplace := if r.canReplace.Some? then r.canReplace.value else r.oemCanReplace.GetOr(true);
          var devpath := parentDevpath + "/" + r.serviceLabel.value;
          Some(Node(name, model, devpath, if isCable then Cable else Board, [u], canReplace))
      else None
  }

  // ---- The same, read off the fields of the resource ----------------------------------------------

  predicate IsPlugIn(locationType: Option<string>) {
    || locationType == Some("Slot") || locationType == Some("Connector") || locationType == Some("Bay")
    || locationType == Some("Backplane") || locationType == Some("Socket")
  }

  /** A located resource that gets a node: it is not absent, has a name and a location type, and a
      service label unless it is embedded. */
  predicate MakesNode(r: Resource) {
    && r.hasPartLocation && !r.absent && r.name.Some?
    && (r.locationType == Some("Embedded") || (IsPlugIn(r.locationType) && r.serviceLabel.Some?))
  }

  /** What the resource says about being replaceable; without a word it is. */
  predicate SaysReplaceable(r: Resource) {
    || r.canReplace == Some(true)
    || (r.canReplace == None && r.oemCanReplace == Some(true))
    || (r.canReplace == None && r.oemCanReplace == None)
  }

  predicate NamedAfter(node: Node, r: Resource) {
    r.model == Some(node.model) || (r.model == None && node.model == node.name)
  }

  /** The node is the part that r describes, below a node with devpath `above`. */
  ghost predicate Depicts(node: Node, r: Resource, above: string) {
    && MakesNode(r)
    && r.name == Some(node.name) && NamedAfter(node, r)
    && (node.kind == Cable <==> r.kind == Some("Cable"))
    && (node.kind == Device <==> r.locationType == Some("Embedded") && r.kind != Some("Cable"))
    && (r.locationType == Some("Embedded") ==>
          node.localDevpath == above + ":device:" + node.name && !node.replaceableNode)
    && (r.locationType != Some("Embedded") ==>
          && node.localDevpath == above + "/" + r.serviceLabel.value
          && (node.replaceableNode <==> SaysReplaceable(r)))
  }

  /** The node of the root chassis. */
  predicate DepictsRoot(node: Node, r: Resource) {
    && (r.name == Some(node.name) || (r.name == None && node.name == "root")) && NamedAfter(node, r)
    && node.localDevpath == "/phys" && node.kind == Board && node.replaceableNode
  }

  lemma ChildNodeMeaning(u: Uri, r: Resource, above: string)
    requires r.hasPartLocation
    ensures ChildNode(u, r, above).Some? <==> MakesNode(r)
    ensures MakesNode(r) ==> Depicts(ChildNode(u, r, above).value, r, above)
  {
  }

  // ---- Placing a resource ------------------------------------------------------------------------

  datatype Placement = GivenUp | Placed(topo: Topology, current: nat)

  function Place(t: Topology, parent: Option<nat>, u: Uri, r: Resource): Placement
    requires parent.Some? ==> parent.value < |t.nodes|
  {
    if parent.None? then Placed(AddNode(t, u, RootNode(u, r)), |t.nodes|)
    else if !r.hasPartLocation then Placed(Associate(t, u, parent.value), parent.value)
    else
      var node := ChildNode(u, r, t.nodes[parent.value].localDevpath);
      if node.None? then GivenUp else Placed(AddChild(t, u, node.value, parent.value), |t.nodes|)
  }

  // ---- One turn of the queue loop ------------------------------------------------------------

  datatype State = State(
    topo: Topology,
    queue: seq<Item>,
    visited: set<Uri>,
    dequeued: seq<Uri>, // history: the resources taken from the queue so far
    passed: set<Uri>    // history: the resources marked when a search went through them along a skip link
  )

  function Start(s: Service): State {
    State(EMPTY, [Item(None, s.root)], {}, [], {})
  }

  /** Queue every named object not visited before, below `parent`. */
  function Enqueue(s: Service, objs: seq<Ref>, parent: nat, queue: seq<Item>, visited: set<Uri>)
    : (result: (seq<Item>, set<Uri>))
  {
    if objs == [] then (queue, visited)
    else
      var (queue', visited') := Enqueue(s, objs[..|objs| - 1], parent, queue, visited);
      var ref := objs[|objs| - 1];
      if !s.Named(ref) || ref.uri in visited' then (queue', visited')
      else (queue' + [Item(Some(parent), ref)], visited' + {ref.uri})
  }

  function CableRefs(s: Service, u: Uri): seq<Ref> {
    seq(|Entry(s.cables, u)|, i requires 0 <= i < |Entry(s.cables, u)| =>
      if Entry(s.cables, u)[i] == "" then Null else To(Entry(s.cables, u)[i]))
  }

  function GoogleRootItems(s: Service, parent: Option<nat>, current: nat): seq<Item> {
    if !(parent.None? && s.useGoogleRoot && s.Resolve(s.googleRoot) != Null) then []
    else [Item(Some(current), s.googleRoot)]
  }

  /** What the search below resource u marks. */
  function Marks(s: Service, u: Uri, visited: set<Uri>): set<Uri>
    requires u in s.graph
  {
    s.Find(s.graph[u], visited).1 - visited
  }

  /** Queue what lies downstream of resource u, then the cables plugged into it. */
  function Expand(s: Service, u: Uri, current: nat, queue: seq<Item>, visited: set<Uri>): (seq<Item>, set<Uri>)
    requires u in s.graph
  {
    var (objs, v1) := s.Find(s.graph[u], visited);
    var (q2, v2) := Enqueue(s, objs, current, queue, v1);
    Enqueue(s, CableRefs(s, u), current, q2, v2)
  }

  predicate ParentsExist(t: Topology, queue: seq<Item>) {
    forall i :: 0 <= i < |queue| && queue[i].parent.Some? ==> queue[i].parent.value < |t.nodes|
  }

  function Step(s: Service, st: State): State
    requires st.queue != [] && ParentsExist(st.topo, st.queue)
  {
    var item, rest := st.queue[0], st.queue[1..];
    if !s.Named(item.obj) then st.(queue := rest)
    else
      var u := item.obj.uri;
      var st' := st.(queue := rest, dequeued := st.dequeued + [u]);
      match Place(st.topo, item.parent, u, s.graph[u])
      case GivenUp => st'
      case Placed(topo, current) =>
        var (queue, visited) := Expand(s, u, current, rest + GoogleRootItems(s, item.parent, current), st.visited);
        State(topo, queue, visited, st'.dequeued, st.passed + Marks(s, u, st.visited))
  }

  // ---- Termination ---------------------------------------------------------------------------

  function Parentless(queue: seq<Item>): nat {
    if queue == [] then 0 else Parentless(queue[..|queue| - 1]) + if queue[|queue| - 1].parent.None? then 1 else 0
  }

  lemma {:induction false} ParentlessConcat(a: seq<Item>, b: seq<Item>)
    ensures Parentless(a + b) == Parentless(a) + Parentless(b)
  {
    if b == [] {
      assert a + b == a;
    } else {
      assert (a + b)[..|a + b| - 1] == a + b[..|b| - 1];
      ParentlessConcat(a, b[..|b| - 1]);
    }
  }

  /** Unvisited resources, plus the queue, plus one more for an item that will make the root. */
  function Measure(s: Service, st: State): nat {
    |s.graph.Keys - st.visited| + |st.queue| + Parentless(st.queue)
  }

  lemma {:induction false} EnqueueTrades(s: Service, objs: seq<Ref>, parent: nat, queue: seq<Item>, visited: set<Uri>)
    ensures var (q, v) := Enqueue(s, objs, parent, queue, visited);
      && visited <= v && queue <= q
      && |s.graph.Keys - v| + |q| == |s.graph.Keys - visited| + |queue|
      && Parentless(q) == Parentless(queue)
  {
    if objs != [] {
      EnqueueTrades(s, objs[..|objs| - 1], parent, queue, visited);
      var (q, v) := Enqueue(s, objs[..|objs| - 1], parent, queue, visited);
      var ref := objs[|objs| - 1];
      if s.Named(ref) && ref.uri !in v {
        assert s.graph.Keys - (v + {ref.uri}) == (s.graph.Keys - v) - {ref.uri};
        ParentlessConcat(q, [Item(Some(parent), ref)]);
      }
    }
  }

  /** Every turn of the loop uses the measure up, whatever the graph looks like. */
  lemma StepDecreases(s: Service, st: State)
    requires st.queue != [] && ParentsExist(st.topo, st.queue)
    ensures Measure(s, Step(s, st)) < Measure(s, st)
  {
    var item, rest := st.queue[0], st.queue[1..];
    assert st.queue == [item] + rest;
    ParentlessConcat([item], rest);
    if s.Named(item.obj) {
      var u := item.obj.uri;
      match Place(st.topo, item.parent, u, s.graph[u])
      case GivenUp =>
      case Placed(topo, current) =>
        var google := GoogleRootItems(s, item.parent, current);
        ParentlessConcat(rest, google);
        ExpandTrades(s, u, current, rest + google, st.visited);
    }
  }

  lemma ExpandTrades(s: Service, u: Uri, current: nat, queue: seq<Item>, visited: set<Uri>)
    requires u in s.graph
    ensures var (q, v) := Expand(s, u, current, queue, visited);
      && visited <= v && queue <= q
      && |s.graph.Keys - v| + |q| <= |s.graph.Keys - visited| + |queue|
      && Parentless(q) == Parentless(queue)
  {
    var (objs, v1) := s.Find(s.graph[u], visited);
    SubsetSize(s.graph.Keys - v1, s.graph.Keys - visited);
    EnqueueTrades(s, objs, current, queue, v1);
    var (q2, v2) := Enqueue(s, objs, current, queue, v1);
    EnqueueTrades(s, CableRefs(s, u), current, q2, v2);
  }

  lemma {:induction false} SubsetSize<T>(a: set<T>, b: set<T>)
    requires a <= b
    ensures |a| <= |b|
  {
    assert b == a + (b - a);
  }

  // ---- What every turn keeps: the shape of the tree -------------------------------------------

  /** Node p is what node n is attached to. */
  predicate IsParent(t: Topology, n: nat, p: nat) {
    n in t.nodeToParents && t.nodeToParents[n] == [p]
  }

  /** A tree rooted at node 0: every later node has one parent, created before it, whose devpath its
      own strictly extends. */
  ghost predicate TreeShape(t: Topology) {
    && (forall n: nat :: n in t.nodeToParents <==> 1 <= n < |t.nodes|)
    && (forall n: nat :: 1 <= n < |t.nodes| ==>
          && |t.nodeToParents[n]| == 1 && t.nodeToParents[n][0] < n
          && t.nodes[t.nodeToParents[n][0]].localDevpath < t.nodes[n].localDevpath)
    && (t.nodes != [] ==> t.nodes[0].localDevpath == ROOT_DEVPATH && t.nodes[0].replaceableNode)
  }

  /** Every later node is a device or a part of its parent. */
  ghost predicate NodesDerived(t: Topology) {
    forall n: nat, p: nat :: IsParent(t, n, p) ==>
      n < |t.nodes| && p < |t.nodes| && DerivedFrom(t.nodes[n], t.nodes[p].localDevpath)
  }

  /** nodeToChildren is the exact inverse of nodeToParents: each child once, oldest first. */
  ghost predicate ChildrenInverse(t: Topology) {
    && (forall p: nat, c: nat :: c in Entry(t.nodeToChildren, p) <==> IsParent(t, c, p))
    && (forall p: nat, i, j :: 0 <= i < j < |Entry(t.nodeToChildren, p)| ==>
          Entry(t.nodeToChildren, p)[i] < Entry(t.nodeToChildren, p)[j])
  }

  lemma AddChildKeepsTree(t: Topology, u: Uri, node: Node, parent: nat)
    requires TreeShape(t) && ChildrenInverse(t) && parent < |t.nodes|
    requires t.nodes[parent].localDevpath < node.localDevpath
    ensures TreeShape(AddChild(t, u, node, parent)) && ChildrenInverse(AddChild(t, u, node, parent))
  {
    var t', n := AddChild(t, u, node, parent), |t.nodes|;
    NewParent(t, u, node, parent);
    forall p: nat, c: nat ensures c in Entry(t'.nodeToChildren, p) <==> IsParent(t', c, p) {
      assert c in Entry(t.nodeToChildren, p) <==> IsParent(t, c, p);
    }
    AddChildKeepsOrder(t, u, node, parent);
  }

  lemma NewParent(t: Topology, u: Uri, node: Node, parent: nat)
    requires TreeShape(t) && parent < |t.nodes| && t.nodes[parent].localDevpath < node.localDevpath
    ensures var t' := AddChild(t, u, node, parent);
      TreeShape(t') && t'.nodeToParents == t.nodeToParents[|t.nodes| := [parent]]
  {
    assert Entry(t.nodeToParents, |t.nodes|) + [parent] == [parent];
  }

  lemma AddChildKeepsOrder(t: Topology, u: Uri, node: Node, parent: nat)
    requires TreeShape(t) && ChildrenInverse(t) && parent < |t.nodes|
    ensures var t' := AddChild(t, u, node, parent);
      forall p: nat, i, j :: 0 <= i < j < |Entry(t'.nodeToChildren, p)| ==>
        Entry(t'.nodeToChildren, p)[i] < Entry(t'.nodeToChildren, p)[j]
  {
    var t' := AddChild(t, u, node, parent);
    forall p: nat, i, j | 0 <= i < j < |Entry(t'.nodeToChildren, p)|
      ensures Entry(t'.nodeToChildren, p)[i] < Entry(t'.nodeToChildren, p)[j]
    {
      var before := Entry(t.nodeToChildren, p);
      if p == parent && j == |before| {
        assert before[i] in Entry(t.nodeToChildren, p);
        assert IsParent(t, before[i], p);
      }
    }
  }

  lemma PlaceKeepsTree(t: Topology, parent: Option<nat>, u: Uri, r: Resource)
    requires TreeShape(t) && ChildrenInverse(t)
    requires if parent.Some? then parent.value < |t.nodes| else t.nodes == []
    ensures var p := Place(t, parent, u, r);
      p.Placed? ==>
        p.current < |p.topo.nodes| && |t.nodes| <= |p.topo.nodes| && TreeShape(p.topo) && ChildrenInverse(p.topo)
  {
    var p := Place(t, parent, u, r);
    if p.Placed? {
      if parent.None? || !r.hasPartLocation {
        assert p.topo.nodeToParents == t.nodeToParents && p.topo.nodeToChildren == t.nodeToChildren;
        forall q: nat, c: nat ensures c in Entry(p.topo.nodeToChildren, q) <==> IsParent(p.topo, c, q) {
          assert c in Entry(t.nodeToChildren, q) <==> IsParent(t, c, q);
        }
      } else {
        AddChildKeepsTree(t, u, ChildNode(u, r, t.nodes[parent.value].localDevpath).value, parent.value);
      }
    }
  }

  lemma AddChildKeepsDerived(t: Topology, u: Uri, node: Node, parent: nat)
    requires TreeShape(t) && NodesDerived(t) && parent < |t.nodes| && DerivedFrom(node, t.nodes[parent].localDevpath)
    ensures NodesDerived(AddChild(t, u, node, parent))
  {
    var t', k := AddChild(t, u, node, parent), |t.nodes|;
    assert Entry(t.nodeToParents, k) + [parent] == [parent];
    forall n: nat, q: nat | IsParent(t', n, q)
      ensures n < |t'.nodes| && q < |t'.nodes| && DerivedFrom(t'.nodes[n], t'.nodes[q].localDevpath)
    {
      if n == k { assert [parent][0] == [q][0]; } else { assert IsParent(t, n, q); }
    }
  }

  lemma AssociateKeepsDerived(t: Topology, u: Uri, parent: nat)
    requires NodesDerived(t) && parent < |t.nodes|
    ensures NodesDerived(Associate(t, u, parent))
  {
    var t' := Associate(t, u, parent);
    forall n: nat, q: nat | IsParent(t', n, q)
      ensures n < |t'.nodes| && q < |t'.nodes| && DerivedFrom(t'.nodes[n], t'.nodes[q].localDevpath)
    {
      assert IsParent(t, n, q);
      assert DerivedFrom(t.nodes[n], t.nodes[q].localDevpath) == DerivedFrom(t'.nodes[n], t'.nodes[q].localDevpath);
    }
  }

  lemma PlaceKeepsDerived(t: Topology, parent: Option<nat>, u: Uri, r: Resource)
    requires TreeShape(t) && NodesDerived(t)
    requires if parent.Some? then parent.value < |t.nodes| else t.nodes == []
    ensures var p := Place(t, parent, u, r); p.Placed? ==> NodesDerived(p.topo)
  {
    var p := Place(t, parent, u, r);
    if p.Placed? {
      if parent.None? {
        assert p.topo.nodeToParents == t.nodeToParents;
      } else if r.hasPartLocation {
        AddChildKeepsDerived(t, u, ChildNode(u, r, t.nodes[parent.value].localDevpath).value, parent.value);
      } else {
        AssociateKeepsDerived(t, u, parent.value);
      }
    }
  }

  // ---- What every turn keeps: the two indices --------------------------------------------------

  /** Each devpath in use leads to the newest node that has it. */
  ghost predicate DevpathIndexed(t: Topology) {
    && (forall d :: d in t.devpathToNode ==>
          t.devpathToNode[d] < |t.nodes| && t.nodes[t.devpathToNode[d]].localDevpath == d)
    && (forall n :: 0 <= n < |t.nodes| ==>
          t.nodes[n].localDevpath in t.devpathToNode && n <= t.devpathToNode[t.nodes[n].localDevpath])
  }

  /** Node n is listed under URI u as often as u is listed in node n. */
  ghost predicate Agree(t: Topology, u: Uri, n: nat) {
    Count(Entry(t.uriToNodes, u), n) == if n < |t.nodes| then Count(t.nodes[n].associatedUris, u) else 0
  }

  ghost predicate UriIndexed(t: Topology) {
    && (forall u: Uri, n: nat :: Agree(t, u, n))
    && (forall n :: 0 <= n < |t.nodes| ==> t.nodes[n].associatedUris != [])
  }

  lemma PlaceKeepsIndices(t: Topology, parent: Option<nat>, u: Uri, r: Resource)
    requires DevpathIndexed(t) && UriIndexed(t)
    requires parent.Some? ==> parent.value < |t.nodes|
    ensures var p := Place(t, parent, u, r); p.Placed? ==> DevpathIndexed(p.topo) && UriIndexed(p.topo)
  {
    var p := Place(t, parent, u, r);
    if p.Placed? {
      if parent.Some? && !r.hasPartLocation {
        AssociateKeepsIndices(t, u, parent.value);
      } else {
        var node := if parent.None? then RootNode(u, r) else ChildNode(u, r, t.nodes[parent.value].localDevpath).value;
        AddNodeKeepsIndices(t, u, node);
        forall v: Uri, n: nat ensures Agree(p.topo, v, n) { assert Agree(AddNode(t, u, node), v, n); }
      }
    }
  }

  lemma AddNodeAgrees(t: Topology, u: Uri, node: Node, v: Uri, n: nat)
    requires Agree(t, v, n) && Agree(t, v, |t.nodes|) && node.associatedUris == [u]
    ensures Agree(AddNode(t, u, node), v, n)
  {
    PushBackEntry(t.uriToNodes, u, |t.nodes|, v);
    CountAppend(Entry(t.uriToNodes, v), |t.nodes|, n);
    CountAppend([], u, v);
    assert [] + [u] == [u];
  }

  lemma AddNodeKeepsIndices(t: Topology, u: Uri, node: Node)
    requires DevpathIndexed(t) && UriIndexed(t) && node.associatedUris == [u]
    ensures DevpathIndexed(AddNode(t, u, node)) && UriIndexed(AddNode(t, u, node))
  {
    forall v: Uri, n: nat ensures Agree(AddNode(t, u, node), v, n) {
      assert Agree(t, v, n) && Agree(t, v, |t.nodes|);
      AddNodeAgrees(t, u, node, v, n);
    }
  }

  lemma AssociateAgrees(t: Topology, u: Uri, parent: nat, v: Uri, n: nat)
    requires parent < |t.nodes| && Agree(t, v, n)
    ensures Agree(Associate(t, u, parent), v, n)
  {
    PushBackEntry(t.uriToNodes, u, parent, v);
    CountAppend(Entry(t.uriToNodes, v), parent, n);
    CountAppend(t.nodes[parent].associatedUris, u, v);
  }

  lemma AssociateKeepsIndices(t: Topology, u: Uri, parent: nat)
    requires DevpathIndexed(t) && UriIndexed(t) && parent < |t.nodes|
    ensures DevpathIndexed(Associate(t, u, parent)) && UriIndexed(Associate(t, u, parent))
  {
    forall v: Uri, n: nat ensures Agree(Associate(t, u, parent), v, n) {
      assert Agree(t, v, n);
      AssociateAgrees(t, u, parent, v, n);
    }
  }

  // ---- What every turn keeps: no resource is dequeued twice -------------------------------------

  /** How many queue entries are the resource u. */
  function Pending(queue: seq<Item>, u: Uri): nat {
    if queue == [] then 0 else Pending(queue[..|queue| - 1], u) + if queue[|queue| - 1].obj == To(u) then 1 else 0
  }

  lemma {:induction false} PendingConcat(a: seq<Item>, b: seq<Item>, u: Uri)
    ensures Pending(a + b, u) == Pending(a, u) + Pending(b, u)
  {
    if b == [] {
      assert a + b == a;
    } else {
      assert (a + b)[..|a + b| - 1] == a + b[..|b| - 1];
      PendingConcat(a, b[..|b| - 1], u);
    }
  }

  /** How often u is to pass through the queue: once when it is marked visited, and once for each seed
      it is: the root chassis, the Google service root once there is a root node. */
  function Due(s: Service, st: State, u: Uri): nat {
    One(u in st.visited) + One(s.root == To(u)) + One(st.topo.nodes != [] && s.useGoogleRoot && s.googleRoot == To(u))
  }

  /** Each resource has passed or waits in the queue exactly as often as it is due, less the one mark
      of a resource that a search went through. */
  ghost predicate DequeuedExactly(s: Service, st: State) {
    && st.passed <= st.visited
    && (forall u :: u in st.dequeued ==> u in s.graph)
    && forall u :: u in s.graph ==> Settled(s, st, u)
  }

  predicate Settled(s: Service, st: State, u: Uri) {
    Count(st.dequeued, u) + Pending(st.queue, u) + One(u in st.passed) == Due(s, st, u)
  }

  lemma {:induction false} EnqueueOnce(s: Service, objs: seq<Ref>, parent: nat, queue: seq<Item>, visited: set<Uri>,
                                       u: Uri)
    ensures var (q, v) := Enqueue(s, objs, parent, queue, visited);
      Pending(q, u) - One(u in v) == Pending(queue, u) - One(u in visited)
  {
    if objs != [] {
      EnqueueOnce(s, objs[..|objs| - 1], parent, queue, visited, u);
      var q := Enqueue(s, objs[..|objs| - 1], parent, queue, visited).0;
      PendingConcat(q, [Item(Some(parent), objs[|objs| - 1])], u);
    }
  }

  lemma ExpandOnce(s: Service, w: Uri, current: nat, queue: seq<Item>, visited: set<Uri>, u: Uri)
    requires w in s.graph
    ensures var (q, v) := Expand(s, w, current, queue, visited);
      Pending(q, u) - One(u in v) + One(u in Marks(s, w, visited)) == Pending(queue, u) - One(u in visited)
  {
    var (objs, v1) := s.Find(s.graph[w], visited);
    EnqueueOnce(s, objs, current, queue, v1, u);
    var (q2, v2) := Enqueue(s, objs, current, queue, v1);
    EnqueueOnce(s, CableRefs(s, w), current, q2, v2, u);
  }

  lemma GooglePending(s: Service, parent: Option<nat>, current: nat, u: Uri)
    requires u in s.graph
    ensures Pending(GoogleRootItems(s, parent, current), u)
      == One(parent.None? && s.useGoogleRoot && s.googleRoot == To(u))
  {
    var google := GoogleRootItems(s, parent, current);
    if google != [] {
      assert google[..0] == [] && google[0].obj == s.googleRoot;
    }
  }

  lemma PlacedTurn(s: Service, st: State, current: nat, u: Uri)
    requires st.queue != [] && ParentsExist(st.topo, st.queue) && s.Named(st.queue[0].obj) && u in s.graph
    ensures var item := st.queue[0];
      var queue := st.queue[1..] + GoogleRootItems(s, item.parent, current);
      var (q, v) := Expand(s, item.obj.uri, current, queue, st.visited);
      Pending(q, u) - One(u in v) + One(u in Marks(s, item.obj.uri, st.visited))
        == Pending(st.queue, u) - One(item.obj == To(u)) - One(u in st.visited)
           + One(item.parent.None? && s.useGoogleRoot && s.googleRoot == To(u))
  {
    var item, rest := st.queue[0], st.queue[1..];
    var google := GoogleRootItems(s, item.parent, current);
    PoppedPending(st.queue, u);
    PendingConcat(rest, google, u);
    GooglePending(s, item.parent, current, u);
    ExpandOnce(s, item.obj.uri, current, rest + google, st.visited, u);
  }

  lemma PoppedPending(queue: seq<Item>, u: Uri)
    requires queue != []
    ensures Pending(queue, u) == Pending(queue[1..], u) + One(queue[0].obj == To(u))
  {
    assert queue == [queue[0]] + queue[1..];
    assert [queue[0]][..0] == [];
    PendingConcat([queue[0]], queue[1..], u);
  }

  lemma StepSettles(s: Service, st: State, u: Uri)
    requires st.queue != [] && ParentsExist(st.topo, st.queue) && st.passed <= st.visited
    requires st.queue[0].parent.None? <==> st.topo.nodes == []
    requires u in s.graph && Settled(s, st, u)
    ensures Settled(s, Step(s, st), u)
  {
    var item := st.queue[0];
    PoppedPending(st.queue, u);
    if s.Named(item.obj) {
      CountAppend(st.dequeued, item.obj.uri, u);
      match Place(st.topo, item.parent, item.obj.uri, s.graph[item.obj.uri])
      case GivenUp =>
      case Placed(_, _) => PlacedSettles(s, st, u);
    }
  }

  lemma PlacedStep(s: Service, st: State)
    requires st.queue != [] && ParentsExist(st.topo, st.queue) && s.Named(st.queue[0].obj)
    requires var item := st.queue[0]; Place(st.topo, item.parent, item.obj.uri, s.graph[item.obj.uri]).Placed?
    ensures var item := st.queue[0];
      var p := Place(st.topo, item.parent, item.obj.uri, s.graph[item.obj.uri]);
      var queue := st.queue[1..] + GoogleRootItems(s, item.parent, p.current);
      var (q, v) := Expand(s, item.obj.uri, p.current, queue, st.visited);
      && p.topo.nodes != []
      && Step(s, st)
         == State(p.topo, q, v, st.dequeued + [item.obj.uri], st.passed + Marks(s, item.obj.uri, st.visited))
  {
  }

  /** Placing the root node makes the Google service root due. */
  lemma DueAfter(s: Service, st: State, st': State, u: Uri)
    requires st'.topo.nodes != []
    ensures Due(s, st', u) - One(u in st'.visited)
      == Due(s, st, u) - One(u in st.visited) + One(st.topo.nodes == [] && s.useGoogleRoot && s.googleRoot == To(u))
  {
  }

  lemma PlacedSettles(s: Service, st: State, u: Uri)
    requires st.queue != [] && ParentsExist(st.topo, st.queue) && st.passed <= st.visited
    requires st.queue[0].parent.None? <==> st.topo.nodes == []
    requires u in s.graph && Settled(s, st, u) && s.Named(st.queue[0].obj)
    requires var item := st.queue[0]; Place(st.topo, item.parent, item.obj.uri, s.graph[item.obj.uri]).Placed?
    ensures Settled(s, Step(s, st), u)
  {
    var item, st' := st.queue[0], Step(s, st);
    var p := Place(st.topo, item.parent, item.obj.uri, s.graph[item.obj.uri]);
    var marks := Marks(s, item.obj.uri, st.visited);
    PlacedStep(s, st);
    CountAppend(st.dequeued, item.obj.uri, u);
    PlacedTurn(s, st, p.current, u);
    DueAfter(s, st, st', u);
    assert One(u in st'.passed) == One(u in st.passed) + One(u in marks);
  }

  lemma ExpandMarks(s: Service, u: Uri, current: nat, queue: seq<Item>, visited: set<Uri>)
    requires u in s.graph
    ensures visited + Marks(s, u, visited) <= Expand(s, u, current, queue, visited).1
  {
    var (objs, v1) := s.Find(s.graph[u], visited);
    EnqueueTrades(s, objs, current, queue, v1);
    var (q2, v2) := Enqueue(s, objs, current, queue, v1);
    EnqueueTrades(s, CableRefs(s, u), current, q2, v2);
  }

  lemma StepKeepsDequeuedExactly(s: Service, st: State)
    requires st.queue != [] && ParentsExist(st.topo, st.queue) && DequeuedExactly(s, st)
    requires st.queue[0].parent.None? <==> st.topo.nodes == []
    ensures DequeuedExactly(s, Step(s, st))
  {
    forall u | u in s.graph ensures Settled(s, Step(s, st), u) { StepSettles(s, st, u); }
    StepKeepsHistory(s, st);
  }

  lemma StepKeepsHistory(s: Service, st: State)
    requires st.queue != [] && ParentsExist(st.topo, st.queue) && st.passed <= st.visited
    requires forall u :: u in st.dequeued ==> u in s.graph
    ensures var st' := Step(s, st); st'.passed <= st'.visited && forall u :: u in st'.dequeued ==> u in s.graph
  {
    var item := st.queue[0];
    if s.Named(item.obj) {
      var u := item.obj.uri;
      match Place(st.topo, item.parent, u, s.graph[u])
      case GivenUp =>
      case Placed(_, current) =>
        ExpandMarks(s, u, current, st.queue[1..] + GoogleRootItems(s, item.parent, current), st.visited);
    }
  }

  // ---- Whole runs --------------------------------------------------------------------------------

  predicate AllBelow(queue: seq<Item>, bound: nat) {
    forall i :: 0 <= i < |queue| ==> ParentBelow(queue[i], bound)
  }

  predicate ParentBelow(item: Item, bound: nat) {
    item.parent.Some? && item.parent.value < bound
  }

  /** Before the root exists the queue holds the root chassis or nothing; afterwards every queued
      item has a parent. */
  ghost predicate Rooted(s: Service, st: State) {
    if st.topo.nodes == [] then st.queue == [] || st.queue == [Item(None, s.root)]
    else AllBelow(st.queue, |st.topo.nodes|)
  }

  /** A URI is listed in nodes at most as often as its resource was dequeued. */
  ghost predicate ListedWhenDequeued(st: State) {
    forall u: Uri :: |Entry(st.topo.uriToNodes, u)| <= Count(st.dequeued, u)
  }

  /** The root chassis made node 0 and is listed there first. */
  ghost predicate RootFirst(s: Service, t: Topology) {
    if t.nodes == [] then t.uriToNodes == map[]
    else s.root.To? && Entry(t.uriToNodes, s.root.uri) != [] && Entry(t.uriToNodes, s.root.uri)[0] == 0
  }

  ghost predicate Invariant(s: Service, st: State) {
    && Rooted(s, st) && RootFirst(s, st.topo) && TreeShape(st.topo) && ChildrenInverse(st.topo) && NodesDerived(st.topo)
    && DevpathIndexed(st.topo) && UriIndexed(st.topo) && DequeuedExactly(s, st) && ListedWhenDequeued(st)
  }

  lemma {:induction false} EnqueueParents(s: Service, objs: seq<Ref>, parent: nat, queue: seq<Item>,
                                          visited: set<Uri>, bound: nat)
    requires parent < bound && AllBelow(queue, bound)
    ensures AllBelow(Enqueue(s, objs, parent, queue, visited).0, bound)
  {
    if objs != [] { EnqueueParents(s, objs[..|objs| - 1], parent, queue, visited, bound); }
  }

  lemma StepKeepsRooted(s: Service, st: State)
    requires st.queue != [] && Rooted(s, st)
    ensures Rooted(s, Step(s, st))
  {
    var item, rest := st.queue[0], st.queue[1..];
    if s.Named(item.obj) {
      var u := item.obj.uri;
      match Place(st.topo, item.parent, u, s.graph[u])
      case GivenUp =>
      case Placed(topo, current) =>
        var queue := rest + GoogleRootItems(s, item.parent, current);
        assert AllBelow(queue, |topo.nodes|) by {
          forall i | 0 <= i < |rest| ensures ParentBelow(rest[i], |topo.nodes|) {
            assert rest[i] == st.queue[i + 1];
          }
        }
        var (objs, v1) := s.Find(s.graph[u], st.visited);
        EnqueueParents(s, objs, current, queue, v1, |topo.nodes|);
        var (q2, v2) := Enqueue(s, objs, current, queue, v1);
        EnqueueParents(s, CableRefs(s, u), current, q2, v2, |topo.nodes|);
    }
  }

  lemma PlaceLists(t: Topology, parent: Option<nat>, u: Uri, r: Resource, v: Uri)
    requires parent.Some? ==> parent.value < |t.nodes|
    ensures var p := Place(t, parent, u, r);
      p.Placed? ==> |Entry(p.topo.uriToNodes, v)| == |Entry(t.uriToNodes, v)| + One(u == v)
  {
    PushBackEntry(t.uriToNodes, u, |t.nodes|, v);
    if parent.Some? { PushBackEntry(t.uriToNodes, u, parent.value, v); }
  }

  lemma StepKeepsListed(s: Service, st: State)
    requires st.queue != [] && ParentsExist(st.topo, st.queue) && ListedWhenDequeued(st)
    ensures ListedWhenDequeued(Step(s, st))
  {
    var item, st' := st.queue[0], Step(s, st);
    forall v: Uri ensures |Entry(st'.topo.uriToNodes, v)| <= Count(st'.dequeued, v) {
      assert |Entry(st.topo.uriToNodes, v)| <= Count(st.dequeued, v);
      if s.Named(item.obj) {
        CountAppend(st.dequeued, item.obj.uri, v);
        PlaceLists(st.topo, item.parent, item.obj.uri, s.graph[item.obj.uri], v);
      }
    }
  }

  lemma PlaceKeepsRootFirst(s: Service, t: Topology, parent: Option<nat>, u: Uri)
    requires RootFirst(s, t) && u in s.graph
    requires if parent.Some? then parent.value < |t.nodes| else t.nodes == [] && s.root == To(u)
    ensures var p := Place(t, parent, u, s.graph[u]); p.Placed? ==> RootFirst(s, p.topo)
  {
    PushBackEntry(t.uriToNodes, u, |t.nodes|, s.root.uri);
    if parent.Some? { PushBackEntry(t.uriToNodes, u, parent.value, s.root.uri); }
  }

  lemma StepKeepsRootFirst(s: Service, st: State)
    requires st.queue != [] && Rooted(s, st) && RootFirst(s, st.topo)
    ensures RootFirst(s, Step(s, st).topo)
  {
    var item := st.queue[0];
    if s.Named(item.obj) {
      assert item.parent.Some? ==> ParentBelow(item, |st.topo.nodes|);
      PlaceKeepsRootFirst(s, st.topo, item.parent, item.obj.uri);
    }
  }

  lemma StepKeepsShape(s: Service, st: State)
    requires st.queue != [] && Rooted(s, st) && TreeShape(st.topo) && ChildrenInverse(st.topo)
    requires DevpathIndexed(st.topo) && UriIndexed(st.topo)
    ensures var t := Step(s, st).topo; TreeShape(t) && ChildrenInverse(t) && DevpathIndexed(t) && UriIndexed(t)
  {
    var item := st.queue[0];
    if s.Named(item.obj) {
      PlaceKeepsTree(st.topo, item.parent, item.obj.uri, s.graph[item.obj.uri]);
      PlaceKeepsIndices(st.topo, item.parent, item.obj.uri, s.graph[item.obj.uri]);
    }
  }

  lemma StepKeepsDerived(s: Service, st: State)
    requires st.queue != [] && Rooted(s, st) && TreeShape(st.topo) && NodesDerived(st.topo)
    ensures NodesDerived(Step(s, st).topo)
  {
    var item := st.queue[0];
    if s.Named(item.obj) { PlaceKeepsDerived(st.topo, item.parent, item.obj.uri, s.graph[item.obj.uri]); }
  }

  lemma StepKeepsInvariant(s: Service, st: State)
    requires st.queue != [] && Invariant(s, st)
    ensures Invariant(s, Step(s, st))
  {
    StepKeepsRooted(s, st);
    StepKeepsRootFirst(s, st);
    StepKeepsShape(s, st);
    StepKeepsDerived(s, st);
    StepKeepsListed(s, st);
    StepKeepsDequeuedExactly(s, st);
  }

  lemma StartInvariant(s: Service)
    ensures Invariant(s, Start(s))
  {
    forall u | u in s.graph ensures Settled(s, Start(s), u) {
      assert Start(s).queue[..0] == [];
    }
    forall u: Uri, n: nat ensures Agree(EMPTY, u, n) {}
  }

  /** The queue loop, run to its end. */
  ghost function Run(s: Service, st: State): State
    requires Rooted(s, st)
    decreases Measure(s, st)
  {
    if st.queue == [] then st
    else
      StepDecreases(s, st);
      StepKeepsRooted(s, st);
      Run(s, Step(s, st))
  }

  ghost function Build(s: Service): State {
    Run(s, Start(s))
  }

  lemma {:induction false} RunKeepsInvariant(s: Service, st: State)
    requires Invariant(s, st)
    ensures Invariant(s, Run(s, st)) && Run(s, st).queue == []
    decreases Measure(s, st)
  {
    if st.queue != [] {
      StepDecreases(s, st);
      StepKeepsInvariant(s, st);
      RunKeepsInvariant(s, Step(s, st));
    }
  }

  lemma {:induction false} RunIsShort(s: Service, st: State)
    requires Rooted(s, st)
    ensures |Run(s, st).dequeued| <= |st.dequeued| + Measure(s, st)
    decreases Measure(s, st)
  {
    if st.queue != [] {
      StepDecreases(s, st);
      StepKeepsRooted(s, st);
      RunIsShort(s, Step(s, st));
    }
  }

  /** For every service, however its links loop: the topology built is a single-parent tree rooted at
      the first node with exactly inverse parent and child maps, and both indices agree with it. */
  lemma BuildIsIndexedTree(s: Service)
    ensures TreeShape(Build(s).topo) && ChildrenInverse(Build(s).topo) && NodesDerived(Build(s).topo)
    ensures DevpathIndexed(Build(s).topo) && UriIndexed(Build(s).topo)
    ensures RootFirst(s, Build(s).topo)
  {
    StartInvariant(s);
    RunKeepsInvariant(s, Start(s));
  }

  /** The root chassis or, when it is asked for, the Google service root. */
  predicate IsSeed(s: Service, u: Uri) {
    s.root == To(u) || (s.useGoogleRoot && s.googleRoot == To(u))
  }

  lemma BuildIsShort(s: Service)
    ensures |Build(s).dequeued| <= |s.graph| + 2
  {
    RunIsShort(s, Start(s));
    assert s.graph.Keys - {} == s.graph.Keys;
    assert Parentless(Start(s).queue) == 1;
  }

  /** How often each resource is dequeued, exactly: once if it is marked visited, unless the mark is
      that of a search going through it, and once for each way it is a seed. So every resource other
      than the two seeds is dequeued at most once, and the loop takes at most two more turns than
      there are resources. */
  lemma BuildDequeuesOnce(s: Service, u: Uri)
    ensures var st := Build(s);
      Count(st.dequeued, u) == if u in s.graph then Due(s, st, u) - One(u in st.passed) else 0
    ensures !IsSeed(s, u) ==> Count(Build(s).dequeued, u) <= 1
    ensures |Build(s).dequeued| <= |s.graph| + 2
  {
    StartInvariant(s);
    RunKeepsInvariant(s, Start(s));
    BuildIsShort(s);
    CountIn(Build(s).dequeued, u);
    if u in s.graph { assert Settled(s, Build(s), u); }
  }

  // ---- The builder itself --------------------------------------------------------------------------

  /** NodeTopology: the object the builder fills in. */
  class NodeTopology {
    var nodes: seq<Node>
    var uriToAssociatedNodeMap: map<Uri, seq<nat>>
    var devpathToNodeMap: map<string, nat>
    var nodeToParents: map<nat, seq<nat>>
    var nodeToChildren: map<nat, seq<nat>>

    ghost function Value(): Topology
      reads this
    {
      Topology(nodes, uriToAssociatedNodeMap, devpathToNodeMap, nodeToParents, nodeToChildren)
    }

    constructor ()
      ensures Value() == EMPTY
    {
      nodes, uriToAssociatedNodeMap, devpathToNodeMap := [], map[], map[];
      nodeToParents, nodeToChildren := map[], map[];
    }

    /** Make node the newest one and index it. */
    method Push(u: Uri, node: Node) returns (n: nat)
      modifies this
      ensures n == old(|nodes|) && Value() == AddNode(old(Value()), u, node)
    {
      n := |nodes|;
      uriToAssociatedNodeMap := PushBack(uriToAssociatedNodeMap, u, n);
      devpathToNodeMap := devpathToNodeMap[node.localDevpath := n];
      nodes := nodes + [node];
    }

    method Attach(u: Uri, node: Node, parent: nat) returns (n: nat)
      modifies this
      ensures n == old(|nodes|) && Value() == AddChild(old(Value()), u, node, parent)
    {
      n := Push(u, node);
      nodeToChildren := PushBack(nodeToChildren, parent, n);
      nodeToParents := PushBack(nodeToParents, n, parent);
    }

    method AssociateWith(u: Uri, parent: nat)
      requires parent < |nodes|
      modifies this
      ensures Value() == Associate(old(Value()), u, parent)
    {
      var node := nodes[parent];
      nodes := nodes[parent := node.(associatedUris := node.associatedUris + [u])];
      uriToAssociatedNodeMap := PushBack(uriToAssociatedNodeMap, u, parent);
    }
  }

  /** The child node of a located resource, None where the builder moves on without it. */
  method MakeChild(u: Uri, r: Resource, parentDevpath: string) returns (result: Option<Node>)
    ensures result == ChildNode(u, r, parentDevpath)
    ensures r.hasPartLocation ==> (result.Some? <==> MakesNode(r))
    ensures r.hasPartLocation && result.Some? ==>
      Depicts(result.value, r, parentDevpath) && result.value.associatedUris == [u]
  {
    if r.hasPartLocation { ChildNodeMeaning(u, r, parentDevpath); }
    if r.absent || r.locationType.None? || r.name.None? {
      return None;
    }
    var name := r.name.value;
    var model := name;
    if r.model.Some? { model := r.model.value; }
    var devpath, kind, canReplace;
    var locationType := r.locationType.value;
    if locationType == "Embedded" {
      devpath, kind, canReplace := parentDevpath + ":device:" + name, Device, false;
    } else if locationType in PLUG_IN_LOCATIONS {
      if r.serviceLabel.None? {
        return None;
      }
      devpath, kind, canReplace := parentDevpath + "/" + r.serviceLabel.value, Board, true;
      if r.canReplace.Some? {
        canReplace := r.canReplace.value;
      } else if r.oemCanReplace.Some? {
        canReplace := r.oemCanReplace.value;
      }
    } else {
      return None;
    }
    if r.kind.Some? && r.kind.value == "Cable" {
      kind := Cable;
    }
    result := Some(Node(name, model, devpath, kind, [u], canReplace));
  }

  /** Put every named object that was not visited before at the end of the queue. */
  method EnqueueAll(s: Service, objs: seq<Ref>, parent: nat, queue: seq<Item>, visited: set<Uri>)
    returns (queue': seq<Item>, visited': set<Uri>)
    ensures (queue', visited') == Enqueue(s, objs, parent, queue, visited)
  {
    queue', visited' := queue, visited;
    for i := 0 to |objs|
      invariant (queue', visited') == Enqueue(s, objs[..i], parent, queue, visited)
    {
      assert objs[..i + 1][..i] == objs[..i];
      if !s.Named(objs[i]) || objs[i].uri in visited' { continue; }
      visited' := visited' + {objs[i].uri};
      queue' := queue' + [Item(Some(parent), objs[i])];
    }
    assert objs[..|objs|] == objs;
  }

  /** Turn one resource into a node, or add it to its parent's; None where the loop moves on. */
  method PlaceResource(topology: NodeTopology, parent: Option<nat>, u: Uri, r: Resource) returns (current: Option<nat>)
    requires parent.Some? ==> parent.value < |topology.nodes|
    modifies topology
    ensures match Place(old(topology.Value()), parent, u, r)
      case GivenUp => current == None && topology.Value() == old(topology.Value())
      case Placed(topo, n) => current == Some(n) && topology.Value() == topo
  {
    var n: nat;
    if parent.None? {
      var name := "root";
      if r.name.Some? { name := r.name.value; }
      var model := name;
      if r.model.Some? { model := r.model.value; }
      n := topology.Push(u, Node(name, model, ROOT_DEVPATH, Board, [u], true));
    } else if !r.hasPartLocation {
      n := parent.value;
      topology.AssociateWith(u, n);
    } else {
      var child := MakeChild(u, r, topology.nodes[parent.value].localDevpath);
      if child.None? {
        return None;
      }
      n := topology.Attach(u, child.value, parent.value);
    }
    current := Some(n);
  }

  method CreateTopologyFromRedfishV2(s: Service) returns (topology: NodeTopology)
    ensures fresh(topology) && topology.Value() == Build(s).topo
  {
    topology := new NodeTopology();
    var queue := [Item(None, s.root)];
    var visited: set<Uri> := {};
    ghost var st := Start(s);
    while queue != []
      invariant fresh(topology) && st == State(topology.Value(), queue, visited, st.dequeued, st.passed)
      invariant Rooted(s, st) && Run(s, st) == Build(s)
      decreases Measure(s, st)
    {
      StepDecreases(s, st);
      StepKeepsRooted(s, st);
      ghost var before := st;
      st := Step(s, st);
      var item := queue[0];
      queue := queue[1..];
      if !s.Named(item.obj) { continue; }
      var u, r := item.obj.uri, s.graph[item.obj.uri];
      assert item.parent.Some? ==> ParentBelow(before.queue[0], |topology.nodes|);
      var placed := PlaceResource(topology, item.parent, u, r);
      if placed.None? { continue; }
      var current := placed.value;
      if item.parent.None? && s.useGoogleRoot && s.Resolve(s.googleRoot) != Null {
        queue := queue + [Item(Some(current), s.googleRoot)];
      }
      assert queue == before.queue[1..] + GoogleRootItems(s, item.parent, current);
      queue, visited := EnqueueDownstream(s, u, current, queue, visited);
    }
  }

  method EnqueueDownstream(s: Service, u: Uri, current: nat, queue: seq<Item>, visited: set<Uri>)
    returns (queue': seq<Item>, visited': set<Uri>)
    requires u in s.graph
    ensures (queue', visited') == Expand(s, u, current, queue, visited)
  {
    var objs;
    objs, visited' := FindAllDownstreamsUris(s, s.graph[u], visited);
    queue', visited' := EnqueueAll(s, objs, current, queue, visited');
    queue', visited' := EnqueueAll(s, CableRefs(s, u), current, queue', visited');
  }
}
