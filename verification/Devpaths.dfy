/** The lookups of ecclesia/lib/redfish/devpath.cc on a topology, with the default resolver that
    never resolves anything itself. */
module Devpaths {
  import opened Wrappers
  import opened RedfishGraph
  import opened TopologyV2
  import opened TopologyV2Links
  import opened TopologyV2Nodes

  datatype LookupError = NotFound

  function GetDevpathForUri(t: Topology, u: Uri): Option<string> {
    if u in t.uriToNodes && t.uriToNodes[u] != [] && t.uriToNodes[u][0] < |t.nodes| then
      Some(t.nodes[t.uriToNodes[u][0]].localDevpath)
    else None
  }

  function GetFirstUriForDevpath(t: Topology, devpath: string): Result<Uri, LookupError> {
    if devpath in t.devpathToNode && t.devpathToNode[devpath] < |t.nodes|
       && t.nodes[t.devpathToNode[devpath]].associatedUris != [] then
      Ok(t.nodes[t.devpathToNode[devpath]].associatedUris[0])
    else Err(NotFound)
  }

  // ---- Searching upward for a replaceable part ----------------------------------------------------

  /** How far node n is below the root. */
  ghost function Depth(t: Topology, n: nat): nat
    requires TreeShape(t) && n < |t.nodes|
    decreases n
  {
    if n == 0 then 0 else 1 + Depth(t, t.nodeToParents[n][0])
  }

  /** The node k steps above n. */
  ghost function Ancestor(t: Topology, n: nat, k: nat): (a: nat)
    requires TreeShape(t) && n < |t.nodes| && k <= Depth(t, n)
    ensures a < |t.nodes| && Depth(t, a) == Depth(t, n) - k
    decreases k
  {
    if k == 0 then n else Ancestor(t, t.nodeToParents[n][0], k - 1)
  }

  lemma {:induction false} AncestorParent(t: Topology, n: nat, k: nat)
    requires TreeShape(t) && n < |t.nodes| && k < Depth(t, n)
    ensures var a := Ancestor(t, n, k); a >= 1 && Ancestor(t, n, k + 1) == t.nodeToParents[a][0]
    decreases k
  {
    if k > 0 { AncestorParent(t, t.nodeToParents[n][0], k - 1); }
  }

  lemma {:induction false} AncestorDevpath(t: Topology, n: nat, k: nat)
    requires TreeShape(t) && n < |t.nodes| && k <= Depth(t, n)
    ensures t.nodes[Ancestor(t, n, k)].localDevpath <= t.nodes[n].localDevpath
    decreases k
  {
    if k > 0 { AncestorDevpath(t, t.nodeToParents[n][0], k - 1); }
  }

  lemma {:induction false} RootDevpathIsPrefix(t: Topology, n: nat)
    requires TreeShape(t) && n < |t.nodes|
    ensures ROOT_DEVPATH <= t.nodes[n].localDevpath
  {
    if n > 0 { RootDevpathIsPrefix(t, t.nodeToParents[n][0]); }
  }

  /** The k-th ancestor of n is the nearest replaceable one, n itself counting as nearest. */
  ghost predicate NearestReplaceable(t: Topology, n: nat, k: nat)
    requires TreeShape(t) && n < |t.nodes|
  {
    && k <= Depth(t, n) && t.nodes[Ancestor(t, n, k)].replaceableNode
    && forall j: nat :: j < k ==> !t.nodes[Ancestor(t, n, j)].replaceableNode
  }

  /** The upward search keeps no visited set. On the trees the builder makes it ends, and answers for
      every mapped devpath: with the nearest replaceable ancestor-or-self, whose devpath is a prefix
      of the one asked about. */
  method GetReplaceableDevpathForDevpathAndNodeTopology(t: Topology, devpath: string)
    returns (result: Result<string, LookupError>, ghost steps: nat)
    requires TreeShape(t) && DevpathIndexed(t)
    ensures result.Ok? <==> devpath in t.devpathToNode
    ensures result.Ok? ==>
      var n := t.devpathToNode[devpath];
      NearestReplaceable(t, n, steps) && result.value == t.nodes[Ancestor(t, n, steps)].localDevpath
    ensures result.Ok? ==> ROOT_DEVPATH <= result.value <= devpath
  {
    steps := 0;
    if devpath !in t.devpathToNode {
      return Err(NotFound), 0;
    }
    var node := t.devpathToNode[devpath];
    var queue := [node];
    while queue != [] && !t.nodes[queue[0]].replaceableNode
      invariant steps <= Depth(t, node) && queue == [Ancestor(t, node, steps)]
      invariant forall j: nat :: j < steps ==> !t.nodes[Ancestor(t, node, j)].replaceableNode
      decreases Depth(t, node) - steps
    {
      AncestorParent(t, node, steps);
      if queue[0] in t.nodeToParents {
        queue := queue + t.nodeToParents[queue[0]];
      }
      queue := queue[1..];
      steps := steps + 1;
    }
    AncestorDevpath(t, node, steps);
    RootDevpathIsPrefix(t, Ancestor(t, node, steps));
    if queue == [] {
      return Err(NotFound), steps;
    }
    return Ok(t.nodes[queue[0]].localDevpath), steps;
  }

  /** Hence on every topology the builder makes, from whatever graph, the search succeeds for every
      devpath in its map. */
  method ReplaceableForBuilt(s: Service, devpath: string) returns (result: Result<string, LookupError>)
    ensures result.Ok? <==> devpath in Build(s).topo.devpathToNode
    ensures result.Ok? ==> ROOT_DEVPATH <= result.value <= devpath
  {
    BuildIsIndexedTree(s);
    var topology := CreateTopologyFromRedfishV2(s);
    var t := Topology(topology.nodes, topology.uriToAssociatedNodeMap, topology.devpathToNodeMap,
                      topology.nodeToParents, topology.nodeToChildren);
    ghost var steps;
    result, steps := GetReplaceableDevpathForDevpathAndNodeTopology(t, devpath);
  }

  // ---- Whose URI a devpath leads to ------------------------------------------------------------------

  /** Node n is the newest one with that devpath. */
  predicate NewestAt(t: Topology, n: nat, devpath: string) {
    && n < |t.nodes| && t.nodes[n].localDevpath == devpath
    && forall m :: n < m < |t.nodes| ==> t.nodes[m].localDevpath != devpath
  }

  lemma OnlyRootAtRoot(t: Topology, n: nat)
    requires TreeShape(t) && n < |t.nodes|
    ensures t.nodes[n].localDevpath == ROOT_DEVPATH <==> n == 0
  {
    if n > 0 { RootDevpathIsPrefix(t, t.nodeToParents[n][0]); }
  }

  /** /phys leads to the root chassis, whatever else its node lists. */
  lemma RootDevpathLeadsToChassis(s: Service)
    requires Build(s).topo.nodes != []
    ensures s.root.To? && GetFirstUriForDevpath(Build(s).topo, "/phys") == Ok(s.root.uri)
  {
    var t := Build(s).topo;
    BuildIsIndexedTree(s);
    BuildDepictsResources(s, 0);
    assert t.nodes[0].localDevpath == "/phys" && "/phys" in t.devpathToNode;
    OnlyRootAtRoot(t, t.devpathToNode["/phys"]);
  }

  /** A devpath leads somewhere exactly when a node has it. Any one but /phys leads to the located
      resource that the newest such node was made from, whatever else that node lists. */
  lemma DevpathLeadsToItsPart(s: Service, devpath: string)
    requires devpath != "/phys"
    ensures var t := Build(s).topo; var first := GetFirstUriForDevpath(t, devpath);
      && (first.Ok? <==> exists n: nat :: NewestAt(t, n, devpath))
      && (first.Ok? ==> first.value in s.graph && MakesNode(s.graph[first.value]))
      && (first.Ok? ==> exists n: nat :: NewestAt(t, n, devpath) && IsNodeOf(t, n, first.value))
  {
    var t := Build(s).topo;
    BuildIsIndexedTree(s);
    if devpath in t.devpathToNode {
      var n := t.devpathToNode[devpath];
      OnlyRootAtRoot(t, n);
      BuildDepictsResources(s, n);
      assert NewestAt(t, n, devpath) && IsNodeOf(t, n, t.nodes[n].associatedUris[0]);
    }
  }

  /** A URI leads to a devpath exactly when its resource belongs to some node. */
  lemma UriLeadsToItsNode(s: Service, u: Uri)
    ensures var t := Build(s).topo; var found := GetDevpathForUri(t, u);
      && (found.Some? <==> Listed(t, u))
      && (found.Some? ==> exists n: nat ::
            n < |t.nodes| && u in t.nodes[n].associatedUris && t.nodes[n].localDevpath == found.value)
  {
    var t := Build(s).topo;
    BuildIsIndexedTree(s);
    if Listed(t, u) {
      var n := Entry(t.uriToNodes, u)[0];
      CountIn(Entry(t.uriToNodes, u), n);
      assert Agree(t, u, n);
      CountIn(t.nodes[n].associatedUris, u);
    }
  }

  // ---- From a devpath to its URI and back -----------------------------------------------------------

  predicate RoundTrips(t: Topology, devpath: string) {
    var u := GetFirstUriForDevpath(t, devpath);
    u.Ok? && GetDevpathForUri(t, u.value) == Some(devpath)
  }

  lemma OnlyEntry(s: Service, n: nat, u: Uri)
    requires n < |Build(s).topo.nodes| && u in Build(s).topo.nodes[n].associatedUris
    requires Count(Build(s).dequeued, u) <= 1
    ensures Entry(Build(s).topo.uriToNodes, u) == [n]
  {
    var t := Build(s).topo;
    StartInvariant(s);
    RunKeepsInvariant(s, Start(s));
    assert Agree(t, u, n) && |Entry(t.uriToNodes, u)| <= Count(Build(s).dequeued, u);
    CountIn(t.nodes[n].associatedUris, u);
    CountIn(Entry(t.uriToNodes, u), n);
  }

  lemma FirstUri(s: Service, devpath: string) returns (n: nat, u: Uri)
    requires devpath in Build(s).topo.devpathToNode
    ensures var t := Build(s).topo;
      && n == t.devpathToNode[devpath] < |t.nodes| && t.nodes[n].localDevpath == devpath
      && u in t.nodes[n].associatedUris && GetFirstUriForDevpath(t, devpath) == Ok(u)
      && Entry(t.uriToNodes, u) != [] && Entry(t.uriToNodes, u)[0] < |t.nodes|
  {
    BuildIsIndexedTree(s);
    var t := Build(s).topo;
    n := t.devpathToNode[devpath];
    u := t.nodes[n].associatedUris[0];
    CountIn(t.nodes[n].associatedUris, u);
    assert Agree(t, u, n);
    CountIn(Entry(t.uriToNodes, u), n);
    var front := Entry(t.uriToNodes, u)[0];
    assert Agree(t, u, front);
    CountIn(Entry(t.uriToNodes, u), front);
  }

  /** Where the Google service root first comes to lie: it is queued right behind the root chassis,
      below it, before anything else can lead there. None where the builder gives it up or there is
      none. */
  function GoogleRootDevpath(s: Service): Option<string> {
    if !s.Named(s.googleRoot) then None
    else
      var r := s.graph[s.googleRoot.uri];
      if !r.hasPartLocation then Some("/phys")
      else if !MakesNode(r) then None
      else if r.locationType == Some("Embedded") then Some("/phys:device:" + r.name.value)
      else Some("/phys/" + r.serviceLabel.value)
  }

  /** The devpath the seed u leads to. */
  function SeedDevpath(s: Service, u: Uri): Option<string> {
    if s.root == To(u) then Some("/phys") else GoogleRootDevpath(s)
  }

  predicate GoogleSeed(s: Service) { s.useGoogleRoot && s.googleRoot.To? && s.googleRoot != s.root }

  predicate FirstListedAt(t: Topology, u: Uri, devpath: Option<string>) {
    match devpath
    case None => Entry(t.uriToNodes, u) == []
    case Some(d) =>
      var nodes := Entry(t.uriToNodes, u);
      nodes != [] && nodes[0] < |t.nodes| && t.nodes[nodes[0]].localDevpath == d
  }

  /** The Google service root heads the queue and is listed nowhere yet. */
  predicate GoogleWaits(s: Service, st: State)
    requires GoogleSeed(s)
  {
    && st.queue != [] && st.queue[0] == Item(Some(0), s.googleRoot)
    && s.Named(s.googleRoot) && Entry(st.topo.uriToNodes, s.googleRoot.uri) == []
  }

  ghost predicate GooglePlaced(s: Service, st: State)
    requires GoogleSeed(s)
  {
    if st.topo.nodes == [] then st.topo.uriToNodes == map[]
    else GoogleWaits(s, st) || FirstListedAt(st.topo, s.googleRoot.uri, GoogleRootDevpath(s))
  }

  lemma RootTurn(s: Service, st: State)
    requires GoogleSeed(s) && st.topo.nodes == [] && st.topo.uriToNodes == map[]
    requires st.queue == [Item(None, s.root)] && s.Named(s.root)
    ensures var st' := Step(s, st);
      GoogleWaits(s, st') || FirstListedAt(st'.topo, s.googleRoot.uri, GoogleRootDevpath(s))
  {
    var u := s.root.uri;
    var topo := AddNode(st.topo, u, RootNode(u, s.graph[u]));
    PushBackEntry(st.topo.uriToNodes, u, 0, s.googleRoot.uri);
    var google := GoogleRootItems(s, None, 0);
    ExpandTrades(s, u, 0, st.queue[1..] + google, st.visited);
    assert st.queue[1..] + google == google;
  }

  lemma PlaceKeepsFirst(s: Service, t: Topology, parent: nat, u: Uri)
    requires GoogleSeed(s) && parent < |t.nodes| && u in s.graph
    requires FirstListedAt(t, s.googleRoot.uri, GoogleRootDevpath(s))
    ensures var p := Place(t, Some(parent), u, s.graph[u]);
      p.Placed? ==> FirstListedAt(p.topo, s.googleRoot.uri, GoogleRootDevpath(s))
  {
    PushBackEntry(t.uriToNodes, u, |t.nodes|, s.googleRoot.uri);
    PushBackEntry(t.uriToNodes, u, parent, s.googleRoot.uri);
  }

  lemma GoogleRootNode(s: Service)
    requires s.Named(s.googleRoot) && s.graph[s.googleRoot.uri].hasPartLocation
    ensures var node := ChildNode(s.googleRoot.uri, s.graph[s.googleRoot.uri], ROOT_DEVPATH);
      GoogleRootDevpath(s) == if node.Some? then Some(node.value.localDevpath) else None
  {
    var r := s.graph[s.googleRoot.uri];
    ChildNodeMeaning(s.googleRoot.uri, r, ROOT_DEVPATH);
    if MakesNode(r) {
      assert "/phys" + ":device:" + r.name.value == "/phys:device:" + r.name.value;
      assert r.serviceLabel.Some? ==> "/phys" + "/" + r.serviceLabel.value == "/phys/" + r.serviceLabel.value;
    }
  }

  lemma PlaceGoogleFirst(s: Service, t: Topology)
    requires GoogleSeed(s) && s.Named(s.googleRoot) && t.nodes != [] && t.nodes[0].localDevpath == ROOT_DEVPATH
    requires Entry(t.uriToNodes, s.googleRoot.uri) == []
    ensures var p := Place(t, Some(0), s.googleRoot.uri, s.graph[s.googleRoot.uri]);
      FirstListedAt(if p.Placed? then p.topo else t, s.googleRoot.uri, GoogleRootDevpath(s))
  {
    var g := s.googleRoot.uri;
    if s.graph[g].hasPartLocation {
      GoogleRootNode(s);
      PushBackEntry(t.uriToNodes, g, |t.nodes|, g);
    } else {
      PushBackEntry(t.uriToNodes, g, 0, g);
    }
  }

  lemma StepKeepsGooglePlaced(s: Service, st: State)
    requires GoogleSeed(s) && st.queue != [] && Rooted(s, st) && TreeShape(st.topo) && GooglePlaced(s, st)
    ensures GooglePlaced(s, Step(s, st))
  {
    var item := st.queue[0];
    if s.Named(item.obj) {
      if st.topo.nodes == [] {
        RootTurn(s, st);
      } else {
        assert ParentBelow(item, |st.topo.nodes|);
        if GoogleWaits(s, st) {
          PlaceGoogleFirst(s, st.topo);
        } else {
          PlaceKeepsFirst(s, st.topo, item.parent.value, item.obj.uri);
        }
      }
    }
  }

  lemma {:induction false} RunKeepsGooglePlaced(s: Service, st: State)
    requires GoogleSeed(s) && Invariant(s, st) && GooglePlaced(s, st)
    ensures GooglePlaced(s, Run(s, st)) && Run(s, st).queue == []
    decreases Measure(s, st)
  {
    if st.queue != [] {
      StepDecreases(s, st);
      StepKeepsInvariant(s, st);
      StepKeepsGooglePlaced(s, st);
      RunKeepsGooglePlaced(s, Step(s, st));
    }
  }

  /** A seed leads to the devpath it takes first. */
  lemma SeedLeadsTo(s: Service, u: Uri)
    requires IsSeed(s, u) && Entry(Build(s).topo.uriToNodes, u) != []
    ensures GetDevpathForUri(Build(s).topo, u) == SeedDevpath(s, u) != None
  {
    StartInvariant(s);
    RunKeepsInvariant(s, Start(s));
    if s.root != To(u) { RunKeepsGooglePlaced(s, Start(s)); }
  }

  /** Exactly when a mapped devpath leads to its first URI and back: unless that URI is a seed, the
      root chassis or the Google service root; and for a seed, where the devpath is the one the seed
      takes first. What fails are the devpaths of nodes made when something led to a seed again. */
  lemma RoundTripExactly(s: Service, devpath: string)
    requires devpath in Build(s).topo.devpathToNode
    ensures GetFirstUriForDevpath(Build(s).topo, devpath).Ok?
    ensures var u := GetFirstUriForDevpath(Build(s).topo, devpath).value;
      RoundTrips(Build(s).topo, devpath) <==> (IsSeed(s, u) ==> SeedDevpath(s, u) == Some(devpath))
  {
    var n, u := FirstUri(s, devpath);
    if IsSeed(s, u) {
      SeedLeadsTo(s, u);
    } else {
      BuildDequeuesOnce(s, u);
      OnlyEntry(s, n, u);
    }
  }

  /** When no link, attribute or cable leads back to a seed and the seeds differ, every mapped
      devpath leads to its first URI and back. */
  lemma NoLinkBackRoundTrips(s: Service, devpath: string)
    requires devpath in Build(s).topo.devpathToNode
    requires forall u, v :: IsSeed(s, u) ==> !RefersTo(s, v, u)
    requires s.useGoogleRoot ==> s.root != s.googleRoot
    ensures RoundTrips(Build(s).topo, devpath)
  {
    var n, u := FirstUri(s, devpath);
    BuildVisitsWhatIsFollowed(s, u);
    if v :| Leads(s, Build(s), v, u) { assert RefersTo(s, v, u); }
    BuildDequeuesOnce(s, u);
    OnlyEntry(s, n, u);
  }

  // ---- Resources that lead back to a seed -------------------------------------------------------------

  /** A chassis in slot `label` that contains the given parts. */
  function Chassis(label': string, parts: seq<Uri>): Resource {
    Resource(Some("Chassis"), map[], map["Contains" := Array(Refs(parts))], true, false,
             Some("Slot"), Some(label'), Some("n"), None, None, None)
  }

  function Refs(uris: seq<Uri>): seq<Ref> { seq(|uris|, i requires 0 <= i < |uris| => To(uris[i])) }

  const FOLLOW_CONTAINS := map["Chassis" := ResourceConfig([], [], [], [], ["Contains"], [])]

  function Fitted(label': string, u: Uri, above: string): Node {
    Node("n", "n", above + "/" + label', Board, [u], true)
  }

  predicate FollowsContains(s: Service) { s.configs == FOLLOW_CONTAINS && s.cables == map[] }

  lemma ChassisLinks(s: Service, label': string, parts: seq<Uri>)
    requires FollowsContains(s)
    ensures s.Direct(Chassis(label', parts)) == Refs(parts) && s.Skipped(Chassis(label', parts)) == []
  {
    var r := Chassis(label', parts);
    assert ["Contains"][..0] == [] && s.EachOf(r.links, ["Contains"]) == [] + Refs(parts);
  }

  lemma ChassisFind(s: Service, label': string, parts: seq<Uri>, visited: set<Uri>)
    requires FollowsContains(s)
    ensures s.Find(Chassis(label', parts), visited) == (Refs(parts), visited)
  {
    ChassisLinks(s, label', parts);
    assert s.FindThrough([], visited) == ([], visited) && Refs(parts) + [] == Refs(parts);
  }

  /** The one part of a chassis is queued below its node if it is new. */
  lemma ChassisExpansion(s: Service, u: Uri, label': string, part: Uri, current: nat, queue: seq<Item>,
                         visited: set<Uri>)
    requires FollowsContains(s)
    requires u in s.graph && s.graph[u] == Chassis(label', [part]) && part in s.graph
    ensures Expand(s, u, current, queue, visited)
      == if part in visited then (queue, visited) else (queue + [Item(Some(current), To(part))], visited + {part})
    ensures Marks(s, u, visited) == {}
  {
    ChassisFind(s, label', [part], visited);
    var objs := Refs([part]);
    assert objs[..0] == [] && s.Named(objs[0]);
    assert Enqueue(s, objs[..0], current, queue, visited) == (queue, visited);
    NoCables(s, u);
  }

  lemma NoCables(s: Service, u: Uri)
    requires FollowsContains(s)
    ensures CableRefs(s, u) == []
  {
  }

  lemma EmptyChassisExpansion(s: Service, u: Uri, label': string, current: nat, queue: seq<Item>, visited: set<Uri>)
    requires FollowsContains(s) && u in s.graph && s.graph[u] == Chassis(label', [])
    ensures Expand(s, u, current, queue, visited) == (queue, visited) && Marks(s, u, visited) == {}
  {
    ChassisFind(s, label', [], visited);
    NoCables(s, u);
    assert Refs([]) == [];
  }

  lemma ChassisPlaces(t: Topology, u: Uri, label': string, parts: seq<Uri>, parent: nat)
    requires parent < |t.nodes|
    ensures Place(t, Some(parent), u, Chassis(label', parts))
      == Placed(AddChild(t, u, Fitted(label', u, t.nodes[parent].localDevpath), parent), |t.nodes|)
  {
  }

  /** The turn of a chassis that becomes a node below `parent`. */
  lemma ChassisTurn(s: Service, st: State, u: Uri, label': string, parts: seq<Uri>, parent: nat)
    requires FollowsContains(s) && u in s.graph && s.graph[u] == Chassis(label', parts) && parent < |st.topo.nodes|
    requires st.queue != [] && ParentsExist(st.topo, st.queue) && st.queue[0] == Item(Some(parent), To(u))
    ensures var (q, v) := Expand(s, u, |st.topo.nodes|, st.queue[1..], st.visited);
      Step(s, st) == State(AddChild(st.topo, u, Fitted(label', u, st.topo.nodes[parent].localDevpath), parent), q, v,
                           st.dequeued + [u], st.passed + Marks(s, u, st.visited))
  {
    ChassisPlaces(st.topo, u, label', parts, parent);
    PlacedStep(s, st);
    assert st.queue[1..] + GoogleRootItems(s, Some(parent), |st.topo.nodes|) == st.queue[1..];
  }

  function LoopedService(): Service {
    Service(map["/c" := Chassis("A", ["/c"])], FOLLOW_CONTAINS, map[], To("/c"), false, Null)
  }

  function AfterRoot(): State {
    State(AddNode(EMPTY, "/c", RootNode("/c", Chassis("A", ["/c"]))), [Item(Some(0), To("/c"))], {"/c"}, ["/c"], {})
  }

  function AfterLink(): State {
    State(AddChild(AfterRoot().topo, "/c", Fitted("A", "/c", ROOT_DEVPATH), 0), [], {"/c"}, ["/c"] + ["/c"], {})
  }

  lemma FirstTurn()
    ensures Step(LoopedService(), Start(LoopedService())) == AfterRoot()
  {
    var s := LoopedService();
    ChassisExpansion(s, "/c", "A", "/c", 0, [], {});
    assert Start(s).queue[1..] == [] && [] + GoogleRootItems(s, None, 0) == [] && [] + ["/c"] == ["/c"];
    assert [] + [Item(Some(0), To("/c"))] == [Item(Some(0), To("/c"))];
  }

  lemma RootPlaced()
    ensures var t := AfterRoot().topo; |t.nodes| == 1 && t.nodes[0].localDevpath == ROOT_DEVPATH
    ensures AfterRoot().queue[1..] == []
  {
  }

  lemma SecondTurn()
    ensures Step(LoopedService(), AfterRoot()) == AfterLink()
  {
    RootPlaced();
    ChassisExpansion(LoopedService(), "/c", "A", "/c", 1, [], {"/c"});
    ChassisTurn(LoopedService(), AfterRoot(), "/c", "A", ["/c"], 0);
  }

  /** The seeds are never marked visited, so a root chassis with a link back to itself is placed
      twice, and the devpath of its second node leads to /phys instead of back. */
  lemma LinkBackToRootBreaksRoundTrip()
    ensures "/phys/A" in Build(LoopedService()).topo.devpathToNode
    ensures !RoundTrips(Build(LoopedService()).topo, "/phys/A")
  {
    var s := LoopedService();
    FirstTurn();
    SecondTurn();
    StepKeepsRooted(s, Start(s));
    StepKeepsRooted(s, AfterRoot());
    assert Build(s) == Run(s, AfterRoot()) == Run(s, AfterLink()) == AfterLink();
    SecondNodeListsRoot();
    RoundTripExactly(s, "/phys/A");
  }

  lemma SecondNodeListsRoot()
    ensures "/phys/A" in AfterLink().topo.devpathToNode
    ensures GetFirstUriForDevpath(AfterLink().topo, "/phys/A") == Ok("/c")
  {
    assert ROOT_DEVPATH + "/" + "A" == "/phys/A";
  }

  /** A root chassis with a board on which the Google service root, itself a located part, shows up
      once more. */
  function GoogleService(): Service {
    Service(map["/c" := Chassis("C", ["/b"]), "/b" := Chassis("B", ["/g"]), "/g" := Chassis("G", [])],
            FOLLOW_CONTAINS, map[], To("/c"), true, To("/g"))
  }

  function Turn1(): State {
    State(AddNode(EMPTY, "/c", RootNode("/c", Chassis("C", ["/b"]))),
          [Item(Some(0), To("/g")), Item(Some(0), To("/b"))], {"/b"}, ["/c"], {})
  }

  function Turn2(): State {
    State(AddChild(Turn1().topo, "/g", Fitted("G", "/g", ROOT_DEVPATH), 0), [Item(Some(0), To("/b"))], {"/b"},
          ["/c"] + ["/g"], {})
  }

  function Turn3(): State {
    State(AddChild(Turn2().topo, "/b", Fitted("B", "/b", ROOT_DEVPATH), 0), [Item(Some(2), To("/g"))], {"/b", "/g"},
          ["/c"] + ["/g"] + ["/b"], {})
  }

  function Turn4(): State {
    State(AddChild(Turn3().topo, "/g", Fitted("G", "/g", ROOT_DEVPATH + "/" + "B"), 2), [], {"/b", "/g"},
          ["/c"] + ["/g"] + ["/b"] + ["/g"], {})
  }

  lemma GoogleTurn1()
    ensures Step(GoogleService(), Start(GoogleService())) == Turn1()
  {
    var s := GoogleService();
    var google := Item(Some(0), To("/g"));
    ChassisExpansion(s, "/c", "C", "/b", 0, [google], {});
    assert Start(s).queue[1..] == [] && [] + GoogleRootItems(s, None, 0) == [google] && [] + ["/c"] == ["/c"];
    assert [google] + [Item(Some(0), To("/b"))] == [google, Item(Some(0), To("/b"))];
  }

  lemma GoogleTurn2()
    ensures Step(GoogleService(), Turn1()) == Turn2()
  {
    EmptyChassisExpansion(GoogleService(), "/g", "G", 1, Turn1().queue[1..], Turn1().visited);
    ChassisTurn(GoogleService(), Turn1(), "/g", "G", [], 0);
    assert Turn1().queue[1..] == Turn2().queue;
  }

  lemma GoogleTurn3()
    ensures Step(GoogleService(), Turn2()) == Turn3()
  {
    ChassisExpansion(GoogleService(), "/b", "B", "/g", 2, Turn2().queue[1..], Turn2().visited);
    ChassisTurn(GoogleService(), Turn2(), "/b", "B", ["/g"], 0);
    assert Turn2().queue[1..] == [] && [] + Turn3().queue == Turn3().queue;
  }

  lemma GoogleTurn4()
    ensures Step(GoogleService(), Turn3()) == Turn4()
  {
    EmptyChassisExpansion(GoogleService(), "/g", "G", 3, Turn3().queue[1..], Turn3().visited);
    ChassisTurn(GoogleService(), Turn3(), "/g", "G", [], 2);
    assert Turn3().queue[1..] == [];
  }

  lemma GoogleBuild()
    ensures Build(GoogleService()) == Turn4()
  {
    var s := GoogleService();
    GoogleTurn1();
    GoogleTurn2();
    GoogleTurn3();
    GoogleTurn4();
    StepKeepsRooted(s, Start(s));
    StepKeepsRooted(s, Turn1());
    StepKeepsRooted(s, Turn2());
    StepKeepsRooted(s, Turn3());
    assert Run(s, Start(s)) == Run(s, Turn1()) == Run(s, Turn2());
    assert Run(s, Turn2()) == Run(s, Turn3()) == Run(s, Turn4()) == Turn4();
  }

  lemma LastNodeListsGoogleRoot()
    ensures "/phys/B/G" in Turn4().topo.devpathToNode
    ensures GetFirstUriForDevpath(Turn4().topo, "/phys/B/G") == Ok("/g")
    ensures SeedDevpath(GoogleService(), "/g") == Some("/phys/G")
  {
    assert ROOT_DEVPATH + "/" + "B" + "/" + "G" == "/phys/B/G" && "/phys/" + "G" == "/phys/G";
  }

  /** A Google service root linked again from a board leads to its first place, so the devpath of its
      second one is lost. */
  lemma LinkBackToGoogleRootBreaksRoundTrip()
    ensures "/phys/B/G" in Build(GoogleService()).topo.devpathToNode
    ensures !RoundTrips(Build(GoogleService()).topo, "/phys/B/G")
  {
    GoogleBuild();
    LastNodeListsGoogleRoot();
    RoundTripExactly(GoogleService(), "/phys/B/G");
  }
}
