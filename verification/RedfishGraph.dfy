/** A Redfish service as a finite graph of resources that always reads the same, the topology
    configuration that says which links lead downstream, and FindAllDownstreamsUris of
    ecclesia/lib/redfish/topology_v2.cc. */
module RedfishGraph {
  import opened Wrappers

  type Uri = string

  /** An object reached through a property: a null pointer, an object without @odata.id, or the
      resource of that URI. */
  datatype Ref = Null | Unnamed | To(uri: Uri)

  /** What reading a property yields: one object, an array, or a resource collection, which is an
      object of its own with an array of members. */
  datatype Property = Single(ref: Ref) | Array(refs: seq<Ref>) | Collection(ref: Ref, members: seq<Ref>)

  datatype Resource = Resource(
    kind: Option<string>,                 // resource type, when @odata.type gives one
    attributes: map<string, Property>,    // first class attributes
    links: map<string, Property>,         // under "Links"
    hasPartLocation: bool,
    absent: bool,                         // Status.State is "Absent"
    locationType: Option<string>,
    serviceLabel: Option<string>,
    name: Option<string>,                 // already converted
    model: Option<string>,
    canReplace: Option<bool>,             // Replaceable
    oemCanReplace: Option<bool>
  )

  datatype ResourceConfig = ResourceConfig(
    arrayAttributes: seq<string>,
    collectionAttributes: seq<string>,
    singularAttributes: seq<string>,
    singularLinks: seq<string>,
    arrayLinks: seq<string>,
    skipArrayLinks: seq<string>
  )

  /** What was read at each name of each class, class by class. */
  datatype Findings = Findings(
    arrays: seq<seq<Ref>>,
    collections: seq<seq<Ref>>,
    singulars: seq<seq<Ref>>,
    singularLinks: seq<seq<Ref>>,
    arrayLinks: seq<seq<Ref>>,
    skipLinks: seq<seq<Ref>>
  )

  const EMPTY_CONFIG := ResourceConfig([], [], [], [], [], [])

  datatype Service = Service(
    graph: map<Uri, Resource>,
    configs: map<string, ResourceConfig>,
    cables: map<Uri, seq<Uri>>,           // upstream URI to the cables attached to it
    root: Ref,                            // the root chassis
    useGoogleRoot: bool,
    googleRoot: Ref
  ) {
    /** The object behind a reference; a URI nothing answers gives a null object. */
    function Resolve(ref: Ref): Ref { if ref.To? && ref.uri !in graph then Null else ref }

    /** A reference to a named resource that exists. */
    predicate Named(ref: Ref) { ref.To? && ref.uri in graph }

    function ConfigFor(kind: string): ResourceConfig {
      if kind in configs then configs[kind] else EMPTY_CONFIG
    }

    /** The objects found when iterating over one property: an array or the members of a collection. */
    function Each(props: map<string, Property>, name: string): seq<Ref> {
      if name !in props || props[name].Single? then []
      else if props[name].Array? then props[name].refs
      else props[name].members
    }

    /** The objects under "Members" of one property. */
    function Members(props: map<string, Property>, name: string): seq<Ref> {
      if name in props && props[name].Collection? then props[name].members else []
    }

    /** The object at one property, a collection included; an array is none. */
    function AsObject(props: map<string, Property>, name: string): seq<Ref> {
      if name in props && !props[name].Array? && Resolve(props[name].ref) != Null then [props[name].ref] else []
    }

    function EachOf(props: map<string, Property>, names: seq<string>): seq<Ref> {
      if names == [] then [] else EachOf(props, names[..|names| - 1]) + Each(props, names[|names| - 1])
    }
    function MembersOf(props: map<string, Property>, names: seq<string>): seq<Ref> {
      if names == [] then [] else MembersOf(props, names[..|names| - 1]) + Members(props, names[|names| - 1])
    }
    function ObjectsOf(props: map<string, Property>, names: seq<string>): seq<Ref> {
      if names == [] then [] else ObjectsOf(props, names[..|names| - 1]) + AsObject(props, names[|names| - 1])
    }

    /** The objects a resource leads to directly, in the order the search appends them. */
    function Direct(r: Resource): seq<Ref> {
      if r.kind.None? then []
      else
        var c := ConfigFor(r.kind.value);
        EachOf(r.attributes, c.arrayAttributes) + MembersOf(r.attributes, c.collectionAttributes)
        + ObjectsOf(r.attributes, c.singularAttributes) + ObjectsOf(r.links, c.singularLinks)
        + EachOf(r.links, c.arrayLinks)
    }

    /** The objects whose own downstream objects are taken instead of themselves. */
    function Skipped(r: Resource): seq<Ref> {
      if r.kind.None? then [] else EachOf(r.links, ConfigFor(r.kind.value).skipArrayLinks)
    }

    // ---- Which objects these are, read off the configuration ----------------------------------------

    /** Iterating over the property meets ref: an element of an array or a member of a collection. */
    predicate Iterates(props: map<string, Property>, name: string, ref: Ref) {
      name in props && match props[name]
        case Single(_) => false
        case Array(refs) => ref in refs
        case Collection(_, members) => ref in members
    }

    predicate HasMember(props: map<string, Property>, name: string, ref: Ref) {
      name in props && props[name].Collection? && ref in props[name].members
    }

    /** The property is ref, an object or a collection that is not null. */
    predicate IsObjectAt(props: map<string, Property>, name: string, ref: Ref) {
      && name in props && (props[name] == Single(ref) || (props[name].Collection? && props[name].ref == ref))
      && ref != Null && (ref.To? ==> ref.uri in graph)
    }

    /** The configuration of the resource's type names a property that leads to ref. */
    ghost predicate LeadsDownstream(r: Resource, ref: Ref) {
      && r.kind.Some? && r.kind.value in configs
      && var c := configs[r.kind.value];
         || (exists a :: a in c.arrayAttributes && Iterates(r.attributes, a, ref))
         || (exists a :: a in c.collectionAttributes && HasMember(r.attributes, a, ref))
         || (exists a :: a in c.singularAttributes && IsObjectAt(r.attributes, a, ref))
         || (exists l :: l in c.singularLinks && IsObjectAt(r.links, l, ref))
         || (exists l :: l in c.arrayLinks && Iterates(r.links, l, ref))
    }

    /** A link of the resource is to be skipped, with ref behind it. */
    ghost predicate LeadsThrough(r: Resource, ref: Ref) {
      && r.kind.Some? && r.kind.value in configs
      && exists l :: l in configs[r.kind.value].skipArrayLinks && Iterates(r.links, l, ref)
    }

    lemma {:induction false} EachOfMeaning(props: map<string, Property>, names: seq<string>, ref: Ref)
      ensures ref in EachOf(props, names) <==> exists name :: name in names && Iterates(props, name, ref)
    {
      if names != [] {
        var front, last := names[..|names| - 1], names[|names| - 1];
        EachOfMeaning(props, front, ref);
        assert forall name :: name in names <==> name in front || name == last;
        assert Iterates(props, last, ref) <==> ref in Each(props, last);
      }
    }

    lemma {:induction false} MembersOfMeaning(props: map<string, Property>, names: seq<string>, ref: Ref)
      ensures ref in MembersOf(props, names) <==> exists name :: name in names && HasMember(props, name, ref)
    {
      if names != [] {
        var front, last := names[..|names| - 1], names[|names| - 1];
        MembersOfMeaning(props, front, ref);
        assert forall name :: name in names <==> name in front || name == last;
        assert HasMember(props, last, ref) <==> ref in Members(props, last);
      }
    }

    lemma {:induction false} ObjectsOfMeaning(props: map<string, Property>, names: seq<string>, ref: Ref)
      ensures ref in ObjectsOf(props, names) <==> exists name :: name in names && IsObjectAt(props, name, ref)
    {
      if names != [] {
        var front, last := names[..|names| - 1], names[|names| - 1];
        ObjectsOfMeaning(props, front, ref);
        assert forall name :: name in names <==> name in front || name == last;
        assert IsObjectAt(props, last, ref) <==> ref in AsObject(props, last);
      }
    }

    lemma DirectMeaning(r: Resource, ref: Ref)
      ensures ref in Direct(r) <==> LeadsDownstream(r, ref)
    {
      if r.kind.Some? {
        var c := ConfigFor(r.kind.value);
        EachOfMeaning(r.attributes, c.arrayAttributes, ref);
        MembersOfMeaning(r.attributes, c.collectionAttributes, ref);
        ObjectsOfMeaning(r.attributes, c.singularAttributes, ref);
        ObjectsOfMeaning(r.links, c.singularLinks, ref);
        EachOfMeaning(r.links, c.arrayLinks, ref);
      }
    }

    lemma SkippedMeaning(r: Resource, ref: Ref)
      ensures ref in Skipped(r) <==> LeadsThrough(r, ref)
    {
      if r.kind.Some? { EachOfMeaning(r.links, ConfigFor(r.kind.value).skipArrayLinks, ref); }
    }

    /** FindAllDownstreamsUris as a function of the visited set it is handed. */
    function Find(r: Resource, visited: set<Uri>): (result: (seq<Ref>, set<Uri>))
      ensures visited <= result.1 <= visited + graph.Keys
      decreases graph.Keys - visited, 1, 0
    {
      if r.kind.None? then ([], visited)
      else
        var (objs, visited') := FindThrough(Skipped(r), visited);
        (Direct(r) + objs, visited')
    }

    /** The search through a list of skipped objects, each visited at most once. */
    function FindThrough(refs: seq<Ref>, visited: set<Uri>): (result: (seq<Ref>, set<Uri>))
      ensures visited <= result.1 <= visited + graph.Keys
      decreases graph.Keys - visited, 0, |refs|
    {
      if refs == [] then ([], visited)
      else if !Named(refs[0]) || refs[0].uri in visited then FindThrough(refs[1..], visited)
      else
        var (objs, v1) := Find(graph[refs[0].uri], visited + {refs[0].uri});
        assert graph.Keys - v1 < graph.Keys - visited;
        var (rest, v2) := FindThrough(refs[1..], v1);
        (objs + rest, v2)
    }

    lemma FindThroughFirst(refs: seq<Ref>, visited: set<Uri>, before: seq<Ref>)
      requires refs != [] && Named(refs[0]) && refs[0].uri !in visited
      ensures var (objs, marked) := Find(graph[refs[0].uri], visited + {refs[0].uri});
        var rest := FindThrough(refs[1..], marked);
        && before + FindThrough(refs, visited).0 == before + objs + rest.0
        && FindThrough(refs, visited).1 == rest.1
    {
      var (objs, marked) := Find(graph[refs[0].uri], visited + {refs[0].uri});
      assert before + (objs + FindThrough(refs[1..], marked).0) == before + objs + FindThrough(refs[1..], marked).0;
    }

    /** A walk along skip links that starts at one of refs and avoids `visited`. */
    ghost predicate SkipPath(refs: seq<Ref>, visited: set<Uri>, path: seq<Uri>)
      decreases |path|
    {
      && path != [] && To(path[0]) in refs && path[0] in graph && path[0] !in visited
      && (|path| > 1 ==> SkipPath(Skipped(graph[path[0]]), visited, path[1..]))
    }

    ghost predicate Reaches(refs: seq<Ref>, visited: set<Uri>, u: Uri) {
      exists path :: SkipPath(refs, visited, path) && path[|path| - 1] == u
    }

    /** Everything the search marks has its skip links marked as well. */
    lemma {:induction false} FindThroughClosed(refs: seq<Ref>, visited: set<Uri>)
      ensures forall ref :: ref in refs && Named(ref) ==> ref.uri in FindThrough(refs, visited).1
      ensures Closed(visited, FindThrough(refs, visited).1)
      decreases graph.Keys - visited, |refs|
    {
      if refs == [] {
      } else if !Named(refs[0]) || refs[0].uri in visited {
        FindThroughClosed(refs[1..], visited);
      } else {
        var u := refs[0].uri;
        var v1 := Find(graph[u], visited + {u}).1;
        FindThroughClosed(Skipped(graph[u]), visited + {u});
        FindThroughClosed(refs[1..], v1);
      }
    }

    /** Every resource newly marked leads by skip links only to marked resources. */
    ghost predicate Closed(before: set<Uri>, after: set<Uri>) {
      forall u, ref :: u in after - before && u in graph && ref in Skipped(graph[u]) && Named(ref) ==> ref.uri in after
    }

    lemma {:induction false} PathStaysInside(refs: seq<Ref>, before: set<Uri>, after: set<Uri>, path: seq<Uri>)
      requires SkipPath(refs, before, path)
      requires forall ref :: ref in refs && Named(ref) ==> ref.uri in after
      requires Closed(before, after)
      ensures path[|path| - 1] in after
      decreases |path|
    {
      assert Named(To(path[0]));
      if |path| > 1 {
        PathStaysInside(Skipped(graph[path[0]]), before, after, path[1..]);
      }
    }

    lemma {:induction false} SkipPathMonotone(refs: seq<Ref>, more: seq<Ref>, visited: set<Uri>, fewer: set<Uri>,
                                              path: seq<Uri>)
      requires SkipPath(refs, visited, path) && fewer <= visited
      requires forall ref :: ref in refs ==> ref in more
      ensures SkipPath(more, fewer, path)
      decreases |path|
    {
      if |path| > 1 {
        SkipPathMonotone(Skipped(graph[path[0]]), Skipped(graph[path[0]]), visited, fewer, path[1..]);
      }
    }

    lemma {:induction false} MarkedIsReached(refs: seq<Ref>, visited: set<Uri>, u: Uri)
      requires u in FindThrough(refs, visited).1 - visited
      ensures Reaches(refs, visited, u)
      decreases graph.Keys - visited, |refs|
    {
      if !Named(refs[0]) || refs[0].uri in visited {
        MarkedIsReached(refs[1..], visited, u);
        var path :| SkipPath(refs[1..], visited, path) && path[|path| - 1] == u;
        SkipPathMonotone(refs[1..], refs, visited, visited, path);
      } else {
        var head := refs[0].uri;
        var v1 := Find(graph[head], visited + {head}).1;
        if u == head {
          assert SkipPath(refs, visited, [head]);
        } else if u in v1 {
          MarkedIsReached(Skipped(graph[head]), visited + {head}, u);
          var path :| SkipPath(Skipped(graph[head]), visited + {head}, path) && path[|path| - 1] == u;
          SkipPathMonotone(Skipped(graph[head]), Skipped(graph[head]), visited + {head}, visited, path);
          assert ([head] + path)[1..] == path;
          assert SkipPath(refs, visited, [head] + path);
        } else {
          MarkedIsReached(refs[1..], v1, u);
          var path :| SkipPath(refs[1..], v1, path) && path[|path| - 1] == u;
          SkipPathMonotone(refs[1..], refs, v1, visited, path);
        }
      }
    }

    /** A walk along skip links that starts at r and avoids `visited`. */
    ghost predicate SkipWalk(r: Resource, visited: set<Uri>, path: seq<Uri>)
      decreases |path|
    {
      && path != [] && LeadsThrough(r, To(path[0])) && path[0] in graph && path[0] !in visited
      && (|path| > 1 ==> SkipWalk(graph[path[0]], visited, path[1..]))
    }

    lemma {:induction false} SkipWalkIsPath(r: Resource, visited: set<Uri>, path: seq<Uri>)
      ensures SkipWalk(r, visited, path) <==> SkipPath(Skipped(r), visited, path)
      decreases |path|
    {
      if path != [] {
        SkippedMeaning(r, To(path[0]));
        if |path| > 1 && path[0] in graph { SkipWalkIsPath(graph[path[0]], visited, path[1..]); }
      }
    }

    /** Depth-first search with one shared visited set misses nothing: it marks exactly the URIs
        that some walk along skip links reaches without touching a URI marked before the call. */
    lemma FindMarksWhatIsReachable(r: Resource, visited: set<Uri>, u: Uri)
      ensures u in Find(r, visited).1 <==>
        u in visited || exists path :: SkipWalk(r, visited, path) && path[|path| - 1] == u
    {
      FindThroughClosed(Skipped(r), visited);
      var after := FindThrough(Skipped(r), visited).1;
      if u in after - visited {
        MarkedIsReached(Skipped(r), visited, u);
        var path :| SkipPath(Skipped(r), visited, path) && path[|path| - 1] == u;
        SkipWalkIsPath(r, visited, path);
      }
      if path :| SkipWalk(r, visited, path) && path[|path| - 1] == u {
        SkipWalkIsPath(r, visited, path);
        PathStaysInside(Skipped(r), visited, after, path);
      }
    }

    /** Each newly marked resource is skipped to from the list or from another newly marked one. */
    lemma {:induction false} MarkedIsSkippedTo(refs: seq<Ref>, visited: set<Uri>, u: Uri)
      requires u in FindThrough(refs, visited).1 - visited
      ensures To(u) in refs
        || exists v :: v in FindThrough(refs, visited).1 - visited && v in graph && To(u) in Skipped(graph[v])
      decreases graph.Keys - visited, |refs|
    {
      if !Named(refs[0]) || refs[0].uri in visited {
        MarkedIsSkippedTo(refs[1..], visited, u);
      } else {
        var head := refs[0].uri;
        var v1 := Find(graph[head], visited + {head}).1;
        assert head in FindThrough(refs, visited).1 - visited;
        if u == head {
        } else if u in v1 {
          MarkedIsSkippedTo(Skipped(graph[head]), visited + {head}, u);
        } else {
          MarkedIsSkippedTo(refs[1..], v1, u);
        }
      }
    }

    lemma {:induction false} FindThroughObjects(refs: seq<Ref>, visited: set<Uri>, ref: Ref)
      ensures ref in FindThrough(refs, visited).0 <==>
        exists u :: u in FindThrough(refs, visited).1 - visited && u in graph && ref in Direct(graph[u])
      decreases graph.Keys - visited, |refs|
    {
      if refs == [] {
      } else if !Named(refs[0]) || refs[0].uri in visited {
        FindThroughObjects(refs[1..], visited, ref);
      } else {
        var head := refs[0].uri;
        var v1 := Find(graph[head], visited + {head}).1;
        FindThroughObjects(Skipped(graph[head]), visited + {head}, ref);
        FindThroughObjects(refs[1..], v1, ref);
        assert head in FindThrough(refs, visited).1 - visited;
      }
    }

    /** The objects returned are those that a configured property of the resource itself, or of a
        skipped resource the call marked, leads to. */
    lemma FindReturnsDirectObjects(r: Resource, visited: set<Uri>, ref: Ref)
      ensures ref in Find(r, visited).0 <==>
        || LeadsDownstream(r, ref)
        || exists u :: u in Find(r, visited).1 - visited && u in graph && LeadsDownstream(graph[u], ref)
    {
      FindThroughObjects(Skipped(r), visited, ref);
      DirectMeaning(r, ref);
      forall u | u in graph ensures ref in Direct(graph[u]) <==> LeadsDownstream(graph[u], ref) {
        DirectMeaning(graph[u], ref);
      }
    }

    // ---- In which order ----------------------------------------------------------------------------

    /** list is what iterating over the property meets, in order. */
    predicate IsIteration(props: map<string, Property>, name: string, list: seq<Ref>) {
      if name !in props then list == []
      else match props[name]
        case Single(_) => list == []
        case Array(refs) => list == refs
        case Collection(_, members) => list == members
    }

    predicate IsMemberList(props: map<string, Property>, name: string, list: seq<Ref>) {
      list == if name in props && props[name].Collection? then props[name].members else []
    }

    ghost predicate IsObjectList(props: map<string, Property>, name: string, list: seq<Ref>) {
      |list| <= 1 && forall ref :: ref in list <==> IsObjectAt(props, name, ref)
    }

    ghost predicate Iterations(props: map<string, Property>, names: seq<string>, lists: seq<seq<Ref>>) {
      |lists| == |names| && forall i :: 0 <= i < |names| ==> IsIteration(props, names[i], lists[i])
    }

    ghost predicate MemberLists(props: map<string, Property>, names: seq<string>, lists: seq<seq<Ref>>) {
      |lists| == |names| && forall i :: 0 <= i < |names| ==> IsMemberList(props, names[i], lists[i])
    }

    ghost predicate ObjectLists(props: map<string, Property>, names: seq<string>, lists: seq<seq<Ref>>) {
      |lists| == |names| && forall i :: 0 <= i < |names| ==> IsObjectList(props, names[i], lists[i])
    }

    lemma {:induction false} EachInOrder(props: map<string, Property>, names: seq<string>)
      returns (lists: seq<seq<Ref>>)
      ensures Iterations(props, names, lists) && EachOf(props, names) == Flatten(lists)
    {
      lists := [];
      if names != [] {
        var front := EachInOrder(props, names[..|names| - 1]);
        lists := front + [Each(props, names[|names| - 1])];
      }
    }

    lemma {:induction false} MembersInOrder(props: map<string, Property>, names: seq<string>)
      returns (lists: seq<seq<Ref>>)
      ensures MemberLists(props, names, lists) && MembersOf(props, names) == Flatten(lists)
    {
      lists := [];
      if names != [] {
        var front := MembersInOrder(props, names[..|names| - 1]);
        lists := front + [Members(props, names[|names| - 1])];
      }
    }

    lemma {:induction false} ObjectsInOrder(props: map<string, Property>, names: seq<string>)
      returns (lists: seq<seq<Ref>>)
      ensures ObjectLists(props, names, lists) && ObjectsOf(props, names) == Flatten(lists)
    {
      lists := [];
      if names != [] {
        var front := ObjectsInOrder(props, names[..|names| - 1]);
        lists := front + [AsObject(props, names[|names| - 1])];
      }
    }

    ghost predicate ReadInOrder(r: Resource, conf: ResourceConfig, found: Findings) {
      && Iterations(r.attributes, conf.arrayAttributes, found.arrays)
      && MemberLists(r.attributes, conf.collectionAttributes, found.collections)
      && ObjectLists(r.attributes, conf.singularAttributes, found.singulars)
      && ObjectLists(r.links, conf.singularLinks, found.singularLinks)
      && Iterations(r.links, conf.arrayLinks, found.arrayLinks)
      && Iterations(r.links, conf.skipArrayLinks, found.skipLinks)
    }

    /** The objects come class by class, in the order of the configured names and of the properties:
        array attributes, collections, singular attributes, singular links, array links; and then
        those behind the skip links. */
    lemma FindInOrder(r: Resource, visited: set<Uri>) returns (found: Findings)
      requires r.kind.Some? && r.kind.value in configs
      ensures ReadInOrder(r, configs[r.kind.value], found)
      ensures Find(r, visited).0
        == Flatten(found.arrays) + Flatten(found.collections) + Flatten(found.singulars)
           + Flatten(found.singularLinks) + Flatten(found.arrayLinks)
           + FindThrough(Flatten(found.skipLinks), visited).0
    {
      var conf := configs[r.kind.value];
      var arrays := EachInOrder(r.attributes, conf.arrayAttributes);
      var collections := MembersInOrder(r.attributes, conf.collectionAttributes);
      var singulars := ObjectsInOrder(r.attributes, conf.singularAttributes);
      var singularLinks := ObjectsInOrder(r.links, conf.singularLinks);
      var arrayLinks := EachInOrder(r.links, conf.arrayLinks);
      var skipLinks := EachInOrder(r.links, conf.skipArrayLinks);
      found := Findings(arrays, collections, singulars, singularLinks, arrayLinks, skipLinks);
    }

    /** What lies behind earlier skip links comes before what lies behind later ones, and each resource
        is searched through only once. */
    lemma {:induction false} FindThroughSplits(front: seq<Ref>, back: seq<Ref>, visited: set<Uri>)
      ensures var (objs, v) := FindThrough(front, visited);
        var (more, v') := FindThrough(back, v);
        FindThrough(front + back, visited) == (objs + more, v')
      decreases graph.Keys - visited, |front|
    {
      if front == [] {
        var more := FindThrough(back, visited).0;
        assert front + back == back && [] + more == more;
      } else {
        assert (front + back)[1..] == front[1..] + back;
        if !Named(front[0]) || front[0].uri in visited {
          FindThroughSplits(front[1..], back, visited);
        } else {
          var (objs0, v1) := Find(graph[front[0].uri], visited + {front[0].uri});
          FindThroughSplits(front[1..], back, v1);
          var (objs1, v2) := FindThrough(front[1..], v1);
          var more := FindThrough(back, v2).0;
          assert objs0 + (objs1 + more) == (objs0 + objs1) + more;
        }
      }
    }
  }

  /** What the configured attributes and links lead to at once. */
  method DirectObjects(s: Service, obj: Resource) returns (objs: seq<Ref>)
    requires obj.kind.Some?
    ensures objs == s.Direct(obj)
  {
    var config := s.ConfigFor(obj.kind.value);
    objs := AppendEach(s, obj.attributes, config.arrayAttributes);
    var more := AppendMembers(s, obj.attributes, config.collectionAttributes);
    objs := objs + more;
    more := AppendObjects(s, obj.attributes, config.singularAttributes);
    objs := objs + more;
    more := AppendObjects(s, obj.links, config.singularLinks);
    objs := objs + more;
    more := AppendEach(s, obj.links, config.arrayLinks);
    objs := objs + more;
  }

  method AppendEach(s: Service, props: map<string, Property>, names: seq<string>) returns (objs: seq<Ref>)
    ensures objs == s.EachOf(props, names)
  {
    objs := [];
    for i := 0 to |names|
      invariant objs == s.EachOf(props, names[..i])
    {
      assert names[..i + 1][..i] == names[..i];
      objs := objs + s.Each(props, names[i]);
    }
    assert names[..|names|] == names;
  }

  method AppendMembers(s: Service, props: map<string, Property>, names: seq<string>) returns (objs: seq<Ref>)
    ensures objs == s.MembersOf(props, names)
  {
    objs := [];
    for i := 0 to |names|
      invariant objs == s.MembersOf(props, names[..i])
    {
      assert names[..i + 1][..i] == names[..i];
      objs := objs + s.Members(props, names[i]);
    }
    assert names[..|names|] == names;
  }

  method AppendObjects(s: Service, props: map<string, Property>, names: seq<string>) returns (objs: seq<Ref>)
    ensures objs == s.ObjectsOf(props, names)
  {
    objs := [];
    for i := 0 to |names|
      invariant objs == s.ObjectsOf(props, names[..i])
    {
      assert names[..i + 1][..i] == names[..i];
      objs := objs + s.AsObject(props, names[i]);
    }
    assert names[..|names|] == names;
  }

  /** FindAllDownstreamsUris: `marked` is the visited set after the call. */
  method FindAllDownstreamsUris(s: Service, obj: Resource, visited: set<Uri>) returns (objs: seq<Ref>, marked: set<Uri>)
    ensures (objs, marked) == s.Find(obj, visited)
    decreases s.graph.Keys - visited
  {
    objs, marked := [], visited;
    if obj.kind.None? {
      return;
    }
    objs := DirectObjects(s, obj);
    var skipped := AppendEach(s, obj.links, s.ConfigFor(obj.kind.value).skipArrayLinks);
    assert skipped == s.Skipped(obj);
    ghost var direct, found := objs, s.FindThrough(skipped, visited);
    var i := 0;
    assert skipped[0..] == skipped;
    while i < |skipped|
      invariant 0 <= i <= |skipped| && visited <= marked
      invariant var rest := s.FindThrough(skipped[i..], marked);
        found.1 == rest.1 && direct + found.0 == objs + rest.0
    {
      var json := skipped[i];
      assert skipped[i..][1..] == skipped[i + 1..];
      if !s.Named(json) || json.uri in marked {
        i := i + 1;
        continue;
      }
      s.FindThroughFirst(skipped[i..], marked, objs);
      marked := marked + {json.uri};
      var below;
      below, marked := FindAllDownstreamsUris(s, s.graph[json.uri], marked);
      objs := objs + below;
      i := i + 1;
    }
    assert skipped[i..] == [] && objs + [] == objs;
  }
}
