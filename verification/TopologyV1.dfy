/** GenerateDevpaths of ecclesia/lib/redfish/topology.cc: passes over the list of assemblies until
    nothing changes, giving a devpath to each assembly whose upstream component already has one. */
module TopologyV1 {
  import opened Wrappers

  datatype ComponentType = Board | Cable | Connector | Device

  datatype Component = Component(
    name: string, odataId: string, kind: ComponentType, localDevpath: string, upstreamSequence: string)

  datatype Assembly = Assembly(name: string, components: seq<Component>, upstreamOdataIds: seq<string>)

  const DEVPATH_ROOT := "/phys"

  // ---- What the paths should be -------------------------------------------------------------------

  /** Assembly i hangs on component j of assembly p. */
  predicate HangsOn(assemblies: seq<Assembly>, i: nat, p: nat, j: nat) {
    && i < |assemblies| && IsComponent(assemblies, p, j)
    && assemblies[i].upstreamOdataIds != []
    && assemblies[p].components[j].odataId == assemblies[i].upstreamOdataIds[0]
  }

  predicate IsRoot(assemblies: seq<Assembly>, i: nat) {
    i < |assemblies| && assemblies[i].upstreamOdataIds == []
  }

  /** The connector sequence of assembly i read along its chain of n attachments up to a root. */
  ghost predicate HasPath(assemblies: seq<Assembly>, i: nat, path: string, n: nat)
    decreases n
  {
    if n == 0 then IsRoot(assemblies, i) && path == "/phys"
    else exists p, j, above :: ExtendsPath(assemblies, i, p, j, above, path) && HasPath(assemblies, p, above, n - 1)
  }

  ghost predicate Derives(assemblies: seq<Assembly>, i: nat, path: string) {
    exists n: nat :: HasPath(assemblies, i, path, n)
  }

  predicate ExtendsPath(assemblies: seq<Assembly>, i: nat, p: nat, j: nat, above: string, path: string) {
    HangsOn(assemblies, i, p, j) && path == above + "/" + assemblies[p].components[j].name
  }

  predicate IsComponent(assemblies: seq<Assembly>, p: nat, j: nat) {
    p < |assemblies| && j < |assemblies[p].components|
  }

  /** No two components share an @odata.id. */
  ghost predicate UniqueIds(assemblies: seq<Assembly>) {
    forall p: nat, j: nat, p': nat, j': nat ::
      (IsComponent(assemblies, p, j) && IsComponent(assemblies, p', j')
       && assemblies[p].components[j].odataId == assemblies[p'].components[j'].odataId)
      ==> p == p' && j == j'
  }

  /** The lists agree but for upstream ids behind the first one. */
  ghost predicate SameFirstIds(a: seq<Assembly>, b: seq<Assembly>) {
    && |a| == |b|
    && forall i :: 0 <= i < |a| ==>
         && a[i].components == b[i].components
         && (a[i].upstreamOdataIds == [] <==> b[i].upstreamOdataIds == [])
         && (a[i].upstreamOdataIds != [] && b[i].upstreamOdataIds != [] ==>
               a[i].upstreamOdataIds[0] == b[i].upstreamOdataIds[0])
  }

  /** Only the first upstream id of an assembly counts. */
  lemma {:induction false} OnlyFirstIdCounts(a: seq<Assembly>, b: seq<Assembly>, i: nat, path: string, n: nat)
    requires SameFirstIds(a, b) && HasPath(a, i, path, n)
    ensures HasPath(b, i, path, n)
    decreases n
  {
    if n == 0 {
      assert IsRoot(b, i);
    } else {
      var p: nat, j: nat, above :| ExtendsPath(a, i, p, j, above, path) && HasPath(a, p, above, n - 1);
      OnlyFirstIdCounts(a, b, p, above, n - 1);
      assert ExtendsPath(b, i, p, j, above, path);
    }
  }

  /** With unique ids there is at most one path to read. */
  lemma {:induction false} PathIsUnique(assemblies: seq<Assembly>, i: nat, path: string, n: nat, path': string, n': nat)
    requires UniqueIds(assemblies) && HasPath(assemblies, i, path, n) && HasPath(assemblies, i, path', n')
    ensures path == path' && n == n'
    decreases n
  {
    if n > 0 && n' > 0 {
      var p, j, above :| ExtendsPath(assemblies, i, p, j, above, path) && HasPath(assemblies, p, above, n - 1);
      var p', j', above' :| ExtendsPath(assemblies, i, p', j', above', path')
        && HasPath(assemblies, p', above', n' - 1);
      PathIsUnique(assemblies, p, above, n - 1, above', n' - 1);
    }
  }

  /** The list positions 0 .. n - 1. */
  function Below(n: nat): (S: set<nat>)
    ensures forall i: nat :: i in S <==> i < n
    ensures |S| == n
  {
    if n == 0 then {} else Below(n - 1) + {n - 1}
  }

  // ---- Which assemblies get one ---------------------------------------------------------------------

  /** S contains every root, and every assembly whose upstream id is a component of a member. */
  ghost predicate Closed(assemblies: seq<Assembly>, S: set<nat>) {
    && (forall i: nat :: IsRoot(assemblies, i) ==> i in S)
    && (forall i: nat, p: nat, j: nat :: HangsOn(assemblies, i, p, j) && p in S ==> i in S)
  }

  ghost predicate IsLeastClosed(assemblies: seq<Assembly>, S: set<nat>) {
    && (forall i :: i in S ==> i < |assemblies|)
    && Closed(assemblies, S)
    && forall T: set<nat> :: Closed(assemblies, T) ==> S <= T
  }

  lemma {:induction false} HasPathInside(assemblies: seq<Assembly>, S: set<nat>, i: nat, path: string, n: nat)
    requires Closed(assemblies, S) && HasPath(assemblies, i, path, n)
    ensures i in S
    decreases n
  {
    if n > 0 {
      var p, j, above :| ExtendsPath(assemblies, i, p, j, above, path) && HasPath(assemblies, p, above, n - 1);
      HasPathInside(assemblies, S, p, above, n - 1);
    }
  }

  /** Exactly the members of the least closed set have a path. */
  lemma MembersHavePaths(assemblies: seq<Assembly>, S: set<nat>, i: nat)
    requires IsLeastClosed(assemblies, S)
    ensures i in S <==> exists path :: Derives(assemblies, i, path)
  {
    var placed := set k | k in S && exists path :: Derives(assemblies, k, path);
    forall k: nat | IsRoot(assemblies, k) ensures k in placed {
      assert HasPath(assemblies, k, DEVPATH_ROOT, 0);
      assert Derives(assemblies, k, DEVPATH_ROOT);
    }
    forall k: nat, p: nat, j: nat | HangsOn(assemblies, k, p, j) && p in placed ensures k in placed {
      var above :| Derives(assemblies, p, above);
      PathThrough(assemblies, k, p, j, above, above + "/" + assemblies[p].components[j].name);
    }
    assert Closed(assemblies, placed);
    if path :| Derives(assemblies, i, path) {
      var n: nat :| HasPath(assemblies, i, path, n);
      HasPathInside(assemblies, S, i, path, n);
    }
  }

  /** A set of assemblies with no root whose every attachment stays in the set: an attachment cycle
      together with anything hung below it. */
  ghost predicate Rootless(assemblies: seq<Assembly>, C: set<nat>) {
    && (forall i :: i in C ==> !IsRoot(assemblies, i))
    && (forall i: nat, p: nat, j: nat :: i in C && HangsOn(assemblies, i, p, j) ==> p in C)
  }

  lemma RootlessGetNoPath(assemblies: seq<Assembly>, S: set<nat>, C: set<nat>)
    requires IsLeastClosed(assemblies, S) && Rootless(assemblies, C)
    ensures S !! C
    ensures forall i, path, n :: i in C ==> !HasPath(assemblies, i, path, n)
  {
    var all := Below(|assemblies|);
    assert Closed(assemblies, all - C);
    forall i, path, n | i in C ensures !HasPath(assemblies, i, path, n) {
      if HasPath(assemblies, i, path, n) { HasPathInside(assemblies, S, i, path, n); }
    }
  }

  /** And the assemblies left out are themselves such a set, so they are the greatest one. */
  lemma LeftOutIsRootless(assemblies: seq<Assembly>, S: set<nat>)
    requires IsLeastClosed(assemblies, S)
    ensures Rootless(assemblies, Below(|assemblies|) - S)
  {
  }

  /** `list` is `assemblies` in another order: position i holds what was at position at[i]. */
  ghost predicate Reordered(assemblies: seq<Assembly>, list: seq<Assembly>, at: seq<nat>) {
    && |list| == |assemblies| == |at|
    && (forall i :: 0 <= i < |at| ==> at[i] < |assemblies| && list[i] == assemblies[at[i]])
    && (forall q: nat :: q < |assemblies| ==> q in at)
    && (forall i, j :: 0 <= i < j < |at| ==> at[i] != at[j])
  }

  /** Which assemblies are processed does not depend on the order of the list. */
  lemma OrderDoesNotMatter(assemblies: seq<Assembly>, S: set<nat>, list: seq<Assembly>, T: set<nat>, at: seq<nat>,
                           i: nat)
    requires Reordered(assemblies, list, at) && i < |list|
    requires IsLeastClosed(assemblies, S) && IsLeastClosed(list, T)
    ensures i in T <==> at[i] in S
  {
    var pulled := set k: nat | k < |at| && at[k] in S;
    forall k: nat, p: nat, j: nat | HangsOn(list, k, p, j) && p in pulled ensures k in pulled {
      assert HangsOn(assemblies, at[k], at[p], j);
    }
    forall k: nat | IsRoot(list, k) ensures k in pulled { assert IsRoot(assemblies, at[k]); }
    assert Closed(list, pulled);
    var pushed := set k: nat | k < |at| && k in T :: at[k];
    forall q: nat | IsRoot(assemblies, q) ensures q in pushed {
      assert q in at;
      var k :| 0 <= k < |at| && at[k] == q;
      assert IsRoot(list, k);
    }
    forall q: nat, p: nat, j: nat | HangsOn(assemblies, q, p, j) && p in pushed ensures q in pushed {
      assert q in at;
      var k :| 0 <= k < |at| && at[k] == q;
      var m: nat :| m < |at| && m in T && at[m] == p;
      assert HangsOn(list, k, m, j);
    }
    assert Closed(assemblies, pushed);
  }

  /** The chain of an assembly reads the same wherever the list puts it. */
  lemma {:induction false} PathInAnyOrder(assemblies: seq<Assembly>, list: seq<Assembly>, at: seq<nat>, i: nat,
                                          path: string, n: nat)
    requires Reordered(assemblies, list, at) && i < |list|
    ensures HasPath(list, i, path, n) <==> HasPath(assemblies, at[i], path, n)
    decreases n
  {
    if n == 0 {
      assert IsRoot(list, i) <==> IsRoot(assemblies, at[i]);
    } else {
      var m: nat := n - 1;
      if p: nat, j: nat, above :| ExtendsPath(list, i, p, j, above, path) && HasPath(list, p, above, m) {
        PathInAnyOrder(assemblies, list, at, p, above, m);
        assert ExtendsPath(assemblies, at[i], at[p], j, above, path);
      }
      if q: nat, j: nat, above
        :| ExtendsPath(assemblies, at[i], q, j, above, path) && HasPath(assemblies, q, above, m)
      {
        assert q in at;
        var p :| 0 <= p < |at| && at[p] == q;
        PathInAnyOrder(assemblies, list, at, p, above, m);
        assert ExtendsPath(list, i, p, j, above, path);
      }
    }
  }

  // ---- The passes ---------------------------------------------------------------------------------------

  /** `after` is the component with the sequence filled in, and the devpath of its type. */
  predicate ShowsPath(before: Component, after: Component, path: string) {
    && after.name == before.name && after.odataId == before.odataId && after.kind == before.kind
    && after.upstreamSequence == path
    && match before.kind
       case Board => after.localDevpath == path
       case Cable => after.localDevpath == path
       case Connector => after.localDevpath == path + ":connector:" + before.name
       case Device => after.localDevpath == path + ":device:" + before.name
  }

  predicate AllShowPath(before: seq<Component>, after: seq<Component>, path: string) {
    |after| == |before| && forall j :: 0 <= j < |before| ==> ShowsPath(before[j], after[j], path)
  }

  /** Nothing else of the assembly changes. */
  predicate AssemblyShowsPath(before: Assembly, after: Assembly, path: string) {
    && after.name == before.name && after.upstreamOdataIds == before.upstreamOdataIds
    && AllShowPath(before.components, after.components, path)
  }

  lemma PathFixesAssembly(before: Assembly, x: Assembly, y: Assembly, path: string)
    requires AssemblyShowsPath(before, x, path) && AssemblyShowsPath(before, y, path)
    ensures x == y
  {
    forall j | 0 <= j < |before.components| ensures x.components[j] == y.components[j] {
      assert ShowsPath(before.components[j], x.components[j], path);
      assert ShowsPath(before.components[j], y.components[j], path);
    }
  }

  /** A suffix for connectors or devices. */
  predicate HasSuffix(kind: ComponentType) { kind == Connector || kind == Device }

  lemma SplitAtColon(path1: string, suffix1: string, path2: string, suffix2: string)
    requires path1 + suffix1 == path2 + suffix2 && ':' !in path1 && ':' !in path2
    requires (suffix1 == [] || suffix1[0] == ':') && (suffix2 == [] || suffix2[0] == ':')
    ensures path1 == path2 && suffix1 == suffix2
  {
    var d := path1 + suffix1;
    assert d == path2 + suffix2;
    assert forall k :: 0 <= k < |path1| ==> d[k] in path1;
    assert forall k :: 0 <= k < |path2| ==> d[k] in path2;
    assert suffix1 != [] ==> d[|path1|] == ':';
    assert suffix2 != [] ==> d[|path2|] == ':';
    assert |path1| == |path2|;
    assert path1 == d[..|path1|] && path2 == d[..|path2|];
    assert suffix1 == d[|path1|..] && suffix2 == d[|path2|..];
  }

  lemma SuffixReadsBack(b1: Component, b2: Component)
    requires SuffixOf(b1) == SuffixOf(b2)
    ensures HasSuffix(b1.kind) == HasSuffix(b2.kind)
    ensures HasSuffix(b1.kind) ==> b1.kind == b2.kind && b1.name == b2.name
  {
    var suffix := SuffixOf(b1);
    if suffix != [] {
      assert suffix[1] == if b1.kind == Connector then 'c' else 'd';
      assert suffix[1] == if b2.kind == Connector then 'c' else 'd';
      var n := if b1.kind == Connector then 11 else 8;
      assert b1.name == suffix[n..] && b2.name == suffix[n..];
    }
  }

  /** What ShowsPath has behind the path. */
  function SuffixOf(b: Component): string {
    match b.kind
    case Board => []
    case Cable => []
    case Connector => ":connector:" + b.name
    case Device => ":device:" + b.name
  }

  lemma ShownSuffix(b: Component, c: Component, path: string)
    requires ShowsPath(b, c, path)
    ensures c.localDevpath == path + SuffixOf(b)
  {
  }

  /** From a devpath the path, the kind of suffix and behind one the name can be read back, as long as
      paths hold no colon. */
  lemma DevpathReadsBack(b1: Component, c1: Component, path1: string, b2: Component, c2: Component, path2: string)
    requires ShowsPath(b1, c1, path1) && ShowsPath(b2, c2, path2) && ':' !in path1 && ':' !in path2
    requires c1.localDevpath == c2.localDevpath
    ensures path1 == path2
    ensures HasSuffix(b1.kind) == HasSuffix(b2.kind)
    ensures HasSuffix(b1.kind) ==> b1.kind == b2.kind && b1.name == b2.name
  {
    ShownSuffix(b1, c1, path1);
    ShownSuffix(b2, c2, path2);
    SplitAtColon(path1, SuffixOf(b1), path2, SuffixOf(b2));
    SuffixReadsBack(b1, b2);
  }

  ghost predicate SlashFree(assemblies: seq<Assembly>) {
    forall p: nat, j: nat :: IsComponent(assemblies, p, j) ==> '/' !in assemblies[p].components[j].name
  }

  predicate EndsIn(path: string, name: string) {
    |path| > |name| && path[|path| - |name| - 1..] == "/" + name
  }

  lemma OneMoreName(above: string, name: string)
    requires "/phys" <= above && '/' !in name
    ensures var path := above + "/" + name;
      "/phys" <= path && Count(path, '/') == Count(above, '/') + 1 && EndsIn(path, name)
  {
    var path := above + "/" + name;
    CountConcat(above + "/", name, '/');
    CountAppend(above, '/', '/');
    CountIn(name, '/');
    assert path[|path| - |name| - 1..] == "/" + name;
  }

  /** A path starts at /phys and has one more name, behind a slash, for each attachment of the chain;
      the last one is that of the component the assembly hangs on. */
  lemma {:induction false} PathSpellsChain(assemblies: seq<Assembly>, i: nat, path: string, n: nat)
    requires SlashFree(assemblies) && HasPath(assemblies, i, path, n)
    ensures "/phys" <= path && Count(path, '/') == n + 1
    ensures n > 0 ==>
      exists p: nat, j: nat :: HangsOn(assemblies, i, p, j) && EndsIn(path, assemblies[p].components[j].name)
    decreases n
  {
    if n == 0 {
      SlashesInRoot();
    } else {
      var p: nat, j: nat, above
        :| ExtendsPath(assemblies, i, p, j, above, path) && HasPath(assemblies, p, above, n - 1);
      PathSpellsChain(assemblies, p, above, n - 1);
      assert IsComponent(assemblies, p, j);
      OneMoreName(above, assemblies[p].components[j].name);
    }
  }

  lemma SlashesInRoot()
    ensures Count("/phys", '/') == 1
  {
    CountAppend("/phy", 's', '/');
    CountAppend("/ph", 'y', '/');
    CountAppend("/p", 'h', '/');
    CountAppend("/", 'p', '/');
    assert "/phy" + ['s'] == "/phys" && "/ph" + ['y'] == "/phy" && "/p" + ['h'] == "/ph" && "/" + ['p'] == "/p";
  }

  /** Assembly i has been given a path its chain spells. */
  ghost predicate Given(input: seq<Assembly>, now: seq<Assembly>, i: nat, path: string)
    requires |now| == |input|
  {
    i < |input| && Derives(input, i, path) && AssemblyShowsPath(input[i], now[i], path)
  }

  /** a holds the input with exactly the processed assemblies given their paths. */
  ghost predicate Assigned(input: seq<Assembly>, now: seq<Assembly>, processed: set<nat>, paths: map<nat, string>) {
    && |now| == |input| && paths.Keys == processed
    && (forall i :: i in processed ==> Given(input, now, i, paths[i]))
    && (forall i: nat :: i < |input| && i !in processed ==> now[i] == input[i])
  }

  /** The id map leads exactly to the components of processed assemblies. */
  ghost predicate MapsProcessed(input: seq<Assembly>, processed: set<nat>, ids: map<string, (nat, nat)>) {
    && (forall id :: id in ids ==>
          && ids[id].0 in processed && ids[id].0 < |input| && ids[id].1 < |input[ids[id].0].components|
          && input[ids[id].0].components[ids[id].1].odataId == id)
    && (forall p: nat, j: nat :: p in processed && p < |input| && j < |input[p].components| ==>
          input[p].components[j].odataId in ids)
  }

  /** An assembly whose upstream component has a path belongs to every closed set. */
  lemma ForcedNext(input: seq<Assembly>, processed: set<nat>, ids: map<string, (nat, nat)>, i: nat)
    requires MapsProcessed(input, processed, ids) && Forced(input, processed) && i < |input|
    requires input[i].upstreamOdataIds == [] || input[i].upstreamOdataIds[0] in ids
    ensures Forced(input, processed + {i})
  {
    forall T: set<nat> | Closed(input, T) ensures i in T {
      if input[i].upstreamOdataIds == [] {
        assert IsRoot(input, i);
      } else {
        var id := input[i].upstreamOdataIds[0];
        assert HangsOn(input, i, ids[id].0, ids[id].1);
      }
    }
  }

  lemma BoundedCount(S: set<nat>, n: nat)
    requires forall i :: i in S ==> i < n
    ensures |S| <= n
  {
    assert Below(n) == S + (Below(n) - S);
  }

  lemma StrictCount(S: set<nat>, T: set<nat>)
    requires S <= T
    ensures |S| <= |T| && (|S| == |T| ==> S == T)
  {
    assert T == S + (T - S);
  }

  method GenerateDevpathsForComponents(components: seq<Component>, sequence: string) returns (result: seq<Component>)
    ensures AllShowPath(components, result, sequence)
  {
    result := [];
    for i := 0 to |components|
      invariant AllShowPath(components[..i], result, sequence)
    {
      var c := components[i].(upstreamSequence := sequence);
      match c.kind {
        case Board => c := c.(localDevpath := sequence);
        case Cable => c := c.(localDevpath := sequence);
        case Connector => c := c.(localDevpath := sequence + ":" + "connector:" + c.name);
        case Device => c := c.(localDevpath := sequence + ":" + "device:" + c.name);
      }
      assert sequence + ":" + "connector:" == sequence + ":connector:"
        && sequence + ":" + "device:" == sequence + ":device:";
      result := result + [c];
    }
    assert components[..|components|] == components;
  }

  /** One look at one assembly: the sequence to give it, if its upstream component has one already. */
  method UpstreamSequence(now: seq<Assembly>, i: nat, ids: map<string, (nat, nat)>, ghost input: seq<Assembly>,
                          ghost processed: set<nat>, ghost paths: map<nat, string>)
    returns (ready: bool, sequence: string)
    requires i < |now| && i !in processed
    requires Assigned(input, now, processed, paths) && MapsProcessed(input, processed, ids)
    ensures ready <==> input[i].upstreamOdataIds == [] || input[i].upstreamOdataIds[0] in ids
    ensures ready ==> Derives(input, i, sequence)
  {
    sequence := DEVPATH_ROOT;
    assert now[i] == input[i];
    if now[i].upstreamOdataIds == [] {
      assert HasPath(input, i, sequence, 0);
    } else {
      var up := now[i].upstreamOdataIds[0];
      if up !in ids {
        return false, sequence;
      }
      var p, j := ids[up].0, ids[up].1;
      sequence := now[p].components[j].upstreamSequence + "/" + now[p].components[j].name;
      PathThrough(input, i, p, j, paths[p], sequence);
    }
    ready := true;
  }

  /** With unique ids the path an assembly was given is the one its chain spells. */
  lemma AssignedIsThePath(input: seq<Assembly>, now: seq<Assembly>, processed: set<nat>, paths: map<nat, string>,
                          i: nat, path: string, n: nat)
    requires Assigned(input, now, processed, paths) && IsLeastClosed(input, processed) && UniqueIds(input)
    requires HasPath(input, i, path, n)
    ensures i < |now| && AssemblyShowsPath(input[i], now[i], path)
  {
    HasPathInside(input, processed, i, path, n);
    assert Given(input, now, i, paths[i]);
    var m: nat :| HasPath(input, i, paths[i], m);
    PathIsUnique(input, i, path, n, paths[i], m);
  }

  /** With unique ids the result for an assembly does not depend on the order of the list: what two
      calls leave on two orders of one list are the same assemblies in those orders. */
  lemma ResultInAnyOrder(input: seq<Assembly>, now: seq<Assembly>, S: set<nat>, paths: map<nat, string>,
                         list: seq<Assembly>, now': seq<Assembly>, T: set<nat>, paths': map<nat, string>,
                         at: seq<nat>, i: nat)
    requires Reordered(input, list, at) && i < |list| && UniqueIds(input)
    requires Assigned(input, now, S, paths) && IsLeastClosed(input, S)
    requires Assigned(list, now', T, paths') && IsLeastClosed(list, T)
    ensures now'[i] == now[at[i]]
  {
    OrderDoesNotMatter(input, S, list, T, at, i);
    if i in T {
      assert Given(list, now', i, paths'[i]);
      var n: nat :| HasPath(list, i, paths'[i], n);
      PathInAnyOrder(input, list, at, i, paths'[i], n);
      AssignedIsThePath(input, now, S, paths, at[i], paths'[i], n);
      PathFixesAssembly(list[i], now'[i], now[at[i]], paths'[i]);
    }
  }

  lemma PathThrough(input: seq<Assembly>, i: nat, p: nat, j: nat, above: string, path: string)
    requires ExtendsPath(input, i, p, j, above, path) && Derives(input, p, above)
    ensures Derives(input, i, path)
  {
    var n: nat :| HasPath(input, p, above, n);
    assert HasPath(input, i, path, n + 1);
  }

  /** Of the first n components, component j is the last one with its id. */
  predicate LastWithItsId(components: seq<Component>, n: nat, j: nat) {
    j < n <= |components| && forall k :: j < k < n ==> components[k].odataId != components[j].odataId
  }

  /** odata_id_to_component[component->odata_id] = component for every component of assembly i. */
  method Register(components: seq<Component>, i: nat, ids: map<string, (nat, nat)>)
    returns (ids': map<string, (nat, nat)>)
    ensures ids'.Keys == ids.Keys + (set j | 0 <= j < |components| :: components[j].odataId)
    ensures forall id :: id in ids' ==> (id in ids && ids'[id] == ids[id]) || RegisteredAt(components, i, ids', id)
    ensures forall j: nat :: LastWithItsId(components, |components|, j) ==> ids'[components[j].odataId] == (i, j)
  {
    ids' := ids;
    for j := 0 to |components|
      invariant ids'.Keys == ids.Keys + (set k | 0 <= k < j :: components[k].odataId)
      invariant forall id :: id in ids' ==> (id in ids && ids'[id] == ids[id]) || RegisteredAt(components, i, ids', id)
      invariant forall m: nat :: LastWithItsId(components, j, m) ==> ids'[components[m].odataId] == (i, m)
    {
      ids' := ids'[components[j].odataId := (i, j)];
    }
  }

  /** Every closed set contains what has been processed. */
  ghost predicate Forced(input: seq<Assembly>, processed: set<nat>) {
    forall T: set<nat> :: Closed(input, T) ==> processed <= T
  }

  lemma AssignNext(input: seq<Assembly>, now: seq<Assembly>, processed: set<nat>, paths: map<nat, string>, i: nat,
                   path: string, components: seq<Component>)
    requires Assigned(input, now, processed, paths) && i < |now| && i !in processed
    requires Derives(input, i, path) && AllShowPath(input[i].components, components, path)
    ensures var next := now[i := now[i].(components := components)];
      Assigned(input, next, processed + {i}, paths[i := path])
  {
    var next := now[i := now[i].(components := components)];
    forall k | k in processed + {i} ensures Given(input, next, k, paths[i := path][k]) {
      if k in processed { assert Given(input, now, k, paths[k]); }
    }
  }

  lemma RegisterNext(input: seq<Assembly>, processed: set<nat>, ids: map<string, (nat, nat)>, i: nat,
                     ids': map<string, (nat, nat)>)
    requires MapsProcessed(input, processed, ids) && i < |input|
    requires ids'.Keys == ids.Keys + (set j | 0 <= j < |input[i].components| :: input[i].components[j].odataId)
    requires forall id :: id in ids' ==>
      (id in ids && ids'[id] == ids[id]) || RegisteredAt(input[i].components, i, ids', id)
    ensures MapsProcessed(input, processed + {i}, ids')
  {
  }

  predicate RegisteredAt(components: seq<Component>, i: nat, ids: map<string, (nat, nat)>, id: string)
    requires id in ids
  {
    ids[id].0 == i && ids[id].1 < |components| && components[ids[id].1].odataId == id
  }

  /** None of the first n assemblies can be processed next. */
  ghost predicate Stuck(input: seq<Assembly>, processed: set<nat>, ids: map<string, (nat, nat)>, n: nat) {
    forall k: nat :: k < n && k < |input| && k !in processed ==>
      input[k].upstreamOdataIds != [] && input[k].upstreamOdataIds[0] !in ids
  }

  lemma StuckIsClosed(input: seq<Assembly>, processed: set<nat>, ids: map<string, (nat, nat)>)
    requires MapsProcessed(input, processed, ids) && Stuck(input, processed, ids, |input|)
    ensures Closed(input, processed)
  {
  }

  /** One pass over the list. When it processes nothing, nothing is left to process. */
  method Pass(a: array<Assembly>, ids0: map<string, (nat, nat)>, done0: set<nat>, ghost paths0: map<nat, string>,
              ghost input: seq<Assembly>)
    returns (ids: map<string, (nat, nat)>, done: set<nat>, ghost paths: map<nat, string>)
    requires Assigned(input, a[..], done0, paths0) && MapsProcessed(input, done0, ids0) && Forced(input, done0)
    modifies a
    ensures Assigned(input, a[..], done, paths) && MapsProcessed(input, done, ids) && Forced(input, done)
    ensures done0 <= done && (done == done0 ==> Stuck(input, done, ids, |input|))
  {
    ids, done, paths := ids0, done0, paths0;
    for i := 0 to a.Length
      invariant Assigned(input, a[..], done, paths) && MapsProcessed(input, done, ids) && Forced(input, done)
      invariant done0 <= done && (done == done0 ==> Stuck(input, done, ids, i))
    {
      if i in done { continue; }
      var ready, sequence := UpstreamSequence(a[..], i, ids, input, done, paths);
      if !ready { continue; }
      ForcedNext(input, done, ids, i);
      assert a[..][i] == input[i];
      ghost var before, idsBefore := a[..], ids;
      ids := Register(a[i].components, i, ids);
      RegisterNext(input, done, idsBefore, i, ids);
      var components := GenerateDevpathsForComponents(a[i].components, sequence);
      AssignNext(input, a[..], done, paths, i, sequence, components);
      a[i] := a[i].(components := components);
      assert a[..] == before[i := before[i].(components := components)];
      paths := paths[i := sequence];
      done := done + {i};
      assert i !in done0;
    }
  }

  /** On return the processed assemblies are the least closed set, each of their components has the
      devpath its attachment chain spells, and nothing else was touched. */
  method GenerateDevpaths(a: array<Assembly>) returns (ghost processed: set<nat>, ghost paths: map<nat, string>)
    modifies a
    ensures IsLeastClosed(old(a[..]), processed)
    ensures Assigned(old(a[..]), a[..], processed, paths)
  {
    ghost var input := a[..];
    var ids: map<string, (nat, nat)> := map[];
    var done: set<nat> := {};
    paths := map[];
    while true
      invariant Assigned(input, a[..], done, paths) && MapsProcessed(input, done, ids) && Forced(input, done)
      decreases a.Length - |done|
    {
      ghost var last := done;
      var lastCount := |done|;
      ids, done, paths := Pass(a, ids, done, paths, input);
      BoundedCount(done, a.Length);
      StrictCount(last, done);
      if |done| <= lastCount { break; }
    }
    StuckIsClosed(input, done, ids);
    processed := done;
  }
}
