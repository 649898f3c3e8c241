/** JoinFilePaths, GetDirname and GetBasename of ecclesia/lib/file/path.cc. */
module Paths {

  // ---- What a path means -----------------------------------------------------------------------

  /** A path read as a list of names, from the root or from wherever one is. */
  datatype Path = Path(absolute: bool, parts: seq<string>)

  predicate Absolute(s: string) { s != [] && s[0] == '/' }

  predicate EndsInSlash(s: string) { s != [] && s[|s| - 1] == '/' }

  /** The names between slashes, empty ones dropped. */
  function Parts(s: string): (parts: seq<string>)
    ensures s != [] && !EndsInSlash(s) ==> parts != []
  {
    if s == [] then [] else AddChar(Parts(s[..|s| - 1]), s[..|s| - 1], s[|s| - 1])
  }

  /** The names of `front` and one more character. */
  function AddChar(parts: seq<string>, front: string, c: char): seq<string> {
    if c == '/' then parts
    else if parts == [] || EndsInSlash(front) then parts + [[c]]
    else parts[..|parts| - 1] + [parts[|parts| - 1] + [c]]
  }

  function Meaning(s: string): Path { Path(Absolute(s), Parts(s)) }

  /** Walking q from where p leads; an absolute q starts over. */
  function Then(p: Path, q: Path): Path {
    if q.absolute then q else Path(p.absolute, p.parts + q.parts)
  }

  const HERE := Path(false, [])

  function Fold(paths: seq<string>): Path {
    if paths == [] then HERE else Then(Fold(paths[..|paths| - 1]), Meaning(paths[|paths| - 1]))
  }

  function WithSlashes(parts: seq<string>): string {
    if parts == [] then []
    else if |parts| == 1 then parts[0]
    else WithSlashes(parts[..|parts| - 1]) + "/" + parts[|parts| - 1]
  }

  /** The one way to write a path without redundant slashes. */
  function Render(p: Path): string {
    if p.absolute then "/" + WithSlashes(p.parts) else WithSlashes(p.parts)
  }

  /** What JoinFilePaths is for. */
  function Joined(paths: seq<string>): string { Render(Fold(paths)) }

  // ---- Squeezing slashes out of a string -------------------------------------------------------

  /** Each run of slashes replaced by one. */
  function Squeeze(s: string): string {
    if s == [] then []
    else
      var front, c := s[..|s| - 1], s[|s| - 1];
      if c == '/' && EndsInSlash(front) then Squeeze(front) else Squeeze(front) + [c]
  }

  lemma SqueezeSnoc(front: string, c: char)
    ensures Squeeze(front + [c]) == if c == '/' && EndsInSlash(front) then Squeeze(front) else Squeeze(front) + [c]
  {
    assert (front + [c])[..|front|] == front;
  }

  lemma PartsSnoc(front: string, c: char)
    ensures Parts(front + [c]) == AddChar(Parts(front), front, c)
    ensures EndsInSlash(front + [c]) <==> c == '/'
    ensures Absolute(front + [c]) <==> if front == [] then c == '/' else Absolute(front)
  {
    assert (front + [c])[..|front|] == front;
  }

  function TrimOne(s: string): string { if |s| > 1 && EndsInSlash(s) then s[..|s| - 1] else s }

  lemma {:induction false} WithSlashesGrows(parts: seq<string>, c: char)
    ensures WithSlashes(parts + [[c]]) == if parts == [] then [c] else WithSlashes(parts) + "/" + [c]
    ensures parts != [] ==>
      WithSlashes(parts[..|parts| - 1] + [parts[|parts| - 1] + [c]]) == WithSlashes(parts) + [c]
  {
    assert (parts + [[c]])[..|parts|] == parts;
    if parts != [] {
      var front, last := parts[..|parts| - 1], parts[|parts| - 1];
      assert (front + [last + [c]])[..|front|] == front;
      assert WithSlashes(front) + "/" + (last + [c]) == WithSlashes(front) + "/" + last + [c];
    }
  }

  /** The path a string means, written out, with a slash left over if the string ends in one. */
  function Spelled(s: string): string {
    if EndsInSlash(s) && Parts(s) != [] then Render(Meaning(s)) + "/" else Render(Meaning(s))
  }

  lemma RenderNewName(absolute: bool, parts: seq<string>, c: char)
    ensures Render(Path(absolute, parts + [[c]]))
      == (if parts == [] then Render(Path(absolute, parts)) else Render(Path(absolute, parts)) + "/") + [c]
  {
    WithSlashesGrows(parts, c);
    var text := WithSlashes(parts);
    assert "/" + (text + "/" + [c]) == "/" + text + "/" + [c];
  }

  lemma RenderLongerName(absolute: bool, parts: seq<string>, c: char)
    requires parts != []
    ensures var longer := parts[..|parts| - 1] + [parts[|parts| - 1] + [c]];
      Render(Path(absolute, longer)) == Render(Path(absolute, parts)) + [c]
  {
    WithSlashesGrows(parts, c);
    var text := WithSlashes(parts);
    assert "/" + (text + [c]) == "/" + text + [c];
  }

  /** What one more character does to the path spelled so far. */
  lemma RenderMore(absolute: bool, parts: seq<string>, front: string, c: char)
    requires c != '/' && (front == [] ==> parts == [])
    ensures var text := Render(Path(absolute, parts));
      Render(Path(absolute, AddChar(parts, front, c)))
        == (if EndsInSlash(front) && parts != [] then text + "/" else text) + [c]
  {
    if parts == [] || EndsInSlash(front) {
      RenderNewName(absolute, parts, c);
    } else {
      RenderLongerName(absolute, parts, c);
    }
  }

  lemma {:induction false} SqueezeRenders(s: string)
    ensures Squeeze(s) == Spelled(s)
  {
    if s != [] {
      var front, c := s[..|s| - 1], s[|s| - 1];
      SqueezeRenders(front);
      if c != '/' {
        if front != [] { RenderMore(Absolute(s), Parts(front), front, c); }
      }
    }
  }

  lemma {:induction false} SqueezeEnd(s: string)
    ensures EndsInSlash(Squeeze(s)) == EndsInSlash(s) && (Squeeze(s) == [] <==> s == [])
    ensures forall i :: 0 <= i < |Squeeze(s)| - 1 ==> !(Squeeze(s)[i] == '/' && Squeeze(s)[i + 1] == '/')
  {
    if s != [] { SqueezeEnd(s[..|s| - 1]); }
  }

  /** No empty name and no trailing slash, the root alone excepted. */
  ghost predicate IsNormal(s: string) {
    && (forall i :: 0 <= i < |s| - 1 ==> !(s[i] == '/' && s[i + 1] == '/'))
    && (|s| > 1 ==> !EndsInSlash(s))
  }

  lemma RenderIsTrimmedSqueeze(s: string)
    ensures Render(Meaning(s)) == TrimOne(Squeeze(s)) && IsNormal(TrimOne(Squeeze(s)))
  {
    SqueezeRenders(s);
    SqueezeEnd(s);
    var text := Render(Meaning(s));
    if Parts(s) != [] {
      SomeName(s);
      assert (text + "/")[..|text|] == text;
    }
  }

  lemma {:induction false} SomeName(s: string)
    requires Parts(s) != []
    ensures Render(Meaning(s)) != []
  {
    PartsAreNames(s);
    PartsOfWithSlashes(Parts(s));
  }

  // ---- Joining ------------------------------------------------------------------------------------

  lemma EndOfJoin(a: string, b: string)
    ensures EndsInSlash(a + "/" + b) <==> b == [] || EndsInSlash(b)
  {
  }

  lemma AddCharBehind(earlier: seq<string>, parts: seq<string>, before: string, front: string, c: char)
    requires front != [] ==> EndsInSlash(before) == EndsInSlash(front)
    requires if front == [] then parts == [] && EndsInSlash(before) else !EndsInSlash(front) ==> parts != []
    ensures AddChar(earlier + parts, before, c) == earlier + AddChar(parts, front, c)
  {
    var all := earlier + parts;
    if c == '/' {
    } else if parts == [] || EndsInSlash(front) {
      assert all + [[c]] == earlier + (parts + [[c]]);
    } else {
      var last := parts[|parts| - 1] + [c];
      assert all[..|all| - 1] == earlier + parts[..|parts| - 1];
      assert earlier + parts[..|parts| - 1] + [last] == earlier + (parts[..|parts| - 1] + [last]);
    }
  }

  lemma PartsOfLongerJoin(a: string, front: string, c: char)
    requires Parts(a + "/" + front) == Parts(a) + Parts(front)
    ensures Parts(a + "/" + (front + [c])) == Parts(a) + Parts(front + [c])
  {
    var before := a + "/" + front;
    calc {
      Parts(a + "/" + (front + [c]));
    == { assert a + "/" + (front + [c]) == before + [c]; }
      Parts(before + [c]);
    == { PartsSnoc(before, c); }
      AddChar(Parts(a) + Parts(front), before, c);
    == { EndOfJoin(a, front); AddCharBehind(Parts(a), Parts(front), before, front, c); }
      Parts(a) + AddChar(Parts(front), front, c);
    == { PartsSnoc(front, c); }
      Parts(a) + Parts(front + [c]);
    }
  }

  lemma PartsWithSlash(a: string)
    ensures Parts(a + "/") == Parts(a)
  {
    PartsSnoc(a, '/');
    assert a + "/" == a + ['/'];
  }

  /** The names of two strings joined by a slash are the names of the one, then of the other. */
  lemma {:induction false} PartsOfJoin(a: string, b: string)
    ensures Parts(a + "/" + b) == Parts(a) + Parts(b)
  {
    if b == [] {
      PartsWithSlash(a);
      assert a + "/" + b == a + "/" && Parts(a) + [] == Parts(a);
    } else {
      var front, c := b[..|b| - 1], b[|b| - 1];
      assert front + [c] == b;
      PartsOfJoin(a, front);
      PartsOfLongerJoin(a, front, c);
    }
  }

  function StrJoin(paths: seq<string>): string {
    if paths == [] then []
    else if |paths| == 1 then paths[0]
    else StrJoin(paths[..|paths| - 1]) + "/" + paths[|paths| - 1]
  }

  /** Only the first path may be absolute. */
  predicate OnlyFirstAbsolute(paths: seq<string>) {
    forall i :: 1 <= i < |paths| ==> !Absolute(paths[i])
  }

  lemma {:induction false} MeaningOfStrJoin(paths: seq<string>)
    requires OnlyFirstAbsolute(paths) && (paths != [] ==> paths[0] != [])
    ensures Meaning(StrJoin(paths)) == Fold(paths)
    ensures paths != [] ==> StrJoin(paths) != []
  {
    if |paths| == 1 {
      assert paths[..0] == [];
      assert [] + Parts(paths[0]) == Parts(paths[0]);
    } else if |paths| > 1 {
      var front, last := paths[..|paths| - 1], paths[|paths| - 1];
      MeaningOfStrJoin(front);
      PartsOfJoin(StrJoin(front), last);
    }
  }

  lemma ThenAssociative(p: Path, q: Path, r: Path)
    ensures Then(Then(p, q), r) == Then(p, Then(q, r))
    ensures Then(HERE, p) == p && Then(p, HERE) == p
  {
    assert p.parts + q.parts + r.parts == p.parts + (q.parts + r.parts);
    assert [] + p.parts == p.parts && p.parts + [] == p.parts;
  }

  lemma {:induction false} FoldConcat(a: seq<string>, b: seq<string>)
    ensures Fold(a + b) == Then(Fold(a), Fold(b))
  {
    if b == [] {
      assert a + b == a;
      ThenAssociative(Fold(a), HERE, HERE);
    } else {
      var front, last := b[..|b| - 1], b[|b| - 1];
      assert (a + b)[..|a + b| - 1] == a + front;
      FoldConcat(a, front);
      ThenAssociative(Fold(a), Fold(front), Meaning(last));
    }
  }

  lemma FoldOne(s: string)
    ensures Fold([s]) == Meaning(s)
  {
    assert [s][..0] == [];
    ThenAssociative(Meaning(s), HERE, HERE);
  }

  lemma FoldFromAbsolute(paths: seq<string>)
    requires paths != [] && Absolute(paths[0])
    ensures Fold(paths).absolute
  {
    assert paths == [paths[0]] + paths[1..];
    FoldConcat([paths[0]], paths[1..]);
    FoldOne(paths[0]);
  }

  /** Paths before an absolute one make no difference. */
  lemma FoldDropsOverridden(paths: seq<string>, i: nat)
    requires i < |paths| && Absolute(paths[i])
    ensures Fold(paths) == Fold(paths[i..])
  {
    assert paths == paths[..i] + paths[i..];
    FoldConcat(paths[..i], paths[i..]);
    FoldFromAbsolute(paths[i..]);
  }

  /** Nor does a leading empty one. */
  lemma FoldDropsEmpty(paths: seq<string>)
    requires paths != [] && paths[0] == []
    ensures Fold(paths) == Fold(paths[1..])
  {
    assert paths == [paths[0]] + paths[1..];
    FoldConcat([paths[0]], paths[1..]);
    FoldOne(paths[0]);
    ThenAssociative(Fold(paths[1..]), HERE, HERE);
  }

  /** The pass that compacts full_path in place: its first finalSize characters are the result. */
  method SqueezeInPlace(fullPath: array<char>) returns (finalSize: nat, lastWasSlash: bool)
    requires fullPath.Length > 0
    modifies fullPath
    ensures 1 <= finalSize <= fullPath.Length && fullPath[..finalSize] == Squeeze(old(fullPath[..]))
    ensures lastWasSlash == EndsInSlash(old(fullPath[..]))
  {
    ghost var text, kept := fullPath[..], [fullPath[0]];
    lastWasSlash := fullPath[0] == '/';
    finalSize := 1;
    assert text[..1] == [] + [text[0]] == kept;
    SqueezeSnoc([], text[0]);
    for i := 1 to fullPath.Length
      invariant 1 <= finalSize <= i && |kept| == finalSize && kept == Squeeze(text[..i])
      invariant forall k :: 0 <= k < finalSize ==> fullPath[k] == kept[k]
      invariant forall k :: i <= k < fullPath.Length ==> fullPath[k] == text[k]
      invariant lastWasSlash == EndsInSlash(text[..i])
    {
      var nextChar := fullPath[i];
      assert text[..i + 1] == text[..i] + [nextChar];
      SqueezeSnoc(text[..i], nextChar);
      assert Squeeze(text[..i + 1]) == if nextChar == '/' && lastWasSlash then kept else kept + [nextChar];
      if nextChar != '/' || !lastWasSlash {
        fullPath[finalSize] := nextChar;
        finalSize, kept := finalSize + 1, kept + [nextChar];
      }
      lastWasSlash := nextChar == '/';
    }
    assert text[..|text|] == text;
    assert fullPath[..finalSize] == kept;
  }

  /** Then a trailing slash goes, unless it is all there is. */
  method Compact(fullPath: array<char>) returns (finalSize: nat)
    requires fullPath.Length > 0
    modifies fullPath
    ensures finalSize <= fullPath.Length && fullPath[..finalSize] == TrimOne(Squeeze(old(fullPath[..])))
  {
    SqueezeEnd(fullPath[..]);
    var lastWasSlash;
    finalSize, lastWasSlash := SqueezeInPlace(fullPath);
    ghost var squeezed := fullPath[..finalSize];
    if lastWasSlash && finalSize > 1 {
      finalSize := finalSize - 1;
      assert fullPath[..finalSize] == squeezed[..finalSize];
    }
  }

  /** Drop every path before the last absolute one. */
  method DropOverridden(paths: seq<string>) returns (rest: seq<string>)
    requires paths != []
    ensures rest != [] && Fold(rest) == Fold(paths) && OnlyFirstAbsolute(rest)
  {
    var i := |paths| - 1;
    while i > 0
      invariant 0 <= i < |paths|
      invariant forall k :: i < k < |paths| ==> !Absolute(paths[k])
    {
      if paths[i] != [] && paths[i][0] == '/' {
        FoldDropsOverridden(paths, i);
        return paths[i..];
      }
      i := i - 1;
    }
    rest := paths;
  }

  method DropLeadingEmpty(paths: seq<string>) returns (rest: seq<string>)
    requires OnlyFirstAbsolute(paths)
    ensures Fold(rest) == Fold(paths) && OnlyFirstAbsolute(rest) && (rest != [] ==> rest[0] != [])
  {
    rest := paths;
    while rest != [] && rest[0] == []
      invariant Fold(rest) == Fold(paths) && OnlyFirstAbsolute(rest)
      decreases |rest|
    {
      FoldDropsEmpty(rest);
      rest := rest[1..];
    }
  }

  /** The source reads past the end of an empty list, so callers must pass at least one path. */
  method JoinFilePaths(paths: seq<string>) returns (result: string)
    requires paths != []
    ensures result == Joined(paths) && IsNormal(result)
  {
    var rest := DropOverridden(paths);
    rest := DropLeadingEmpty(rest);
    var joined := StrJoin(rest);
    MeaningOfStrJoin(rest);
    RenderIsTrimmedSqueeze(joined);
    if joined == [] {
      return joined;
    }
    var fullPath := new char[|joined|](i requires 0 <= i < |joined| => joined[i]);
    assert fullPath[..] == joined;
    var finalSize := Compact(fullPath);
    result := fullPath[..finalSize];
  }

  // ---- Laws -----------------------------------------------------------------------------------------

  ghost predicate Names(parts: seq<string>) {
    forall i :: 0 <= i < |parts| ==> parts[i] != [] && '/' !in parts[i]
  }

  lemma {:induction false} PartsAreNames(s: string)
    ensures Names(Parts(s))
  {
    if s != [] { PartsAreNames(s[..|s| - 1]); }
  }

  lemma {:induction false} FoldIsNames(paths: seq<string>)
    ensures Names(Fold(paths).parts)
  {
    if paths != [] {
      FoldIsNames(paths[..|paths| - 1]);
      PartsAreNames(paths[|paths| - 1]);
    }
  }

  lemma {:induction false} PartsOfName(s: string)
    requires s != [] && '/' !in s
    ensures Parts(s) == [s]
  {
    var front, c := s[..|s| - 1], s[|s| - 1];
    assert s == front + [c] && c in s;
    PartsSnoc(front, c);
    if front != [] {
      PartsOfName(front);
      assert front[|front| - 1] in s;
    }
  }

  lemma {:induction false} PartsOfWithSlashes(parts: seq<string>)
    requires Names(parts)
    ensures Parts(WithSlashes(parts)) == parts
    ensures parts != [] ==> WithSlashes(parts) != [] && WithSlashes(parts)[0] != '/'
  {
    if parts == [] {
    } else {
      var front, last := parts[..|parts| - 1], parts[|parts| - 1];
      PartsOfName(last);
      assert last[0] in last && parts == front + [last];
      if front != [] {
        PartsOfWithSlashes(front);
        PartsOfJoin(WithSlashes(front), last);
        assert WithSlashes(parts)[0] == WithSlashes(front)[0];
      }
    }
  }

  /** Rendering a path and reading it back. */
  lemma MeaningOfRender(p: Path)
    requires Names(p.parts)
    ensures Meaning(Render(p)) == p
  {
    PartsOfWithSlashes(p.parts);
    if p.absolute {
      PartsOfJoin("", WithSlashes(p.parts));
      assert "" + "/" + WithSlashes(p.parts) == "/" + WithSlashes(p.parts);
      assert [] + p.parts == p.parts;
    }
  }

  /** Nested joins flatten. */
  lemma NestedJoinsFlatten(xs: seq<string>, ys: seq<string>, zs: seq<string>)
    ensures Joined(xs + [Joined(ys)] + zs) == Joined(xs + ys + zs)
  {
    FoldIsNames(ys);
    MeaningOfRender(Fold(ys));
    FoldOne(Joined(ys));
    FoldConcat(xs, [Joined(ys)]);
    FoldConcat(xs + [Joined(ys)], zs);
    FoldConcat(xs, ys);
    FoldConcat(xs + ys, zs);
  }

  lemma {:induction false} NothingToSqueeze(s: string)
    requires forall i :: 0 <= i < |s| - 1 ==> !(s[i] == '/' && s[i + 1] == '/')
    ensures Squeeze(s) == s
  {
    if s != [] {
      var front := s[..|s| - 1];
      assert s == front + [s[|s| - 1]];
      forall i | 0 <= i < |front| - 1 ensures !(front[i] == '/' && front[i + 1] == '/') {
        assert front[i] == s[i] && front[i + 1] == s[i + 1];
      }
      if |s| >= 2 { assert !(s[|s| - 2] == '/' && s[|s| - 2 + 1] == '/'); }
      NothingToSqueeze(front);
    }
  }

  /** A path in normal form is left alone. */
  lemma NormalIsKept(p: string)
    requires IsNormal(p)
    ensures Render(Meaning(p)) == p && Joined([p]) == p
  {
    NothingToSqueeze(p);
    RenderIsTrimmedSqueeze(p);
    FoldOne(p);
  }

  /** Two paths in normal form, the second a relative one, are joined by one slash. */
  lemma JoinOfTwo(p: string, q: string)
    requires IsNormal(p) && IsNormal(q) && q != [] && !Absolute(q)
    ensures Joined([p, q]) == if p == [] then q else if p == "/" then "/" + q else p + "/" + q
  {
    FoldTwo(p, q);
    if p == [] {
      ThenAssociative(Meaning(q), HERE, HERE);
      NormalIsKept(q);
    } else {
      var front := if p == "/" then "" else p;
      var text := front + "/" + q;
      PartsOfJoin(front, q);
      assert Parts("/") == [] by { PartsSnoc("", '/'); assert "" + ['/'] == "/"; }
      assert Meaning(text) == Then(Meaning(p), Meaning(q));
      NormalOfJoin(front, q);
      NormalIsKept(text);
    }
  }

  lemma NormalOfJoin(front: string, q: string)
    requires IsNormal(front) && !EndsInSlash(front) && IsNormal(q) && q != [] && !Absolute(q)
    ensures IsNormal(front + "/" + q)
  {
    var text := front + "/" + q;
    forall i | 0 <= i < |text| - 1 ensures !(text[i] == '/' && text[i + 1] == '/') {
      if i < |front| {
        assert text[i] == front[i];
        if i + 1 < |front| { assert text[i + 1] == front[i + 1]; }
      } else {
        assert text[i + 1] == q[i - |front|];
        if i > |front| { assert text[i] == q[i - |front| - 1] && q[i - |front|] == q[i - |front| - 1 + 1]; }
      }
    }
    assert text[|text| - 1] == q[|q| - 1];
  }

  /** An absolute path overrides all before it. */
  lemma AbsoluteOverrides(before: seq<string>, p: string, after: seq<string>)
    requires Absolute(p)
    ensures Joined(before + [p] + after) == Joined([p] + after)
  {
    var paths := before + [p] + after;
    FoldDropsOverridden(paths, |before|);
    assert paths[|before|..] == [p] + after;
  }

  /** An empty path adds nothing. */
  lemma EmptyAddsNothing(before: seq<string>, after: seq<string>)
    ensures Joined(before + [""] + after) == Joined(before + after)
  {
    FoldOne("");
    FoldConcat(before, [""]);
    FoldConcat(before + [""], after);
    FoldConcat(before, after);
    ThenAssociative(Fold(before), HERE, HERE);
  }

  // ---- Directory and base name ------------------------------------------------------------------------

  function TrimSlashes(s: string): string {
    if |s| > 1 && EndsInSlash(s) then TrimSlashes(s[..|s| - 1]) else s
  }

  /** find_last_of('/'), or -1 for npos. */
  function LastSlash(s: string): (k: int)
    ensures -1 <= k < |s|
    ensures k >= 0 ==> s[k] == '/'
    ensures forall i :: k < i < |s| ==> s[i] != '/'
  {
    if s == [] then -1
    else if EndsInSlash(s) then |s| - 1
    else LastSlash(s[..|s| - 1])
  }

  function Basename(path: string): string {
    var p := TrimSlashes(path);
    p[LastSlash(p) + 1..]
  }

  function Dirname(path: string): string {
    var p := TrimSlashes(path);
    TrimSlashes(p[..LastSlash(p) + 1])
  }

  method TrimTrailing(path: string) returns (trimmed: string)
    ensures trimmed == TrimSlashes(path)
  {
    trimmed := path;
    while |trimmed| > 1 && trimmed[|trimmed| - 1] == '/'
      invariant TrimSlashes(trimmed) == TrimSlashes(path)
      decreases |trimmed|
    {
      trimmed := trimmed[..|trimmed| - 1];
    }
  }

  method GetBasename(path: string) returns (result: string)
    ensures result == Basename(path) && '/' !in result
  {
    result := TrimTrailing(path);
    var lastSlash := LastSlash(result);
    if lastSlash != -1 {
      result := result[lastSlash + 1..];
    } else {
      assert result[0..] == result;
    }
  }

  method GetDirname(path: string) returns (result: string)
    ensures result == Dirname(path)
  {
    result := TrimTrailing(path);
    var lastSlash := LastSlash(result);
    if lastSlash != -1 {
      result := result[..lastSlash + 1];
    } else {
      result := result[..0];
    }
    result := TrimTrailing(result);
  }

  lemma {:induction false} TrimKeepsMeaning(s: string)
    ensures Meaning(TrimSlashes(s)) == Meaning(s)
  {
    if |s| > 1 && EndsInSlash(s) { TrimKeepsMeaning(s[..|s| - 1]); }
  }

  /** A path cut behind its last slash means its directory, then its last name. */
  lemma CutBehindSlash(p: string)
    ensures var k := LastSlash(p); Then(Meaning(p[..k + 1]), Meaning(p[k + 1..])) == Meaning(p)
  {
    var k := LastSlash(p);
    if k >= 0 {
      assert p == p[..k] + "/" + p[k + 1..] && p[..k + 1] == p[..k] + "/";
      MeaningBehindSlash(p[..k], p[k + 1..]);
    } else {
      assert p[k + 1..] == p && p[..k + 1] == [];
      ThenAssociative(Meaning(p), HERE, HERE);
    }
  }

  lemma MeaningBehindSlash(front: string, base: string)
    requires !Absolute(base)
    ensures Then(Meaning(front + "/"), Meaning(base)) == Meaning(front + "/" + base)
  {
    PartsOfJoin(front, base);
    assert (front + "/")[..|front|] == front;
  }

  /** Joining the two halves of any path gives the path back, in normal form. */
  lemma DirnameBasenameRejoin(path: string)
    ensures Joined([Dirname(path), Basename(path)]) == Joined([path])
  {
    var p := TrimSlashes(path);
    TrimKeepsMeaning(path);
    TrimKeepsMeaning(p[..LastSlash(p) + 1]);
    CutBehindSlash(p);
    FoldTwo(Dirname(path), Basename(path));
    FoldOne(path);
  }

  lemma FoldTwo(a: string, b: string)
    ensures Fold([a, b]) == Then(Meaning(a), Meaning(b))
  {
    assert [a, b] == [a] + [b];
    FoldConcat([a], [b]);
    FoldOne(a);
    FoldOne(b);
  }

  lemma {:induction false} TrimEnds(s: string)
    ensures |TrimSlashes(s)| > 1 ==> !EndsInSlash(TrimSlashes(s))
    ensures TrimSlashes(s) <= s
  {
    if |s| > 1 && EndsInSlash(s) { TrimEnds(s[..|s| - 1]); }
  }

  lemma NoNames(p: string)
    requires p == "" || (|p| == 1 && EndsInSlash(p))
    ensures Parts(p) == []
  {
    if p != "" {
      PartsWithSlash("");
      assert p == "" + "/";
    }
  }

  /** A name behind a slash is the last one. */
  lemma OneMoreName(front: string, base: string)
    requires base != [] && '/' !in base && (front == [] || EndsInSlash(front))
    ensures Parts(front + base) == Parts(front) + [base]
  {
    PartsOfName(base);
    if front == [] {
      assert front + base == base;
    } else {
      var a := front[..|front| - 1];
      assert front == a + "/";
      PartsWithSlash(a);
      PartsOfJoin(a, base);
    }
  }

  lemma DirnameText(path: string)
    ensures Dirname(path) <= path && Absolute(Dirname(path)) == Absolute(path)
    ensures |Dirname(path)| > 1 ==> !EndsInSlash(Dirname(path))
  {
    var p := TrimSlashes(path);
    var front := p[..LastSlash(p) + 1];
    TrimKeepsMeaning(path);
    TrimEnds(path);
    TrimKeepsMeaning(front);
    TrimEnds(front);
    assert front <= p;
  }

  /** The base name is the last name of the path, the directory the front of it that holds all other
      names: without a trailing slash but the root's, and absolute where the path is. */
  lemma DirnameBasenameMeaning(path: string)
    ensures Parts(path) == [] ==> Basename(path) == "" && Parts(Dirname(path)) == []
    ensures Parts(path) != [] ==> Parts(path) == Parts(Dirname(path)) + [Basename(path)]
    ensures Dirname(path) <= path && Absolute(Dirname(path)) == Absolute(path)
    ensures |Dirname(path)| > 1 ==> !EndsInSlash(Dirname(path))
  {
    var p := TrimSlashes(path);
    var front, base := p[..LastSlash(p) + 1], Basename(path);
    TrimKeepsMeaning(path);
    TrimEnds(path);
    TrimKeepsMeaning(front);
    DirnameText(path);
    assert p == front + base;
    if base != [] {
      OneMoreName(front, base);
    } else {
      assert front == p;
      NoNames(p);
    }
  }
}
