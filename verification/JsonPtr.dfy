/** HandleJsonPtr of ecclesia/lib/redfish/json_ptr.cc: JSON pointers as in sections 3 and 4 of RFC 6901. */
module JsonPtr {
  import opened Wrappers
  import opened Decimal

  datatype Json =
    | Null | Bool(b: bool) | Num(n: real) | Str(s: string)
    | Arr(elements: seq<Json>)
    | Obj(members: map<string, Json>)
    | Discarded  // the library's error value

  // ---- Tokens ----------------------------------------------------------------------------------

  /** absl::StrSplit(s, '/') */
  function Split(s: string): (tokens: seq<string>)
    ensures tokens != []
  {
    if s == [] then [""]
    else
      var rest := Split(s[1..]);
      if s[0] == '/' then [""] + rest else [[s[0]] + rest[0]] + rest[1..]
  }

  /** absl::StrReplaceAll({{"~0", "~"}, {"~1", "/"}}): one pass, left to right. */
  function Replace(s: string): string {
    if |s| >= 2 && s[0] == '~' && s[1] == '0' then "~" + Replace(s[2..])
    else if |s| >= 2 && s[0] == '~' && s[1] == '1' then "/" + Replace(s[2..])
    else if s == [] then []
    else [s[0]] + Replace(s[1..])
  }

  function Replacements(s: string): nat {
    if |s| >= 2 && s[0] == '~' && (s[1] == '0' || s[1] == '1') then 1 + Replacements(s[2..])
    else if s == [] then 0
    else Replacements(s[1..])
  }

  /** A token with its escapes undone; None for a tilde and nothing to replace. */
  function Unescape(token: string): Option<string> {
    if '~' !in token then Some(token) else if Replacements(token) == 0 then None else Some(Replace(token))
  }

  /** One step down from j. */
  function Descend(j: Json, token: string): Option<Json> {
    match j
    case Arr(elements) =>
      var index := SimpleAtoi(token);
      if index.Some? && 0 <= index.value < |elements| then Some(elements[index.value]) else None
    case Obj(members) => if token in members then Some(members[token]) else None
    case _ => None
  }

  function Walk(j: Json, tokens: seq<string>): Json {
    if tokens == [] then j
    else
      var token := Unescape(tokens[0]);
      if token.None? then Discarded
      else
        var next := Descend(j, token.value);
        if next.None? then Discarded else Walk(next.value, tokens[1..])
  }

  function Resolve(j: Json, pointer: string): Json {
    if pointer == [] then j else if |Split(pointer)| < 2 then Discarded else Walk(j, Split(pointer)[1..])
  }

  method HandleJsonPtr(json: Json, pointer: string) returns (result: Json)
    ensures result == Resolve(json, pointer)
  {
    if pointer == [] { return json; }
    var tokens := Split(pointer);
    if |tokens| < 2 { return Discarded; }
    var current := json;
    var i := 1;
    while i < |tokens|
      invariant 1 <= i <= |tokens| && Walk(current, tokens[i..]) == Resolve(json, pointer)
    {
      var token := tokens[i];
      assert tokens[i..][1..] == tokens[i + 1..];
      if '~' in token {
        if Replacements(token) == 0 { return Discarded; }
        token := Replace(token);
      }
      match current {
        case Arr(elements) =>
          var index := SimpleAtoi(token);
          if index.None? || index.value < 0 || index.value >= |elements| { return Discarded; }
          current := elements[index.value];
        case Obj(members) =>
          if token !in members { return Discarded; }
          current := members[token];
        case _ => return Discarded;
      }
      i := i + 1;
    }
    result := current;
  }

  // ---- Pointers as RFC 6901 writes them --------------------------------------------------------

  datatype Step = Key(key: string) | Index(index: nat)

  /** The sub-value a path selects, if each of its steps leads somewhere. */
  function Select(j: Json, path: seq<Step>): Option<Json> {
    if path == [] then Some(j)
    else match (path[0], j)
      case (Key(key), Obj(members)) => if key in members then Select(members[key], path[1..]) else None
      case (Index(index), Arr(elements)) => if index < |elements| then Select(elements[index], path[1..]) else None
      case _ => None
  }

  function Escape(text: string): string {
    if text == [] then []
    else (if text[0] == '~' then "~0" else if text[0] == '/' then "~1" else [text[0]]) + Escape(text[1..])
  }

  function Token(step: Step): string {
    match step
    case Key(key) => Escape(key)
    case Index(index) => Print(index)
  }

  function Pointer(path: seq<Step>): string {
    if path == [] then [] else "/" + Token(path[0]) + Pointer(path[1..])
  }

  function Tokens(path: seq<Step>): seq<string> {
    if path == [] then [] else [Token(path[0])] + Tokens(path[1..])
  }

  /** The escaped form has no slash, and a tilde only where there is something to undo. */
  lemma {:induction false} EscapeShape(text: string)
    ensures '/' !in Escape(text)
    ensures '~' in Escape(text) ==> Replacements(Escape(text)) > 0
  {
    if text != [] {
      EscapeShape(text[1..]);
      EscapeHead(text);
    }
  }

  lemma EscapeHead(text: string)
    requires text != []
    ensures var rest := Escape(text[1..]);
      if text[0] == '~' then Escape(text)[..2] == "~0" && Escape(text)[2..] == rest
      else if text[0] == '/' then Escape(text)[..2] == "~1" && Escape(text)[2..] == rest
      else Escape(text)[0] == text[0] && Escape(text)[1..] == rest
  {
  }

  /** The single-pass replacement inverts the escaping. */
  lemma {:induction false} ReplaceInvertsEscape(text: string)
    ensures Replace(Escape(text)) == text
  {
    if text != [] {
      ReplaceInvertsEscape(text[1..]);
      EscapeHead(text);
      assert Escape(text)[0] == Escape(text)[..1][0];
    }
  }

  function Plain(step: Step): string {
    match step
    case Key(key) => key
    case Index(index) => Print(index)
  }

  lemma TokenShape(step: Step)
    ensures '/' !in Token(step) && Unescape(Token(step)) == Some(Plain(step))
  {
    match step
    case Key(key) =>
      EscapeShape(key);
      ReplaceInvertsEscape(key);
      if Escape(key) != key { EscapedHasTilde(key); }
    case Index(index) =>
      assert AllDigits(Print(index));
  }

  lemma {:induction false} EscapedHasTilde(text: string)
    requires Escape(text) != text
    ensures '~' in Escape(text)
  {
    EscapeHead(text);
    if text[0] == '~' || text[0] == '/' {
      assert Escape(text)[0] == Escape(text)[..2][0];
    } else {
      assert text == [text[0]] + text[1..] && Escape(text) == [text[0]] + Escape(text[1..]);
      EscapedHasTilde(text[1..]);
    }
  }

  lemma {:induction false} SplitAtSlash(token: string, rest: string)
    requires '/' !in token
    ensures Split(token + "/" + rest) == [token] + Split(rest)
  {
    var s := token + "/" + rest;
    if token == [] {
      assert s == "/" + rest && s[1..] == rest;
    } else {
      assert s[1..] == token[1..] + "/" + rest && s[0] == token[0];
      SplitAtSlash(token[1..], rest);
      assert [token[0]] + token[1..] == token;
    }
  }

  lemma {:induction false} SplitLast(token: string)
    requires '/' !in token
    ensures Split(token) == [token]
  {
    if token != [] {
      SplitLast(token[1..]);
      assert [token[0]] + token[1..] == token;
    }
  }

  /** A printed pointer after its first slash. */
  function Body(path: seq<Step>): string
    requires path != []
  {
    if |path| == 1 then Token(path[0]) else Token(path[0]) + "/" + Body(path[1..])
  }

  lemma {:induction false} PointerBody(path: seq<Step>)
    requires path != []
    ensures Pointer(path) == "/" + Body(path)
  {
    if |path| > 1 {
      PointerBody(path[1..]);
      Reassociate(Token(path[0]), Body(path[1..]));
    }
  }

  lemma Reassociate(token: string, rest: string)
    ensures "/" + token + ("/" + rest) == "/" + (token + "/" + rest)
  {
  }

  /** Splitting it gives its tokens. */
  lemma {:induction false} SplitBody(path: seq<Step>)
    requires path != []
    ensures Split(Body(path)) == Tokens(path)
  {
    TokenShape(path[0]);
    if |path| == 1 {
      SplitLast(Token(path[0]));
    } else {
      SplitAtSlash(Token(path[0]), Body(path[1..]));
      SplitBody(path[1..]);
    }
  }

  lemma SplitPointer(path: seq<Step>)
    requires path != []
    ensures Split(Pointer(path)) == [""] + Tokens(path)
  {
    PointerBody(path);
    SplitAtSlash("", Body(path));
    assert "" + "/" + Body(path) == "/" + Body(path);
    SplitBody(path);
  }

  /** Every array index in the path can be read back by SimpleAtoi. */
  predicate IndicesFitInt(path: seq<Step>) {
    forall i :: 0 <= i < |path| && path[i].Index? ==> path[i].index <= INT_MAX
  }

  lemma {:induction false} WalkFollowsPath(j: Json, path: seq<Step>)
    requires Select(j, path).Some?
    ensures Walk(j, Tokens(path)) == if IndicesFitInt(path) then Select(j, path).value else Discarded
  {
    if path != [] {
      TokenShape(path[0]);
      assert Tokens(path)[1..] == Tokens(path[1..]);
      if path[0].Index? { AtoiOfDigits(Print(path[0].index)); }
      if path[0].Key? || path[0].index <= INT_MAX {
        var next := Descend(j, Plain(path[0])).value;
        WalkFollowsPath(next, path[1..]);
        assert IndicesFitInt(path) <==> IndicesFitInt(path[1..]) by {
          assert forall i :: 1 <= i < |path| ==> path[i] == path[1..][i - 1];
          assert forall i :: 0 <= i < |path[1..]| ==> path[1..][i] == path[i + 1];
        }
      }
    }
  }

  /** Printing a valid path and resolving the pointer returns the selected sub-value exactly when
      every index fits an int, and the error value otherwise. */
  lemma PointerSelects(j: Json, path: seq<Step>)
    requires Select(j, path).Some?
    ensures Resolve(j, Pointer(path)) == if IndicesFitInt(path) then Select(j, path).value else Discarded
    ensures Resolve(j, Pointer(path)) == Select(j, path).value <==>
      IndicesFitInt(path) || Select(j, path).value == Discarded
  {
    WalkFollowsPath(j, path);
    if path != [] {
      SplitPointer(path);
      assert ([""] + Tokens(path))[1..] == Tokens(path);
      assert Tokens(path) != [];
    }
  }

  /** An array element beyond what an int counts cannot be reached. */
  lemma LargeIndexIsLost()
    ensures var j, path := Arr(seq(0x8000_0001, _ => Null)), [Index(0x8000_0000)];
      Select(j, path) == Some(Null) && Resolve(j, Pointer(path)) == Discarded
  {
    LostIndex(0x8000_0000);
  }

  lemma LostIndex(n: nat)
    requires n > INT_MAX
    ensures var j, path := Arr(seq(n + 1, _ => Null)), [Index(n)];
      Select(j, path) == Some(Null) && Resolve(j, Pointer(path)) == Discarded
  {
    var j, path := Arr(seq(n + 1, _ => Null)), [Index(n)];
    assert Select(j, path) == Some(Null);
    assert path[0].Index?;
    PointerSelects(j, path);
  }
}
