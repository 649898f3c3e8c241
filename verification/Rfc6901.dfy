/** RFC 6901 itself, and exactly which pointers HandleJsonPtr (ecclesia/lib/redfish/json_ptr.cc) treats
    as the RFC says. */
module Rfc6901 {
  import opened Wrappers
  import opened Decimal
  import opened JsonPtr

  // ---- Sections 3 and 4 --------------------------------------------------------------------------

  /** A tilde stands only in front of 0 or 1. */
  predicate ValidEscapes(token: string) {
    forall i :: 0 <= i < |token| && token[i] == '~' ==>
      i + 1 < |token| && (token[i + 1] == '0' || token[i + 1] == '1')
  }

  /** Every tilde followed by `code` replaced by c. */
  function Substitute(s: string, code: char, c: char): string {
    if |s| >= 2 && s[0] == '~' && s[1] == code then [c] + Substitute(s[2..], code, c)
    else if s == [] then []
    else [s[0]] + Substitute(s[1..], code, c)
  }

  /** First each ~1 becomes a slash, then each ~0 a tilde. */
  function Decode(token: string): string { Substitute(Substitute(token, '1', '/'), '0', '~') }

  /** array-index: zero, or digits without a leading zero. */
  predicate IsArrayIndex(token: string) { token != [] && AllDigits(token) && (token[0] == '0' ==> |token| == 1) }

  /** Empty, or tokens each behind a slash. */
  predicate WellFormed(pointer: string) {
    pointer == [] || (pointer[0] == '/' && forall token :: token in Split(pointer[1..]) ==> ValidEscapes(token))
  }

  function Evaluate(j: Json, tokens: seq<string>): Json {
    if tokens == [] then j
    else
      var token := Decode(tokens[0]);
      match j
      case Arr(elements) =>
        if IsArrayIndex(token) && Number(token) < |elements| then Evaluate(elements[Number(token)], tokens[1..])
        else Discarded
      case Obj(members) => if token in members then Evaluate(members[token], tokens[1..]) else Discarded
      case _ => Discarded
  }

  /** The value a pointer names, with the error value for every error condition. */
  function Rfc(j: Json, pointer: string): Json {
    if !WellFormed(pointer) then Discarded
    else if pointer == [] then j
    else Evaluate(j, Split(pointer[1..]))
  }

  /** Printing a valid path gives a pointer that names what the path selects, whatever its indices. */
  lemma RfcSelects(j: Json, path: seq<Step>)
    requires Select(j, path).Some?
    ensures WellFormed(Pointer(path)) && Rfc(j, Pointer(path)) == Select(j, path).value
  {
    if path != [] {
      PointerBody(path);
      SplitBody(path);
      assert Pointer(path)[1..] == Body(path);
      TokensValid(path);
      EvaluateSelects(j, path);
    }
  }

  lemma {:induction false} TokensValid(path: seq<Step>)
    ensures forall token :: token in Tokens(path) ==> ValidEscapes(token)
  {
    if path != [] {
      TokenValid(path[0]);
      TokensValid(path[1..]);
    }
  }

  lemma TokenValid(step: Step)
    ensures ValidEscapes(Token(step))
  {
    match step
    case Key(key) => EscapeValid(key);
    case Index(index) => assert forall i :: 0 <= i < |Print(index)| ==> IsDigit(Print(index)[i]);
  }

  lemma {:induction false} EscapeValid(text: string)
    ensures ValidEscapes(Escape(text))
  {
    if text != [] {
      EscapeValid(text[1..]);
      EscapeHead(text);
      var s, rest := Escape(text), Escape(text[1..]);
      if text[0] == '~' || text[0] == '/' {
        assert s == s[..2] + rest;
      } else {
        assert s == [s[0]] + rest;
      }
    }
  }

  lemma {:induction false} EvaluateSelects(j: Json, path: seq<Step>)
    requires Select(j, path).Some?
    ensures Evaluate(j, Tokens(path)) == Select(j, path).value
  {
    if path != [] {
      TokenShape(path[0]);
      TokenValid(path[0]);
      ValidUnescapes(Token(path[0]));
      assert Tokens(path)[1..] == Tokens(path[1..]);
      match path[0]
      case Key(key) => EvaluateSelects(j.members[key], path[1..]);
      case Index(index) =>
        PrintIsIndex(index);
        EvaluateSelects(j.elements[index], path[1..]);
    }
  }

  lemma {:induction false} PrintIsIndex(n: nat)
    ensures IsArrayIndex(Print(n))
    ensures n > 0 ==> Print(n)[0] != '0'
  {
    if n >= 10 { PrintIsIndex(n / 10); }
  }

  // ---- Escapes: the single pass and the two passes agree --------------------------------------------

  lemma {:induction false} DecodeIsReplace(s: string)
    ensures Decode(s) == Replace(s)
  {
    if |s| >= 2 && s[0] == '~' && s[1] == '1' {
      DecodeIsReplace(s[2..]);
      SubstituteCons('/', Substitute(s[2..], '1', '/'));
    } else if |s| >= 2 && s[0] == '~' && s[1] == '0' {
      DecodeIsReplace(s[2..]);
      var rest := Substitute(s[2..], '1', '/');
      assert s[1..][1..] == s[2..];
      assert Substitute(s, '1', '/') == ['~'] + (['0'] + rest);
      SubstituteEscape(rest);
    } else if s != [] {
      DecodeIsReplace(s[1..]);
      SubstituteHead(s[1..]);
      SubstituteCons(s[0], Substitute(s[1..], '1', '/'));
    }
  }

  lemma SubstituteCons(c: char, rest: string)
    requires c == '~' ==> rest == [] || rest[0] != '0'
    ensures Substitute([c] + rest, '0', '~') == [c] + Substitute(rest, '0', '~')
  {
    var s := [c] + rest;
    assert s[1..] == rest;
  }

  lemma SubstituteEscape(rest: string)
    ensures Substitute(['~'] + (['0'] + rest), '0', '~') == ['~'] + Substitute(rest, '0', '~')
  {
    var s := ['~'] + (['0'] + rest);
    assert s[2..] == rest;
  }

  lemma SubstituteHead(s: string)
    ensures var t := Substitute(s, '1', '/'); t == [] || t[0] == '/' || (s != [] && t[0] == s[0])
  {
  }

  lemma {:induction false} ValidHasReplacements(token: string)
    requires ValidEscapes(token) && '~' in token
    ensures Replacements(token) > 0
  {
    if token[0] != '~' {
      assert token == [token[0]] + token[1..];
      assert forall i :: 0 <= i < |token[1..]| ==> token[1..][i] == token[i + 1];
      ValidHasReplacements(token[1..]);
    }
  }

  lemma {:induction false} NothingToReplace(token: string)
    requires '~' !in token
    ensures Replace(token) == token
  {
    if token != [] { NothingToReplace(token[1..]); }
  }

  /** A valid token is decoded as the RFC says. */
  lemma ValidUnescapes(token: string)
    requires ValidEscapes(token)
    ensures Unescape(token) == Some(Decode(token))
  {
    DecodeIsReplace(token);
    if '~' in token { ValidHasReplacements(token); } else { NothingToReplace(token); }
  }

  // ---- Which pointers are treated as the RFC says -----------------------------------------------------

  /** The code resolves the pointer in some value: it is empty, or has a slash and behind the first
      one only tokens with no tilde or with some valid escape. */
  predicate Accepted(pointer: string) {
    pointer == [] || (|Split(pointer)| >= 2 && Unescapable(Split(pointer)[1..]))
  }

  predicate Unescapable(tokens: seq<string>) { forall token :: token in tokens ==> Unescape(token).Some? }

  /** SimpleAtoi reads a decoded token as the RFC reads an array index. */
  predicate IndexAgrees(token: string) {
    if IsArrayIndex(token) then Number(token) <= INT_MAX
    else SimpleAtoi(token).None? || SimpleAtoi(token).value < 0
  }

  predicate IndicesAgree(tokens: seq<string>) { forall token :: token in tokens ==> IndexAgrees(Decode(token)) }

  /** What makes the code treat a pointer as the RFC does: of a well-formed one, that no token is an
      index beyond an int or passes for an index to SimpleAtoi alone; of any other, that the code
      rejects it as well. */
  predicate Conforming(pointer: string) {
    if WellFormed(pointer) then pointer != [] ==> IndicesAgree(Split(pointer[1..])) else !Accepted(pointer)
  }

  ghost predicate TreatedAsRfc(pointer: string) { forall j :: Resolve(j, pointer) == Rfc(j, pointer) }

  lemma {:induction false} SameWalk(j: Json, tokens: seq<string>)
    requires forall token :: token in tokens ==> ValidEscapes(token)
    requires IndicesAgree(tokens)
    ensures Walk(j, tokens) == Evaluate(j, tokens)
  {
    if tokens != [] {
      var token := Decode(tokens[0]);
      ValidUnescapes(tokens[0]);
      assert IndexAgrees(token);
      if IsArrayIndex(token) { AtoiOfDigits(token); }
      var next := Descend(j, token);
      if next.Some? { SameWalk(next.value, tokens[1..]); }
    }
  }

  lemma {:induction false} RejectedWalk(j: Json, tokens: seq<string>)
    requires !Unescapable(tokens)
    ensures Walk(j, tokens) == Discarded
  {
    if Unescape(tokens[0]).Some? {
      var next := Descend(j, Unescape(tokens[0]).value);
      assert tokens == [tokens[0]] + tokens[1..];
      if next.Some? { RejectedWalk(next.value, tokens[1..]); }
    }
  }

  /** Objects nested so that the tokens lead to null. */
  function Nest(tokens: seq<string>): Json
    requires Unescapable(tokens)
  {
    if tokens == [] then Null else Obj(map[Unescape(tokens[0]).value := Nest(tokens[1..])])
  }

  lemma {:induction false} NestLeadsToNull(tokens: seq<string>)
    requires Unescapable(tokens)
    ensures Walk(Nest(tokens), tokens) == Null
    ensures (forall token :: token in tokens ==> ValidEscapes(token)) ==> Evaluate(Nest(tokens), tokens) == Null
  {
    if tokens != [] {
      NestLeadsToNull(tokens[1..]);
      if ValidEscapes(tokens[0]) { ValidUnescapes(tokens[0]); }
    }
  }

  lemma FirstTellsApart(tokens: seq<string>) returns (j: Json)
    requires tokens != [] && forall token :: token in tokens ==> ValidEscapes(token)
    requires !IndexAgrees(Decode(tokens[0]))
    ensures Walk(j, tokens) != Evaluate(j, tokens)
  {
    var token := Decode(tokens[0]);
    ValidUnescapes(tokens[0]);
    forall t | t in tokens[1..] ensures Unescape(t).Some? { ValidUnescapes(t); }
    NestLeadsToNull(tokens[1..]);
    if IsArrayIndex(token) { AtoiOfDigits(token); }
    var n: nat := if IsArrayIndex(token) then Number(token) else SimpleAtoi(token).value;
    j := Arr(seq(n + 1, _ => Nest(tokens[1..])));
  }

  /** A value that tells the code and the RFC apart where they disagree about an index. */
  lemma {:induction false} TellApart(tokens: seq<string>) returns (j: Json)
    requires forall token :: token in tokens ==> ValidEscapes(token)
    requires !IndicesAgree(tokens)
    ensures Walk(j, tokens) != Evaluate(j, tokens)
  {
    var token := Decode(tokens[0]);
    ValidUnescapes(tokens[0]);
    if !IndexAgrees(token) {
      j := FirstTellsApart(tokens);
    } else {
      assert tokens == [tokens[0]] + tokens[1..];
      var below := TellApart(tokens[1..]);
      j := Obj(map[token := below]);
    }
  }

  /** HandleJsonPtr treats a pointer as RFC 6901 says, in every JSON value, exactly when the pointer is
      conforming. */
  lemma TreatedAsRfcIffConforming(pointer: string)
    ensures TreatedAsRfc(pointer) <==> Conforming(pointer)
  {
    if WellFormed(pointer) {
      WellFormedCase(pointer);
    } else if Accepted(pointer) {
      var tokens := Split(pointer)[1..];
      NestLeadsToNull(tokens);
      assert Resolve(Nest(tokens), pointer) == Null != Rfc(Nest(tokens), pointer);
    } else {
      forall j ensures Resolve(j, pointer) == Rfc(j, pointer) {
        if |Split(pointer)| >= 2 { RejectedWalk(j, Split(pointer)[1..]); }
      }
    }
  }

  lemma WellFormedCase(pointer: string)
    requires WellFormed(pointer)
    ensures TreatedAsRfc(pointer) <==> Conforming(pointer)
  {
    if pointer != [] {
      var tokens := Split(pointer[1..]);
      assert Split(pointer) == [""] + tokens && ([""] + tokens)[1..] == tokens;
      if IndicesAgree(tokens) {
        forall j ensures Resolve(j, pointer) == Rfc(j, pointer) { SameWalk(j, tokens); }
      } else {
        var j := TellApart(tokens);
        assert Resolve(j, pointer) != Rfc(j, pointer);
      }
    }
  }

  // ---- Pointers the code takes and the RFC does not ------------------------------------------------------

  function Pair(): Json { Arr([Null, Bool(true)]) }

  lemma WalkOne(j: Json, token: string)
    ensures Walk(j, [token])
      == if Unescape(token).None? then Discarded else Descend(j, Unescape(token).value).GetOr(Discarded)
  {
    assert [token][1..] == [];
  }

  lemma OneToken(j: Json, token: string)
    requires '/' !in token
    ensures Resolve(j, "/" + token)
      == if Unescape(token).None? then Discarded else Descend(j, Unescape(token).value).GetOr(Discarded)
    ensures Rfc(j, "/" + token) == if ValidEscapes(token) then Evaluate(j, [token]) else Discarded
  {
    var pointer := "/" + token;
    SplitLast(token);
    assert pointer[1..] == token && token in [token];
    assert Split(pointer) == ["", token] && ["", token][1..] == [token];
    WalkOne(j, token);
  }

  /** A token that SimpleAtoi reads as 1, though it is no array index, finds the element at index 1. */
  lemma TakenAsOne(token: string)
    requires '/' !in token && '~' !in token && SimpleAtoi(token) == Some(1) && !IsArrayIndex(token)
    ensures Resolve(Pair(), "/" + token) == Bool(true) && Rfc(Pair(), "/" + token) == Discarded
  {
    OneToken(Pair(), token);
    ValidUnescapes(token);
  }

  lemma LeadingZeroIsTaken()
    ensures Resolve(Pair(), "/01") == Bool(true) && Rfc(Pair(), "/01") == Discarded
  {
    AtoiOfDigits("01");
    assert Number("01") == 1;
    TakenAsOne("01");
    assert "/" + "01" == "/01";
  }

  lemma SignIsTaken()
    ensures Resolve(Pair(), "/+1") == Bool(true) && Rfc(Pair(), "/+1") == Discarded
  {
    assert "+1"[1..] == "1" && Number("1") == 1;
    assert SimpleAtoi("+1") == Some(1);
    TakenAsOne("+1");
    assert "/" + "+1" == "/+1";
  }

  lemma WhiteSpaceIsTaken()
    ensures Resolve(Pair(), "/ 1") == Bool(true) && Rfc(Pair(), "/ 1") == Discarded
  {
    assert " 1"[1..] == "1" && StripLeft("1") == "1" && StripRight("1") == "1" && Number("1") == 1;
    assert SimpleAtoi(" 1") == Some(1);
    TakenAsOne(" 1");
    assert "/" + " 1" == "/ 1";
  }

  /** Text in front of the first slash is skipped, where the RFC has an error. */
  lemma FrontTextIsSkipped()
    ensures Resolve(Pair(), "x/1") == Bool(true) && Rfc(Pair(), "x/1") == Discarded
  {
    SplitAtSlash("x", "1");
    SplitLast("1");
    assert "x" + "/" + "1" == "x/1" && Split("x/1") == ["x", "1"] && ["x", "1"][1..] == ["1"];
    AtoiOfDigits("1");
    assert Number("1") == 1;
  }

  /** A stray tilde is kept when the token has some valid escape besides. */
  lemma StrayTildeIsKept()
    ensures var j := Obj(map["~~" := Bool(true)]); Resolve(j, "/~~0") == Bool(true) && Rfc(j, "/~~0") == Discarded
  {
    var token := "~~0";
    OneToken(Obj(map["~~" := Bool(true)]), token);
    assert "/" + token == "/~~0";
    assert token[1..] == "~0" && "~0"[2..] == "";
    assert Replacements("~0") == 1 && Replace("~0") == "~";
    assert token[0] == '~' && token[1] == '~' && !ValidEscapes(token);
    assert Replacements(token) == 1 && Replace(token) == ['~'] + "~" == "~~";
  }

  /** An array element beyond what an int counts is lost, where the RFC finds it. */
  lemma LargeIndexIsNotFound(n: nat)
    requires n > INT_MAX
    ensures var j, pointer := Arr(seq(n + 1, _ => Null)), Pointer([Index(n)]);
      Resolve(j, pointer) == Discarded && Rfc(j, pointer) == Null
  {
    LostIndex(n);
    RfcSelects(Arr(seq(n + 1, _ => Null)), [Index(n)]);
  }
}
