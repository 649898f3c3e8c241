/** SMBIOS structure tables: BuildEntries and ExtractSmbiosStructure of ecclesia/lib/smbios/reader.cc,
    TableEntry of ecclesia/lib/smbios/internal.h. The layout is that of sections 6.1.2 and 6.1.3 of the
    DMTF System Management BIOS Reference Specification (DSP0134). Addresses are offsets. */
module Smbios {
  import opened Wrappers

  const HEADER_SIZE := 4

  /** A format's own demands on a formatted area, from its type-specific fields. */
  type Format = seq<byte> -> bool

  /** SizeInBytes of a structure view: the length byte, but never less than the header. */
  function ViewSize(s: seq<byte>): (n: nat)
    requires |s| >= 2
    ensures n >= HEADER_SIZE
  {
    if s[1] < HEADER_SIZE then HEADER_SIZE else s[1]
  }

  /** Ok() of a structure view over s. */
  predicate ViewOk(s: seq<byte>, accepts: Format) {
    |s| >= HEADER_SIZE && ViewSize(s) <= |s| && accepts(s[..ViewSize(s)])
  }

  /** Where the first two NULs in a row are. */
  function DoubleNull(u: seq<byte>): (at: Option<nat>)
    ensures at.Some? ==> at.value + 2 <= |u| && u[at.value] == 0 && u[at.value + 1] == 0
  {
    if |u| < 2 then None
    else if u[0] == 0 && u[1] == 0 then Some(0)
    else
      var at := DoubleNull(u[1..]);
      if at.None? then None else Some(at.value + 1)
  }

  ghost predicate FirstDoubleNull(u: seq<byte>, p: nat) {
    p + 2 <= |u| && u[p] == 0 && u[p + 1] == 0 && forall k :: 0 <= k < p ==> u[k] != 0 || u[k + 1] != 0
  }

  lemma {:induction false} DoubleNullIs(u: seq<byte>, p: nat)
    requires FirstDoubleNull(u, p)
    ensures DoubleNull(u) == Some(p)
  {
    if p > 0 {
      assert u[0] != 0 || u[0 + 1] != 0;
      forall k | 0 <= k < p - 1 ensures u[1..][k] != 0 || u[1..][k + 1] != 0 {
        assert u[k + 1] != 0 || u[k + 1 + 1] != 0;
      }
      DoubleNullIs(u[1..], p - 1);
    }
  }

  lemma {:induction false} DoubleNullFinds(u: seq<byte>)
    ensures DoubleNull(u).Some? ==> FirstDoubleNull(u, DoubleNull(u).value)
    ensures forall p: nat :: FirstDoubleNull(u, p) ==> DoubleNull(u) == Some(p)
  {
    if |u| >= 2 && !(u[0] == 0 && u[1] == 0) {
      DoubleNullFinds(u[1..]);
      if DoubleNull(u[1..]).Some? {
        var p := DoubleNull(u[1..]).value + 1;
        forall k | 0 <= k < p ensures u[k] != 0 || u[k + 1] != 0 {
          if k > 0 { assert u[1..][k - 1] != 0 || u[1..][k - 1 + 1] != 0; }
        }
      }
    }
    forall p: nat | FirstDoubleNull(u, p) ensures DoubleNull(u) == Some(p) { DoubleNullIs(u, p); }
  }

  /** Size of the structure at the front of s: its formatted area and strings, through the double NUL. */
  function StructureSize(s: seq<byte>, accepts: Format): (size: Option<nat>)
    ensures size.Some? ==> ViewOk(s, accepts) && ViewSize(s) + 2 <= size.value <= |s|
  {
    if !ViewOk(s, accepts) then None
    else
      var at := DoubleNull(s[ViewSize(s)..]);
      if at.None? then None else Some(ViewSize(s) + at.value + 2)
  }

  /** Length of the C string at the front of u. */
  function StringLength(u: seq<byte>): (n: nat)
    ensures n <= |u| && (n < |u| ==> u[n] == 0)
  {
    if u == [] || u[0] == 0 then 0 else 1 + StringLength(u[1..])
  }

  /** The C strings at the front of u, up to an empty one. */
  function StringsOf(u: seq<byte>): seq<seq<byte>>
    decreases |u|
  {
    if u == [] || u[0] == 0 then []
    else [u[..StringLength(u)]] + (if StringLength(u) < |u| then StringsOf(u[StringLength(u) + 1..]) else [])
  }

  datatype TableEntry = TableEntry(data: seq<byte>, strings: seq<seq<byte>>) {
    /** Strings are numbered from 1; any other number gives an empty view. */
    function GetString(num: nat): seq<byte> {
      if num == 0 || num > |strings| then [] else strings[num - 1]
    }
  }

  function EntryOf(structure: seq<byte>): TableEntry
    requires |structure| >= 2 && ViewSize(structure) <= |structure|
  {
    TableEntry(structure[..ViewSize(structure)], StringsOf(structure[ViewSize(structure)..]))
  }

  /** The structures a table is cut into, as far as extraction succeeds. */
  function Structures(table: seq<byte>, accepts: Format): (structures: seq<seq<byte>>)
    ensures forall i :: 0 <= i < |structures| ==> StructureSize(structures[i], accepts) == Some(|structures[i]|)
    decreases |table|
  {
    var size := StructureSize(table, accepts);
    if size.None? then []
    else
      OwnSize(table, accepts);
      [table[..size.value]] + Structures(table[size.value..], accepts)
  }

  /** A structure cut out of the table measures the same on its own. */
  lemma OwnSize(s: seq<byte>, accepts: Format)
    requires StructureSize(s, accepts).Some?
    ensures var n := StructureSize(s, accepts).value; StructureSize(s[..n], accepts) == Some(n)
  {
    var n, v := StructureSize(s, accepts).value, ViewSize(s);
    Slices(s, n, v);
    DoubleNullPrefix(s[v..], n - v);
  }

  lemma Slices(s: seq<byte>, n: nat, v: nat)
    requires v <= n <= |s|
    ensures s[..n][..v] == s[..v] && s[..n][v..] == s[v..][..n - v]
  {
  }

  lemma DoubleNullPrefix(u: seq<byte>, n: nat)
    requires DoubleNull(u).Some? && n == DoubleNull(u).value + 2
    ensures DoubleNull(u[..n]) == DoubleNull(u)
  {
    DoubleNullFinds(u);
    DoubleNullIs(u[..n], n - 2);
  }

  function Concat(parts: seq<seq<byte>>): seq<byte> {
    if parts == [] then [] else parts[0] + Concat(parts[1..])
  }

  /** On arbitrary bytes: the structures tile a prefix of the table without gap or overlap, and what
      follows them is not the start of another structure. */
  lemma {:induction false} StructuresTile(table: seq<byte>, accepts: Format)
    ensures Concat(Structures(table, accepts)) <= table
    ensures StructureSize(table[|Concat(Structures(table, accepts))|..], accepts).None?
    decreases |table|
  {
    var size := StructureSize(table, accepts);
    if size.Some? {
      var first, rest := table[..size.value], table[size.value..];
      StructuresTile(rest, accepts);
      var later := Structures(rest, accepts);
      assert ([first] + later)[1..] == later;
      ConcatFits(table, size.value, Concat(later));
    } else {
      assert table[0..] == table;
    }
  }

  lemma ConcatFits(table: seq<byte>, n: nat, tiled: seq<byte>)
    requires n <= |table| && tiled <= table[n..]
    ensures table[..n] + tiled <= table && table[|table[..n] + tiled|..] == table[n..][|tiled|..]
  {
    assert table == table[..n] + table[n..];
  }

  // ---- The reader -----------------------------------------------------------------------------------

  /** SmbiosStructureInfo: where the structure's two sections start, and its size. */
  datatype StructureInfo = StructureInfo(formattedStart: nat, unformedStart: nat, structureSize: nat)

  method ExtractSmbiosStructure(table: seq<byte>, start: nat, maxLength: nat, accepts: Format)
    returns (info: Option<StructureInfo>)
    requires start + maxLength == |table| && maxLength > 0
    ensures var size := StructureSize(table[start..], accepts);
      info == if size.None? then None else Some(StructureInfo(start, start + ViewSize(table[start..]), size.value))
  {
    var view := table[start..];
    if !ViewOk(view, accepts) {
      return None;
    }
    var index := ViewSize(view);
    var end := FindEnd(view, index);
    if end.None? {
      return None;
    }
    info := Some(StructureInfo(start, start + index, end.value + 2));
  }

  /** The search for the double NUL, from the unformed section on. */
  method FindEnd(view: seq<byte>, from: nat) returns (end: Option<nat>)
    requires from <= |view| && view != []
    ensures DoubleNull(view[from..]).None? ==> end.None?
    ensures DoubleNull(view[from..]).Some? ==> end == Some(from + DoubleNull(view[from..]).value)
  {
    var index := from;
    while index < |view| - 1
      invariant from <= index <= |view|
      invariant forall k :: from <= k < index && k + 1 < |view| ==> view[k] != 0 || view[k + 1] != 0
    {
      if view[index] == 0 && view[index + 1] == 0 {
        assert FirstDoubleNull(view[from..], index - from);
        DoubleNullIs(view[from..], index - from);
        return Some(index);
      }
      index := index + 1;
    }
    DoubleNullFinds(view[from..]);
    end := None;
  }

  /** TableEntry's constructor. It sees the bytes of one structure only: its scan for strings stops
      at the closing double NUL and never needs a byte beyond it. */
  method MakeEntry(structure: seq<byte>, formattedLength: nat, ghost accepts: Format) returns (entry: TableEntry)
    requires StructureSize(structure, accepts) == Some(|structure|) && formattedLength == ViewSize(structure)
    ensures entry == EntryOf(structure)
  {
    DoubleNullAtEnd(structure, accepts);
    var strings := ScanStrings(structure[formattedLength..]);
    entry := TableEntry(structure[..formattedLength], strings);
  }

  predicate EndsInDoubleNull(area: seq<byte>) {
    |area| >= 2 && area[|area| - 2] == 0 && area[|area| - 1] == 0
  }

  method ScanStrings(area: seq<byte>) returns (strings: seq<seq<byte>>)
    requires EndsInDoubleNull(area)
    ensures strings == StringsOf(area)
  {
    strings := [];
    var start := 0;
    ghost var goal := StringsOf(area);
    assert [] + goal == goal && area[0..] == area;
    while area[start] != 0
      invariant start < |area| && strings + StringsOf(area[start..]) == goal
      decreases |area| - start
    {
      var text, next := NextString(area, start);
      Regroup(strings, text, StringsOf(area[next..]));
      strings, start := strings + [text], next;
    }
    assert strings + [] == strings;
  }

  /** The string at start, and where the one after it begins. */
  method NextString(area: seq<byte>, start: nat) returns (text: seq<byte>, next: nat)
    requires EndsInDoubleNull(area) && start < |area| && area[start] != 0
    ensures start < next < |area| && StringsOf(area[start..]) == [text] + StringsOf(area[next..])
  {
    var length := CStringLength(area, start);
    DropDrop(area, start, length);
    DropDrop(area, start, length + 1);
    TakeString(area[start..], length);
    text, next := area[start..start + length], start + length + 1;
  }

  lemma TakeString(rest: seq<byte>, length: nat)
    requires length < |rest| && rest[0] != 0 && length == StringLength(rest)
    ensures StringsOf(rest) == [rest[..length]] + StringsOf(rest[length + 1..])
  {
  }

  lemma Regroup<T>(front: seq<T>, x: T, back: seq<T>)
    ensures front + ([x] + back) == (front + [x]) + back
  {
  }

  lemma DoubleNullAtEnd(structure: seq<byte>, accepts: Format)
    requires StructureSize(structure, accepts) == Some(|structure|)
    ensures structure[|structure| - 2] == 0 && structure[|structure| - 1] == 0
  {
    assert DoubleNull(structure[ViewSize(structure)..]).Some?;
  }

  /** strlen of the string at start; the NUL that ends the bytes stops it. */
  method CStringLength(bytes: seq<byte>, start: nat) returns (length: nat)
    requires EndsInDoubleNull(bytes) && start < |bytes| - 1
    ensures length == StringLength(bytes[start..]) && start + length < |bytes| - 1
  {
    length := 0;
    while bytes[start + length] != 0
      invariant start + length < |bytes| - 1
      invariant forall k :: start <= k < start + length ==> bytes[k] != 0
      decreases |bytes| - length
    {
      length := length + 1;
    }
    StringLengthIs(bytes[start..], length);
  }

  /** The entries of a table, as far as extraction succeeds. */
  function Entries(table: seq<byte>, accepts: Format): seq<TableEntry>
    decreases |table|
  {
    var size := StructureSize(table, accepts);
    if size.None? then []
    else
      OwnSize(table, accepts);
      [EntryOf(table[..size.value])] + Entries(table[size.value..], accepts)
  }

  /** Entry i is the parse of structure i. */
  lemma {:induction false} EntriesFromStructures(table: seq<byte>, accepts: Format, i: nat)
    requires i < |Structures(table, accepts)|
    ensures |Entries(table, accepts)| == |Structures(table, accepts)|
    ensures ViewOk(Structures(table, accepts)[i], accepts)
    ensures Entries(table, accepts)[i] == EntryOf(Structures(table, accepts)[i])
    decreases |table|
  {
    OwnSize(table, accepts);
    var rest := table[StructureSize(table, accepts).value..];
    if Structures(rest, accepts) != [] {
      EntriesFromStructures(rest, accepts, if i == 0 then 0 else i - 1);
    }
  }

  lemma TakeEntry(rest: seq<byte>, size: nat, accepts: Format)
    requires StructureSize(rest, accepts) == Some(size)
    ensures size <= |rest| && StructureSize(rest[..size], accepts) == Some(size)
      && ViewSize(rest[..size]) == ViewSize(rest)
    ensures Entries(rest, accepts) == [EntryOf(rest[..size])] + Entries(rest[size..], accepts)
  {
    OwnSize(rest, accepts);
  }

  lemma NextEntry(entries: seq<TableEntry>, rest: seq<byte>, size: nat, accepts: Format)
    requires StructureSize(rest, accepts) == Some(size)
    ensures size <= |rest| && StructureSize(rest[..size], accepts) == Some(size)
      && ViewSize(rest[..size]) == ViewSize(rest)
    ensures entries + Entries(rest, accepts) == entries + [EntryOf(rest[..size])] + Entries(rest[size..], accepts)
  {
    TakeEntry(rest, size, accepts);
    Regroup(entries, EntryOf(rest[..size]), Entries(rest[size..], accepts));
  }

  /** One turn of the loop: the structure at start, and its size. */
  method ReadStructure(table: seq<byte>, start: nat, accepts: Format) returns (found: Option<(TableEntry, nat)>)
    requires start < |table|
    ensures var size := StructureSize(table[start..], accepts);
      found == if size.None? then None else Some((EntryOf(table[start..][..size.value]), size.value))
  {
    var info := ExtractSmbiosStructure(table, start, |table| - start, accepts);
    if info.None? {
      return None;
    }
    var size := info.value.structureSize;
    DropDrop(table, start, size);
    OwnSize(table[start..], accepts);
    var entry := MakeEntry(table[start..start + size], info.value.unformedStart - start, accepts);
    found := Some((entry, size));
  }

  method BuildEntries(table: seq<byte>, accepts: Format) returns (entries: seq<TableEntry>)
    ensures entries == Entries(table, accepts)
  {
    entries := [];
    var start := 0;
    ghost var rest := table;
    ghost var goal := Entries(table, accepts);
    assert [] + goal == goal;
    while start < |table|
      invariant start <= |table| && rest == table[start..]
      invariant entries + Entries(rest, accepts) == goal
    {
      var found := ReadStructure(table, start, accepts);
      if found.None? {
        assert entries + [] == entries;
        return;
      }
      var entry, size := found.value.0, found.value.1;
      DropDrop(table, start, size);
      NextEntry(entries, rest, size, accepts);
      entries := entries + [entry];
      start, rest := start + size, rest[size..];
    }
    assert rest == [] && entries + [] == entries;
  }

  // ---- Writing a table --------------------------------------------------------------------------------

  /** A structure as the standard lays it out: a formatted area as long as its length byte says, and
      non-empty strings without NULs. */
  predicate WellFormed(e: TableEntry, accepts: Format) {
    && |e.data| >= 4 && e.data[1] == |e.data| && accepts(e.data)
    && forall i :: 0 <= i < |e.strings| ==> e.strings[i] != [] && 0 !in e.strings[i]
  }

  function Terminated(strings: seq<seq<byte>>): seq<byte> {
    if strings == [] then [] else strings[0] + [0] + Terminated(strings[1..])
  }

  /** The unformed section: each string and its NUL, then a closing NUL; two NULs when there are none. */
  function Unformed(strings: seq<seq<byte>>): seq<byte> {
    if strings == [] then [0, 0] else Terminated(strings) + [0]
  }

  function Serialize(entries: seq<TableEntry>): seq<byte> {
    if entries == [] then [] else entries[0].data + Unformed(entries[0].strings) + Serialize(entries[1..])
  }

  lemma {:induction false} StringsEnd(strings: seq<seq<byte>>, rest: seq<byte>)
    requires strings != [] && forall i :: 0 <= i < |strings| ==> strings[i] != [] && 0 !in strings[i]
    ensures FirstDoubleNull(Terminated(strings) + ([0] + rest), |Terminated(strings)| - 1)
  {
    var first, later := strings[0], Terminated(strings[1..]);
    var tail := later + ([0] + rest);
    Reassociate(first, later, [0] + rest);
    if |strings| > 1 {
      StringsEnd(strings[1..], rest);
      FirstByte(strings[1..], [0] + rest);
    }
    StringThen(first, tail, |later| - 1);
  }

  lemma Reassociate(first: seq<byte>, later: seq<byte>, rest: seq<byte>)
    ensures first + [0] + later + rest == first + ([0] + (later + rest))
  {
  }

  /** A string and its NUL put the double NUL further back, unless a NUL follows at once. */
  lemma StringThen(text: seq<byte>, tail: seq<byte>, p: int)
    requires 0 !in text && tail != [] && (if tail[0] == 0 then p == -1 else p >= 0 && FirstDoubleNull(tail, p))
    ensures FirstDoubleNull(text + ([0] + tail), |text| + 1 + p)
  {
    var u := text + ([0] + tail);
    forall k | 0 <= k < |text| + 1 + p ensures u[k] != 0 || u[k + 1] != 0 {
      if k < |text| { assert u[k] == text[k] && text[k] in text; }
      if k > |text| { assert u[k] == tail[k - |text| - 1] && u[k + 1] == tail[k - |text| - 1 + 1]; }
    }
  }

  lemma FirstByte(strings: seq<seq<byte>>, after: seq<byte>)
    requires strings != [] && strings[0] != [] && 0 !in strings[0]
    ensures (Terminated(strings) + after)[0] != 0
  {
    assert (Terminated(strings) + after)[0] == strings[0][0];
    assert strings[0][0] in strings[0];
  }

  lemma {:induction false} StringLengthIs(u: seq<byte>, n: nat)
    requires n < |u| && u[n] == 0 && forall k :: 0 <= k < n ==> u[k] != 0
    ensures StringLength(u) == n
  {
    if n > 0 { StringLengthIs(u[1..], n - 1); }
  }

  lemma StringInFront(text: seq<byte>, rest: seq<byte>)
    requires text != [] && 0 !in text
    ensures var u := text + ([0] + rest);
      |text| < |u| && u[0] != 0 && StringLength(u) == |text| && u[..|text|] == text && u[|text| + 1..] == rest
  {
    var u := text + ([0] + rest);
    forall k | 0 <= k < |text| ensures u[k] != 0 { assert u[k] == text[k] && text[k] in text; }
    assert u[|text|] == 0;
    StringLengthIs(u, |text|);
  }

  lemma TakeFirstString(text: seq<byte>, rest: seq<byte>)
    requires text != [] && 0 !in text
    ensures StringsOf(text + ([0] + rest)) == [text] + StringsOf(rest)
  {
    StringInFront(text, rest);
    TakeString(text + ([0] + rest), |text|);
  }

  lemma {:induction false} StringsReadBack(strings: seq<seq<byte>>)
    requires forall i :: 0 <= i < |strings| ==> strings[i] != [] && 0 !in strings[i]
    ensures StringsOf(Terminated(strings) + [0]) == strings
  {
    if strings != [] {
      var rest := Terminated(strings[1..]) + [0];
      Reassociate(strings[0], Terminated(strings[1..]), [0]);
      TakeFirstString(strings[0], rest);
      StringsReadBack(strings[1..]);
    }
  }

  lemma {:induction false} StringLengthMeaning(u: seq<byte>)
    ensures 0 !in u[..StringLength(u)]
  {
    if u != [] && u[0] != 0 {
      StringLengthMeaning(u[1..]);
      assert u[..StringLength(u)] == [u[0]] + u[1..][..StringLength(u[1..])];
    }
  }

  lemma {:induction false} ShortOf(u: seq<byte>, k: nat)
    requires k < |u| && u[k] == 0
    ensures StringLength(u) <= k
  {
    if k > 0 && u[0] != 0 { ShortOf(u[1..], k - 1); }
  }

  /** The strings, each with its NUL, are the front of u, up to the end or a NUL in place of a string. */
  ghost predicate StringsTile(u: seq<byte>, strings: seq<seq<byte>>) {
    var front := Terminated(strings);
    && (forall i :: 0 <= i < |strings| ==> strings[i] != [] && 0 !in strings[i])
    && front <= u && (|front| < |u| ==> u[|front|] == 0)
  }

  lemma OneMoreString(text: seq<byte>, rest: seq<byte>, strings: seq<seq<byte>>)
    requires text != [] && 0 !in text && StringsTile(rest, strings)
    ensures StringsTile(text + [0] + rest, [text] + strings)
  {
    var u := text + [0] + rest;
    assert ([text] + strings)[1..] == strings;
    assert text + [0] + Terminated(strings) <= u;
  }

  lemma {:induction false} StringsTileBytes(u: seq<byte>)
    requires u == [] || u[|u| - 1] == 0
    ensures StringsTile(u, StringsOf(u))
    decreases |u|
  {
    if u != [] && u[0] != 0 {
      var n := StringLength(u);
      StringLengthMeaning(u);
      ShortOf(u, |u| - 1);
      var rest := u[n + 1..];
      assert u == u[..n] + [0] + rest;
      StringsTileBytes(rest);
      OneMoreString(u[..n], rest, StringsOf(rest));
      TakeString(u, n);
    }
  }

  lemma {:induction false} NoDoubleNull(strings: seq<seq<byte>>)
    requires forall i :: 0 <= i < |strings| ==> strings[i] != [] && 0 !in strings[i]
    ensures !EndsInDoubleNull(Terminated(strings))
  {
    if strings != [] {
      var t := strings[0];
      NoDoubleNull(strings[1..]);
      if |strings| > 1 {
        assert strings[1] != [];
        assert |Terminated(strings[1..])| >= 2;
      } else {
        assert Terminated(strings) == t + [0] && t[|t| - 1] in t;
      }
    }
  }

  /** On any structure, well-formed strings or not: the strings found are the front of its unformed
      section, up to where a NUL stands in place of a string. */
  lemma StringsTileFront(u: seq<byte>)
    requires EndsInDoubleNull(u)
    ensures StringsTile(u, StringsOf(u)) && |Terminated(StringsOf(u))| < |u|
  {
    StringsTileBytes(u);
    NoDoubleNull(StringsOf(u));
    if |Terminated(StringsOf(u))| == |u| { assert Terminated(StringsOf(u)) == u; }
  }

  lemma UnformedEnds(strings: seq<seq<byte>>, rest: seq<byte>)
    requires forall i :: 0 <= i < |strings| ==> strings[i] != [] && 0 !in strings[i]
    ensures DoubleNull(Unformed(strings) + rest) == Some(|Unformed(strings)| - 2)
  {
    if strings == [] {
      assert FirstDoubleNull([0, 0] + rest, 0);
    } else {
      StringsEnd(strings, rest);
      assert Terminated(strings) + [0] + rest == Terminated(strings) + ([0] + rest);
    }
    DoubleNullIs(Unformed(strings) + rest, |Unformed(strings)| - 2);
  }

  lemma FrontSize(data: seq<byte>, area: seq<byte>, rest: seq<byte>, accepts: Format)
    requires |data| >= HEADER_SIZE && data[1] == |data| && accepts(data) && |area| >= 2
    requires DoubleNull(area + rest) == Some(|area| - 2)
    ensures StructureSize(data + area + rest, accepts) == Some(|data + area|)
  {
    var table := data + area + rest;
    assert table[..|data|] == data && table[|data|..] == area + rest;
  }

  lemma FirstStructure(e: TableEntry, rest: seq<byte>, accepts: Format)
    requires WellFormed(e, accepts)
    ensures var own := e.data + Unformed(e.strings);
      StructureSize(own + rest, accepts) == Some(|own|) && ViewOk(own, accepts) && EntryOf(own) == e
  {
    var area := Unformed(e.strings);
    UnformedEnds(e.strings, rest);
    StringsReadBack(e.strings);
    FrontSize(e.data, area, rest, accepts);
    assert (e.data + area)[..|e.data|] == e.data && (e.data + area)[|e.data|..] == area;
  }

  /** Round trip: reading the bytes of a list of well-formed structures returns exactly that list,
      formatted areas and numbered strings alike. */
  lemma {:induction false} SerializeRoundTrip(entries: seq<TableEntry>, accepts: Format)
    requires forall i :: 0 <= i < |entries| ==> WellFormed(entries[i], accepts)
    ensures Entries(Serialize(entries), accepts) == entries
  {
    if entries != [] {
      var own, rest := entries[0].data + Unformed(entries[0].strings), Serialize(entries[1..]);
      var table := Serialize(entries);
      assert table == own + rest;
      FirstStructure(entries[0], rest, accepts);
      TakeEntry(table, |own|, accepts);
      assert table[..|own|] == own && table[|own|..] == rest;
      SerializeRoundTrip(entries[1..], accepts);
      assert [entries[0]] + entries[1..] == entries;
    }
  }

  /** In particular the k-th string of each structure is found under number k, and no other number
      finds one. */
  lemma StringNumbersRoundTrip(entries: seq<TableEntry>, accepts: Format, i: nat, k: nat)
    requires forall n :: 0 <= n < |entries| ==> WellFormed(entries[n], accepts)
    requires i < |entries|
    ensures var read := Entries(Serialize(entries), accepts);
      && |read| == |entries|
      && read[i].GetString(k) == (if 1 <= k <= |entries[i].strings| then entries[i].strings[k - 1] else [])
      && (read[i].GetString(k) != [] <==> 1 <= k <= |entries[i].strings|)
  {
    SerializeRoundTrip(entries, accepts);
    assert WellFormed(entries[i], accepts);
  }
}
