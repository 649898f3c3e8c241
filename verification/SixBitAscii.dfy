/** ParseSixBitAscii of ecclesia/lib/codec/text.cc: 6-bit packed ASCII as in section 13 of the IPMI
    Platform Management FRU Information Storage Definition v1.0 revision 1.2. */
module SixBitAscii {
  import opened Bits
  import opened Wrappers

  /** Bit k of the bytes read as one little-endian bit stream; zero past the end. */
  predicate StreamBit(bytes: seq<byte>, k: nat) {
    k / 8 < |bytes| && Bit(bytes[k / 8], k % 8)
  }

  /** Character i: six stream bits, offset by a space. */
  function CharAt(bytes: seq<byte>, i: nat): char {
    (0x20 + Sextet(bytes, i)) as char
  }

  function Sextet(bytes: seq<byte>, i: nat): (s: nat)
    ensures s < 64
  {
    assert Pow2(6) == 64;
    FromBits(seq(6, (j: nat) => StreamBit(bytes, 6 * i + j)))
  }

  lemma SextetBit(bytes: seq<byte>, i: nat, j: nat)
    ensures Bit(Sextet(bytes, i), j) <==> j < 6 && StreamBit(bytes, 6 * i + j)
  {
    FromBitsBit(seq(6, (j: nat) => StreamBit(bytes, 6 * i + j)), j);
  }

  function Unpack(bytes: seq<byte>): string {
    seq(4 * |bytes| / 3, (i: nat) => CharAt(bytes, i))
  }

  /** The four characters of a full three-byte buffer. */
  method UnpackGroup(w: nat, ghost bytes: seq<byte>, buf: nat, ghost group: nat) returns (chars: string)
    requires w >= 24 && Buffered(bytes, buf, 3 * group, 3) && buf < Pow2(w)
    ensures |chars| == 4 && forall c :: 0 <= c < 4 ==> chars[c] == CharAt(bytes, 4 * group + c)
  {
    ExtractSextet(w, bytes, buf, group, 3, 0);
    ExtractSextet(w, bytes, buf, group, 3, 1);
    ExtractSextet(w, bytes, buf, group, 3, 2);
    ExtractSextet(w, bytes, buf, group, 3, 3);
    chars := [(0x20 + ExtractBits(w, buf, 5, 0)) as char];
    chars := chars + [(0x20 + ExtractBits(w, buf, 11, 6)) as char];
    chars := chars + [(0x20 + ExtractBits(w, buf, 17, 12)) as char];
    chars := chars + [(0x20 + ExtractBits(w, buf, 23, 18)) as char];
  }

  method ParseSixBitAscii(bytes: seq<byte>) returns (value: string)
    ensures value == Unpack(bytes)
  {
    value := ParseWithBuffer(32, bytes);
  }

  /** The parser's two loops, for a buffer of w bits; 24 are enough. */
  method ParseWithBuffer(w: nat, bytes: seq<byte>) returns (value: string)
    requires w >= 24
    ensures value == Unpack(bytes)
  {
    var idx: nat, buf: nat := 0, 0;
    ghost var groups: nat := 0;  // whole three-byte groups so far
    value := [];
    forall k: nat ensures !Bit(0, k) { ZeroHasNoBits(k); }
    for n := 0 to |bytes|
      invariant n == 3 * groups + idx && idx < 3 && buf < Pow2(w)
      invariant Buffered(bytes, buf, 3 * groups, idx)
      invariant |value| == 4 * groups
      invariant forall i :: 0 <= i < |value| ==> value[i] == CharAt(bytes, i)
    {
      AppendByte(w, bytes, buf, 3 * groups, idx);
      buf := Or(w, buf, ShiftLeft(bytes[n], 8 * idx));
      idx := idx + 1;
      if idx == 3 {
        var four := UnpackGroup(w, bytes, buf, groups);
        value := value + four;
        buf, idx, groups := 0, 0, groups + 1;
      }
    }
    var bitIdx := 0;
    ghost var c: nat := 0;
    while bitIdx < idx * 6
      invariant bitIdx == 6 * c && c <= idx
      invariant |value| == 4 * groups + c
      invariant forall i :: 0 <= i < |value| ==> value[i] == CharAt(bytes, i)
    {
      ExtractSextet(w, bytes, buf, groups, idx, c);
      value := value + [(0x20 + ExtractBits(w, buf, bitIdx + 5, bitIdx)) as char];
      bitIdx, c := bitIdx + 6, c + 1;
    }
  }

  /** buf holds the count bytes from position start on, and nothing above them. */
  ghost predicate Buffered(bytes: seq<byte>, buf: nat, start: nat, count: nat) {
    && start + count <= |bytes|
    && forall k: nat :: Bit(buf, k) <==> k < 8 * count && StreamBit(bytes, 8 * start + k)
  }

  lemma AppendByte(w: nat, bytes: seq<byte>, buf: nat, start: nat, count: nat)
    requires w >= 24 && Buffered(bytes, buf, start, count) && count < 3 && start + count < |bytes|
    ensures Buffered(bytes, Or(w, buf, ShiftLeft(bytes[start + count], 8 * count)), start, count + 1)
  {
    var b := bytes[start + count];
    var shifted := ShiftLeft(b, 8 * count);
    assert Pow2(8) == 256;
    forall k: nat
      ensures Bit(Or(w, buf, shifted), k) <==> k < 8 * (count + 1) && StreamBit(bytes, 8 * start + k)
    {
      BitwiseMeaning(w, buf, shifted, k);
      ShiftLeftBit(b, 8 * count, k);
      if k >= 8 * count {
        HighBitsAreZero(8, b, k - 8 * count);
        if k < 8 * count + 8 {
          assert (8 * start + k) / 8 == start + count && (8 * start + k) % 8 == k - 8 * count;
        }
      }
    }
  }

  lemma ExtractSextet(w: nat, bytes: seq<byte>, buf: nat, group: nat, count: nat, c: nat)
    requires w >= 24 && Buffered(bytes, buf, 3 * group, count) && buf < Pow2(w)
    requires count <= 3 && (c < count || (count == 3 && c < 4))
    ensures ExtractBits(w, buf, 6 * c + 5, 6 * c) == Sextet(bytes, 4 * group + c)
  {
    var i := 4 * group + c;
    var x := ExtractBits(w, buf, 6 * c + 5, 6 * c);
    forall j: nat | j < w ensures Bit(x, j) <==> Bit(Sextet(bytes, i), j) {
      ExtractBitsMeaning(w, buf, 6 * c + 5, 6 * c, j);
      SextetBit(bytes, i, j);
    }
    Pow2Monotone(6, w);
    assert Pow2(6) == 64;
    BitsDetermineWord(w, x, Sextet(bytes, i));
  }

  /** Text the format can carry: the 64 characters from space to underscore. */
  predicate Packable(text: string) {
    forall i :: 0 <= i < |text| ==> 0x20 <= text[i] as int < 0x60
  }

  /** Bit k of the six-bit codes of a text, laid end to end; zero past the end. */
  predicate TextBit(text: string, k: nat)
    requires Packable(text)
  {
    k / 6 < |text| && Bit(text[k / 6] as int - 0x20, k % 6)
  }

  /** Packing a text: as many bytes as the codes need, zero bits filling the last. */
  function Pack(text: string): (bytes: seq<byte>)
    requires Packable(text)
  {
    seq((6 * |text| + 7) / 8, (j: nat) => PackedByte(text, j))
  }

  function PackedByte(text: string, j: nat): byte
    requires Packable(text)
  {
    assert Pow2(8) == 256;
    FromBits(seq(8, (b: nat) => Packable(text) && TextBit(text, 8 * j + b)))
  }

  lemma PackedStream(text: string, k: nat)
    requires Packable(text)
    ensures StreamBit(Pack(text), k) == TextBit(text, k)
  {
    if k / 8 < |Pack(text)| {
      FromBitsBit(seq(8, (b: nat) => Packable(text) && TextBit(text, 8 * (k / 8) + b)), k % 8);
    } else {
      assert k >= 6 * |text|;
    }
  }

  /** Parsing what Pack wrote gives the text back, with one space added when its length is
      3 modulo 4 (the six bits left over in the last byte). */
  lemma RoundTrip(text: string)
    requires Packable(text)
    ensures Unpack(Pack(text)) == text + (if |text| % 4 == 3 then " " else "")
  {
    var expected := text + (if |text| % 4 == 3 then " " else "");
    forall i | 0 <= i < |expected| ensures CharAt(Pack(text), i) == expected[i] {
      RoundTripChar(text, i, expected[i]);
    }
  }

  lemma RoundTripChar(text: string, i: nat, c: char)
    requires Packable(text) && i <= |text|
    requires c == if i < |text| then text[i] else ' '
    ensures CharAt(Pack(text), i) == c
  {
    var code := c as int - 0x20;
    assert Pow2(6) == 64;
    forall j: nat | j < 6 ensures Bit(Sextet(Pack(text), i), j) <==> Bit(code, j) {
      SextetBit(Pack(text), i, j);
      PackedStream(text, 6 * i + j);
      ZeroHasNoBits(j);
      assert (6 * i + j) / 6 == i && (6 * i + j) % 6 == j;
    }
    BitsDetermineWord(6, Sextet(Pack(text), i), code);
  }
}
