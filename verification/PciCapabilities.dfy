/** PciConfigSpace::ForEachCapability (ecclesia/lib/io/pci/config.cc): the capability list is a
    linked list of offsets stored in the device's own bytes, which nothing can be trusted about. */
module PciCapabilities {
  import opened Bits
  import opened Wrappers

  /** Where a capability may start; its header is two bytes. */
  type Offset = x: nat | x <= 0xfc

  /** A byte read from the region, or a read that failed. */
  datatype Read = Value(b: byte) | Failed

  /** The 256 bytes of configuration space. */
  type ConfigSpace = s: seq<Read> | |s| == 256 witness seq(256, _ => Failed)

  const CAP_POINTER_OFFSET: byte := 0x34
  const NEXT_CAP_PTR_OFFSET: byte := 0x01
  const MAX_PCI_CAPABILITIES: nat := 48

  /** cap_ptr & 0xfc: the two low bits cleared. */
  function CapabilityPointerToOffset(ptr: byte): Offset {
    ptr - ptr % 4
  }

  lemma {:induction false} OffsetBits(ptr: byte, i: nat)
    ensures Bit(CapabilityPointerToOffset(ptr), i) <==> i >= 2 && Bit(ptr, i)
  {
    var offset := CapabilityPointerToOffset(ptr);
    assert offset % 2 == 0 && offset / 2 % 2 == 0 && offset / 2 / 2 == ptr / 2 / 2;
    if i >= 2 { assert Bit(offset, i) == Bit(offset / 2 / 2, i - 2) && Bit(ptr, i) == Bit(ptr / 2 / 2, i - 2); }
  }

  datatype Status = Success | ReadError | CallbackError | TooManyCapabilities | CircularList

  /** Where following the list has led: a capability, the end of the list, or a failed read. */
  datatype Node = At(offset: Offset) | End | Unreadable

  function Decode(r: Read): Node {
    match r
    case Failed => Unreadable
    case Value(ptr) => if CapabilityPointerToOffset(ptr) == 0 then End else At(CapabilityPointerToOffset(ptr))
  }

  function Follow(space: ConfigSpace, node: Node): Node {
    if node.At? then Decode(space[node.offset + NEXT_CAP_PTR_OFFSET]) else node
  }

  /** The n-th node of the chain of masked pointers that starts at 0x34. */
  function Chain(space: ConfigSpace, n: nat): Node {
    if n == 0 then Decode(space[CAP_POINTER_OFFSET]) else Follow(space, Chain(space, n - 1))
  }

  ghost predicate NoDuplicates(s: seq<Offset>) {
    forall i, j :: 0 <= i < j < |s| ==> s[i] != s[j]
  }

  /** What a walk may report. `seen` lists the callback's calls in order; the callback is the set of
      offsets it returns an error for. */
  ghost predicate WalkResult(space: ConfigSpace, rejects: set<Offset>, status: Status, seen: seq<Offset>) {
    && NoDuplicates(seen) && |seen| <= MAX_PCI_CAPABILITIES
    && (forall i :: 0 <= i < |seen| ==> Chain(space, i) == At(seen[i]))
    && (forall i :: 0 <= i < |seen| && seen[i] in rejects ==> i == |seen| - 1 && status == CallbackError)
    && match status
       case Success => Chain(space, |seen|) == End
       case ReadError => Chain(space, |seen|) == Unreadable
       case CallbackError => seen != [] && seen[|seen| - 1] in rejects
       case TooManyCapabilities => |seen| == MAX_PCI_CAPABILITIES && Chain(space, |seen|).At?
       case CircularList =>
         |seen| < MAX_PCI_CAPABILITIES && Chain(space, |seen|).At? && Chain(space, |seen|).offset in seen
  }

  /** The walk so far, about to look at nextPtr. */
  ghost predicate Walking(space: ConfigSpace, rejects: set<Offset>, seen: seq<Offset>, nextPtr: byte) {
    && NoDuplicates(seen)
    && (forall i :: 0 <= i < |seen| ==> Chain(space, i) == At(seen[i]) && seen[i] !in rejects)
    && Chain(space, |seen|) == Decode(Value(nextPtr))
  }

  lemma VisitNext(space: ConfigSpace, rejects: set<Offset>, seen: seq<Offset>, nextPtr: byte, capPtr: Offset)
    requires Walking(space, rejects, seen, nextPtr) && Chain(space, |seen|) == At(capPtr) && capPtr !in seen
    ensures NoDuplicates(seen + [capPtr])
    ensures forall i :: 0 <= i < |seen| + 1 ==> Chain(space, i) == At((seen + [capPtr])[i])
    ensures Chain(space, |seen| + 1) == Decode(space[capPtr + NEXT_CAP_PTR_OFFSET])
  {
    assert Chain(space, |seen| + 1) == Follow(space, Chain(space, |seen|));
  }

  /** One visit: call back on capPtr, then read the pointer behind it. */
  method Visit(space: ConfigSpace, rejects: set<Offset>, seen: seq<Offset>, nextPtr: byte, capPtr: Offset)
    returns (stopped: Option<Status>, next: byte)
    requires Walking(space, rejects, seen, nextPtr) && |seen| < MAX_PCI_CAPABILITIES
    requires Chain(space, |seen|) == At(capPtr) && capPtr !in seen
    ensures stopped.Some? ==> WalkResult(space, rejects, stopped.value, seen + [capPtr])
    ensures stopped.None? ==> Walking(space, rejects, seen + [capPtr], next)
  {
    VisitNext(space, rejects, seen, nextPtr, capPtr);
    next := 0;
    if capPtr in rejects {
      return Some(CallbackError), next;
    }
    var read := space[capPtr + NEXT_CAP_PTR_OFFSET];
    if read.Failed? {
      return Some(ReadError), next;
    }
    stopped, next := None, read.b;
  }

  method ForEachCapability(space: ConfigSpace, rejects: set<Offset>) returns (status: Status, seen: seq<Offset>)
    ensures WalkResult(space, rejects, status, seen)
  {
    seen := [];
    var first := space[CAP_POINTER_OFFSET];
    if first.Failed? { return ReadError, seen; }
    var nextPtr := first.b;
    var visitedOffsets: set<Offset> := {};
    var capPtr := CapabilityPointerToOffset(nextPtr);
    while capPtr != 0
      invariant capPtr == CapabilityPointerToOffset(nextPtr) && Walking(space, rejects, seen, nextPtr)
      invariant |seen| == |visitedOffsets| <= MAX_PCI_CAPABILITIES
      invariant forall c :: c in visitedOffsets <==> c in seen
      decreases MAX_PCI_CAPABILITIES - |seen|
    {
      if |visitedOffsets| == MAX_PCI_CAPABILITIES {
        return TooManyCapabilities, seen;
      }
      if capPtr in visitedOffsets {
        return CircularList, seen;
      }
      var stopped, next := Visit(space, rejects, seen, nextPtr, capPtr);
      visitedOffsets := visitedOffsets + {capPtr};
      seen := seen + [capPtr];
      if stopped.Some? {
        return stopped.value, seen;
      }
      nextPtr := next;
      capPtr := CapabilityPointerToOffset(nextPtr);
    }
    status := Success;
  }

  /** The list ends after n capabilities, at most 48, all readable and accepted by the callback. */
  ghost predicate EndsAfter(space: ConfigSpace, rejects: set<Offset>, n: nat) {
    && n <= MAX_PCI_CAPABILITIES && Chain(space, n) == End
    && forall i: nat :: i < n ==> Chain(space, i).At? && Chain(space, i).offset !in rejects
  }

  /** Once the chain returns to an earlier capability it goes round for ever. */
  lemma {:induction false} RepeatNeverEnds(space: ConfigSpace, i: nat, j: nat, n: nat)
    requires i < j && Chain(space, i) == Chain(space, j)
    requires forall k: nat :: k < j ==> Chain(space, k).At?
    ensures Chain(space, n).At?
    decreases n
  {
    if n >= j {
      SameSuffix(space, i, j, n - j);
      RepeatNeverEnds(space, i, j, n - (j - i));
    }
  }

  lemma {:induction false} SameSuffix(space: ConfigSpace, i: nat, j: nat, d: nat)
    requires Chain(space, i) == Chain(space, j)
    ensures Chain(space, i + d) == Chain(space, j + d)
  {
    if d > 0 { SameSuffix(space, i, j, d - 1); }
  }

  /** The walk succeeds exactly for the lists that end after at most 48 readable capabilities
      which the callback accepts, and then the callback saw the whole list. */
  lemma SucceedsExactlyForFiniteLists(space: ConfigSpace, rejects: set<Offset>, status: Status, seen: seq<Offset>)
    requires WalkResult(space, rejects, status, seen)
    ensures status == Success <==> exists n: nat :: EndsAfter(space, rejects, n)
    ensures forall n: nat :: EndsAfter(space, rejects, n) ==> status == Success && n == |seen|
  {
    if status == Success { assert EndsAfter(space, rejects, |seen|); }
    forall n: nat | EndsAfter(space, rejects, n) ensures status == Success && n == |seen| {
      if status == CircularList {
        var i :| 0 <= i < |seen| && seen[i] == Chain(space, |seen|).offset;
        RepeatNeverEnds(space, i, |seen|, n);
      }
    }
  }

  /** WalkResult leaves no freedom: status and calls are determined by the bytes. */
  lemma WalkResultUnique(space: ConfigSpace, rejects: set<Offset>, s1: Status, seen1: seq<Offset>, s2: Status,
                         seen2: seq<Offset>)
    requires WalkResult(space, rejects, s1, seen1) && WalkResult(space, rejects, s2, seen2)
    ensures s1 == s2 && seen1 == seen2
  {
    LengthsAgree(space, rejects, s1, seen1, s2, seen2);
    LengthsAgree(space, rejects, s2, seen2, s1, seen1);
    forall i | 0 <= i < |seen1| ensures seen1[i] == seen2[i] {
      assert Chain(space, i) == At(seen1[i]);
    }
  }

  lemma LengthsAgree(space: ConfigSpace, rejects: set<Offset>, s1: Status, seen1: seq<Offset>, s2: Status,
                     seen2: seq<Offset>)
    requires WalkResult(space, rejects, s1, seen1) && WalkResult(space, rejects, s2, seen2)
    ensures |seen2| <= |seen1|
  {
  }

  // ---- Capability lists as they are laid out ----------------------------------------------------------

  /** The byte at that offset points to `target`; its two low bits are reserved and may be anything. */
  predicate Points(space: ConfigSpace, at: nat, target: nat)
    requires at < 256
  {
    space[at].Value? && target <= space[at].b < target + 4
  }

  /** The capabilities at `offsets`, in that order: byte 0x34 points to the first, the second byte of
      each to the next one, and the last pointer is null. */
  ghost predicate LaidOut(space: ConfigSpace, offsets: seq<Offset>) {
    && (forall i :: 0 <= i < |offsets| ==> offsets[i] > 0 && offsets[i] % 4 == 0)
    && NoDuplicates(offsets)
    && Points(space, 0x34, if offsets == [] then 0 else offsets[0])
    && forall i :: 0 <= i < |offsets| ==> PointsOn(space, offsets, i)
  }

  predicate PointsOn(space: ConfigSpace, offsets: seq<Offset>, i: nat)
    requires i < |offsets|
  {
    var at: nat := offsets[i];
    Points(space, at + 1, if i + 1 < |offsets| then offsets[i + 1] else 0)
  }

  lemma DecodePointer(r: Read, target: nat)
    requires target % 4 == 0 && target <= 0xfc
    ensures (r.Value? && target <= r.b < target + 4) <==> Decode(r) == if target == 0 then End else At(target)
  {
  }

  lemma {:induction false} ChainOfLayout(space: ConfigSpace, offsets: seq<Offset>, n: nat)
    requires LaidOut(space, offsets) && n <= |offsets|
    ensures Chain(space, n) == if n < |offsets| then At(offsets[n]) else End
  {
    var target := if n < |offsets| then offsets[n] else 0;
    if n == 0 {
      DecodePointer(space[0x34], target);
    } else {
      ChainOfLayout(space, offsets, n - 1);
      assert PointsOn(space, offsets, n - 1);
      DecodePointer(space[offsets[n - 1] + 1], target);
    }
  }

  lemma AtIsAligned(space: ConfigSpace, n: nat)
    requires Chain(space, n).At?
    ensures Chain(space, n).offset > 0 && Chain(space, n).offset % 4 == 0
    decreases n
  {
    if n > 0 && Chain(space, n - 1).At? { assert Chain(space, n) == Follow(space, Chain(space, n - 1)); }
  }

  lemma ChainIsLayout(space: ConfigSpace, rejects: set<Offset>, seen: seq<Offset>)
    requires WalkResult(space, rejects, Success, seen)
    ensures LaidOut(space, seen)
  {
    forall i | 0 <= i < |seen| ensures seen[i] > 0 && seen[i] % 4 == 0 && PointsOn(space, seen, i) {
      AtIsAligned(space, i);
      assert Chain(space, i) == At(seen[i]);
      assert Chain(space, i + 1) == Decode(space[seen[i] + 1]);
      if i + 1 < |seen| {
        assert Chain(space, i + 1) == At(seen[i + 1]);
        AtIsAligned(space, i + 1);
      }
      DecodePointer(space[seen[i] + 1], if i + 1 < |seen| then seen[i + 1] else 0);
    }
    if seen != [] { assert Chain(space, 0) == At(seen[0]); }
    DecodePointer(space[0x34], if seen == [] then 0 else seen[0]);
  }

  /** Layout and walk: the walk succeeds exactly on a list of at most 48 capabilities laid out so that
      the callback accepts each, and calls back on exactly that list in order. */
  lemma WalkReadsLayout(space: ConfigSpace, rejects: set<Offset>, status: Status, seen: seq<Offset>,
                        offsets: seq<Offset>)
    requires WalkResult(space, rejects, status, seen)
    ensures status == Success ==> LaidOut(space, seen) && |seen| <= 48 && forall c :: c in seen ==> c !in rejects
    ensures LaidOut(space, offsets) && |offsets| <= 48 && (forall c :: c in offsets ==> c !in rejects) ==>
      status == Success && seen == offsets
  {
    if status == Success { ChainIsLayout(space, rejects, seen); }
    if LaidOut(space, offsets) && |offsets| <= 48 && forall c :: c in offsets ==> c !in rejects {
      forall i: nat | i <= |offsets| ensures Chain(space, i) == if i < |offsets| then At(offsets[i]) else End {
        ChainOfLayout(space, offsets, i);
      }
      assert EndsAfter(space, rejects, |offsets|);
      SucceedsExactlyForFiniteLists(space, rejects, status, seen);
      forall i | 0 <= i < |seen| ensures seen[i] == offsets[i] { assert Chain(space, i) == At(seen[i]); }
    }
  }

  lemma {:induction false} Pigeonhole(s: seq<nat>, n: nat)
    requires forall i :: 0 <= i < |s| ==> s[i] < n
    requires forall i, j :: 0 <= i < j < |s| ==> s[i] != s[j]
    ensures |s| <= n
  {
    if s != [] {
      assert 0 <= s[0] < n;
      if n - 1 in s {
        var k :| 0 <= k < |s| && s[k] == n - 1;
        Pigeonhole(s[..k] + s[k + 1..], n - 1);
      } else {
        Pigeonhole(s, n - 1);
      }
    }
  }

  /** Behind the header, from 0x40 on, there is room for 48 capabilities, so a list laid out there is
      never too long: the walk reads it to its end if the callback accepts it. */
  lemma ListBehindHeaderIsRead(space: ConfigSpace, rejects: set<Offset>, status: Status, seen: seq<Offset>,
                               offsets: seq<Offset>)
    requires WalkResult(space, rejects, status, seen) && LaidOut(space, offsets)
    requires forall i :: 0 <= i < |offsets| ==> offsets[i] >= 0x40
    ensures |offsets| <= 48
    ensures status != TooManyCapabilities && status != CircularList && status != ReadError
    ensures (forall c :: c in offsets ==> c !in rejects) ==> status == Success && seen == offsets
  {
    var slots := seq(|offsets|, i requires 0 <= i < |offsets| => (offsets[i] - 0x40) / 4);
    Pigeonhole(slots, 48);
    WalkReadsLayout(space, rejects, status, seen, offsets);
    forall i: nat | i <= |offsets| ensures Chain(space, i) == if i < |offsets| then At(offsets[i]) else End {
      ChainOfLayout(space, offsets, i);
    }
    assert EndsAfter(space, {}, |offsets|);
  }
}
