/**
 * What pointer words mean (sections "Structs", "Lists", "Inter-Segment Pointers" and "Capabilities" of the Cap'n Proto
 * encoding), stated by how such words are made, and the proof that the reader finds exactly that.
 */
module CapnpMeaning {
  import opened Core
  import opened CapnpReader
  import opened CapnpSafety
  import CapnpTree

  // ---- making pointer words

  /** Offsets a pointer word can hold. */
  predicate Near(offset: int) { -0x2000_0000 <= offset < 0x2000_0000 }

  /** An offset in two's complement. */
  function Bits30(offset: int): (d: nat)
    requires Near(offset)
    ensures d < 0x4000_0000
  {
    if offset < 0 then offset + 0x4000_0000 else offset
  }

  function StructWord(offset: int, data: nat, pointers: nat): nat
    requires Near(offset)
  {
    Bits30(offset) * 4 + data * U32 + pointers * 0x1_0000_0000_0000
  }

  function ListWord(offset: int, size: nat, count: nat): nat
    requires Near(offset)
  {
    Bits30(offset) * 4 + 1 + size * U32 + count * 0x8_0000_0000
  }

  /** The tag before the elements of a composite list. */
  function TagWord(count: nat, data: nat, pointers: nat): nat
  {
    count * 4 + data * U32 + pointers * 0x1_0000_0000_0000
  }

  function FarWord(two: bool, slot: nat, segment: nat): nat { 2 + (if two then 4 else 0) + slot * 8 + segment * U32 }

  function CapWord(index: nat): nat { 3 + index * U32 }

  /** The bits of a list element, by its size code; pointers are words, and composite lists count words. */
  const ELEMENT_BITS: seq<nat> := [0, 1, 8, 16, 32, 64, 64]

  /** A list fills the fewest words that hold all its bits. */
  lemma ListFillsWords(size: nat, count: nat)
    requires size < 7
    ensures count * ELEMENT_BITS[size] <= 64 * ListWords(size, count) < count * ELEMENT_BITS[size] + 64
  {
    var bits := count * ELEMENT_BITS[size];
    assert ELEMENT_BITS[size] == Bits(size);
    var q, r := (bits + 63) / 64, (bits + 63) % 64;
    assert bits + 63 == 64 * q + r;
  }

  // ---- where an object is

  /** The first word an object occupies, a composite list's tag included. */
  function First(v: Value): int
    requires v.StructValue? || v.ListValue?
  {
    if v.ListValue? && v.elementSize == 7 then v.word - 1 else v.word
  }

  predicate Claims(segments: seq<Bytes>, w: nat, offset: int, v: Value, words: nat)
    requires v.ListValue? && Near(offset)
  {
    && words < 0x2000_0000 && v.word >= 1 && w == ListWord(offset, 7, words)
    && InRange(segments, v.segment, v.word - 1, words + 1)
    && v.count < 0x4000_0000 && v.dataWords < U16 && v.pointers < U16
    && WordAt(segments[v.segment], v.word - 1) == TagWord(v.count, v.dataWords, v.pointers)
    && v.count * (v.dataWords + v.pointers) <= words
  }

  /** The word, with this offset in it, describes the object at v. */
  ghost predicate Describes(segments: seq<Bytes>, w: nat, offset: int, v: Value)
  {
    Near(offset) &&
    match v
    case StructValue(seg, word, data, pointers, _) =>
      data < U16 && pointers < U16 && w == StructWord(offset, data, pointers)
          && InRange(segments, seg, word, data + pointers)
    case ListValue(seg, word, size, count, data, pointers, _) =>
      if size == 7 then exists words: nat :: Claims(segments, w, offset, v, words)
      else size < 7 && data == 0 && pointers == 0 && count < 0x2000_0000 && w == ListWord(offset, size, count)
           && InRange(segments, seg, word, ListWords(size, count))
    case _ => false
  }

  predicate Holds(segments: seq<Bytes>, seg: nat, slot: nat, w: nat)
  {
    InRange(segments, seg, slot, 1) && WordAt(segments[seg], slot) == w
  }

  /** The slot's own word describes the object: its offset counts from the next word. */
  ghost predicate ByNear(segments: seq<Bytes>, seg: nat, slot: nat, v: Value)
  {
    && InRange(segments, seg, slot, 1) && WordAt(segments[seg], slot) != 0 && (v.StructValue? || v.ListValue?)
    && v.segment == seg && Describes(segments, WordAt(segments[seg], slot), First(v) - (slot + 1), v)
  }

  ghost predicate ByCap(segments: seq<Bytes>, seg: nat, slot: nat, v: Value)
  {
    v.CapValue? && v.cap < U32 && Holds(segments, seg, slot, CapWord(v.cap))
  }

  /** A far pointer to a pad that describes the object as a slot of its own segment would. */
  ghost predicate ByFar(segments: seq<Bytes>, seg: nat, slot: nat, v: Value, pad: nat, padSegment: nat)
  {
    pad < 0x2000_0000 && padSegment < U32 && Holds(segments, seg, slot, FarWord(false, pad, padSegment))
    && ByNear(segments, padSegment, pad, v)
  }

  /** A far pointer to two words: a far pointer to the content, then a description without an offset. */
  ghost predicate ByDoubleFar(segments: seq<Bytes>, seg: nat, slot: nat, v: Value, pad: nat, padSegment: nat)
  {
    && pad < 0x2000_0000 && padSegment < U32 && Holds(segments, seg, slot, FarWord(true, pad, padSegment))
    && InRange(segments, padSegment, pad, 2) && (v.StructValue? || v.ListValue?)
    && 0 <= First(v) < 0x2000_0000 && v.segment < U32
    && WordAt(segments[padSegment], pad) == FarWord(false, First(v), v.segment)
    && Describes(segments, WordAt(segments[padSegment], pad + 1), 0, v)
  }

  /** What the slot refers to. */
  ghost predicate Locates(segments: seq<Bytes>, seg: nat, slot: nat, v: Value, depth: nat)
  {
    && !v.NullValue? && v.depth == depth
    && (ByNear(segments, seg, slot, v) || ByCap(segments, seg, slot, v)
        || (exists pad, padSegment :: ByFar(segments, seg, slot, v, pad, padSegment))
        || (exists pad, padSegment :: ByDoubleFar(segments, seg, slot, v, pad, padSegment)))
  }

  // ---- the fields of made words

  lemma HalfWords(p: nat)
    requires p < U64
    ensures p == p % U32 + U32 * (p / U32) && p / U32 < U32
    ensures p % U32 == p % 4 + 4 * (p / 4 % 0x4000_0000)
    ensures p / U32 == DataWords(p) + U16 * PointerCount(p)
    ensures p / U32 == ElementSize(p) + 8 * ElementCount(p)
  {
    var h := p / U32;
    assert p == p % U32 + U32 * h;
    LowForms(p);
    assert p % U32 == 4 * (p % U32 / 4) + p % U32 % 4;
    LowTwo(p);
    HighHalves(p);
  }

  lemma LowTwo(p: nat)
    ensures p % U32 % 4 == p % 4
  {
    assert p == U32 * (p / U32) + p % U32;
    assert p == 4 * (0x4000_0000 * (p / U32) + p % U32 / 4) + p % U32 % 4;
  }

  lemma HighHalves(p: nat)
    requires p < U64
    ensures p / U32 == DataWords(p) + U16 * PointerCount(p)
    ensures p / U32 == ElementSize(p) + 8 * ElementCount(p)
  {
    var h := p / U32;
    CapnpTree.Parts48(p);
    CapnpTree.Parts35(p);
    assert h / U16 < U16 && h / 8 < 0x2000_0000;
    assert h == U16 * (h / U16) + h % U16 && h == 8 * (h / 8) + h % 8;
  }

  lemma OffsetBits(p: nat, offset: int)
    requires Near(offset)
    ensures Offset(p) == offset <==> p / 4 % 0x4000_0000 == Bits30(offset)
  {
  }

  lemma IsStructWord(p: nat, offset: int, data: nat, pointers: nat)
    requires p < U64 && Near(offset) && data < U16 && pointers < U16
    ensures p == StructWord(offset, data, pointers) <==>
              Tag(p) == 0 && Offset(p) == offset && DataWords(p) == data && PointerCount(p) == pointers
  {
    hide DataWords, PointerCount, ElementSize, ElementCount, Offset, Bits30;
    OffsetBits(p, offset);
    if p == StructWord(offset, data, pointers) { CapnpTree.StackedStruct(Bits30(offset), data, pointers, p); }
    HalfWords(p);
  }

  lemma IsTagWord(p: nat, count: nat, data: nat, pointers: nat)
    requires p < U64 && count < 0x4000_0000 && data < U16 && pointers < U16
    ensures p == TagWord(count, data, pointers) <==>
              Tag(p) == 0 && TagCount(p) == count && DataWords(p) == data && PointerCount(p) == pointers
  {
    hide DataWords, PointerCount, ElementSize, ElementCount;
    if p == TagWord(count, data, pointers) { CapnpTree.StackedStruct(count, data, pointers, p); }
    HalfWords(p);
  }

  lemma IsListWord(p: nat, offset: int, size: nat, count: nat)
    requires p < U64 && Near(offset) && size < 8 && count < 0x2000_0000
    ensures p == ListWord(offset, size, count) <==>
              Tag(p) == 1 && Offset(p) == offset && ElementSize(p) == size && ElementCount(p) == count
  {
    hide DataWords, PointerCount, ElementSize, ElementCount, Offset, Bits30;
    OffsetBits(p, offset);
    if p == ListWord(offset, size, count) { CapnpTree.StackedList(Bits30(offset), size, count, p); }
    HalfWords(p);
  }

  lemma IsFarWord(p: nat, two: bool, slot: nat, segment: nat)
    requires p < U64 && slot < 0x2000_0000 && segment < U32
    ensures p == FarWord(two, slot, segment) <==>
              Tag(p) == 2 && TwoWordPad(p) == two && PadSlot(p) == slot && High(p) == segment
  {
    var low, h := p % U32, p / U32;
    assert p == U32 * h + low;
    LowForms(p);
    LowTwo(p);
    ThirdBit(p);
    if p == FarWord(two, slot, segment) {
      FarParts(2 + (if two then 4 else 0), slot, segment, p);
    }
  }

  /** Three low bits, then 29, then 32. */
  lemma FarParts(low: nat, slot: nat, segment: nat, p: nat)
    requires low < 8 && slot < 0x2000_0000 && segment < U32 && p == low + slot * 8 + segment * U32
    ensures p / U32 == segment && p % U32 == low + slot * 8 && p % U32 / 8 == slot && p % U32 % 8 == low
  {
  }

  lemma ThirdBit(p: nat)
    ensures p % U32 == p % 4 + (if TwoWordPad(p) then 4 else 0) + 8 * (p % U32 / 8)
    ensures p % U32 % 8 == p % 4 + if TwoWordPad(p) then 4 else 0
  {
    hide TwoWordPad;
    LowThree(p);
    LowThreeOfLow(p);
    assert p % U32 == 8 * (p % U32 / 8) + p % U32 % 8;
  }

  lemma LowThree(p: nat)
    ensures p % 8 == p % 4 + if TwoWordPad(p) then 4 else 0
  {
    var q := p / 4;
    assert p == 4 * q + p % 4 && q == 2 * (q / 2) + q % 2;
    assert p == 8 * (q / 2) + (p % 4 + 4 * (q % 2));
  }

  lemma LowThreeOfLow(p: nat)
    ensures p % U32 % 8 == p % 8
  {
    assert p == U32 * (p / U32) + p % U32;
    assert p == 8 * (0x2000_0000 * (p / U32) + p % U32 / 8) + p % U32 % 8;
  }

  lemma IsCapWord(p: nat, index: nat)
    requires p < U64 && index < U32
    ensures p == CapWord(index) <==> Tag(p) == 3 && Low(p) == 3 && High(p) == index
  {
    LowTwo(p);
    assert p == U32 * (p / U32) + p % U32;
  }

  // ---- the reader finds what is located, and nothing else

  lemma OffsetNear(p: nat)
    ensures Near(Offset(p))
  {
  }

  /** The object found at a target is what the word describes. */
  lemma ObjectDescribed(r: Reader, seg: nat, target: int, p: nat, depth: nat)
    requires Tag(p) <= 1 && p < U64 && r.error == Ok
    ensures var v := Object(r, seg, target, p, depth).v;
            !v.NullValue? ==>
                (v.StructValue? || v.ListValue?) && v.segment == seg && First(v) == target && v.depth == depth
                              && Describes(r.segments, p, Offset(p), v)
  {
    hide Tag, DataWords, PointerCount, ElementSize, ElementCount, TagCount, ListWords, WordAt, Offset, StructWord,
        ListWord, TagWord;
    OffsetNear(p);
    var v := Object(r, seg, target, p, depth).v;
    if !v.NullValue? {
      if Tag(p) == 0 {
        IsStructWord(p, Offset(p), DataWords(p), PointerCount(p));
      } else {
        IsListWord(p, Offset(p), ElementSize(p), ElementCount(p));
        if ElementSize(p) == 7 {
          var tag := WordAt(r.segments[seg], target);
          IsTagWord(tag, TagCount(tag), DataWords(tag), PointerCount(tag));
          assert Claims(r.segments, p, Offset(p), v, ElementCount(p));
        }
      }
    }
  }

  /** A described object is found, if it can be paid for. */
  lemma ObjectReached(r: Reader, p: nat, v: Value)
    requires p < U64 && r.error == Ok && (v.StructValue? || v.ListValue?) && Describes(r.segments, p, Offset(p), v)
    requires 0 <= First(v) < U32 && Tag(p) <= 1 && ObjectCharge(p) <= r.budget
    ensures var g := Object(r, v.segment, First(v), p, v.depth); g.v == v && g.r.error == Ok
  {
    hide Tag, DataWords, PointerCount, ElementSize, ElementCount, TagCount, ListWords, WordAt, Offset, StructWord,
        ListWord, TagWord;
    if v.StructValue? {
      IsStructWord(p, Offset(p), v.dataWords, v.pointers);
    } else if v.elementSize == 7 {
      var words: nat :| Claims(r.segments, p, Offset(p), v, words);
      IsListWord(p, Offset(p), 7, words);
      var tag := WordAt(r.segments[v.segment], v.word - 1);
      IsTagWord(tag, v.count, v.dataWords, v.pointers);
    } else {
      IsListWord(p, Offset(p), v.elementSize, v.count);
    }
  }

  /** Only struct and list words describe objects, and they say by which offset. */
  lemma DescribesByOffset(segments: seq<Bytes>, p: nat, offset: int, v: Value)
    requires p < U64 && Describes(segments, p, offset, v)
    ensures Tag(p) <= 1 && Offset(p) == offset && (v.StructValue? || v.ListValue?)
    ensures v.segment < |segments| && 0 <= First(v) <= |segments[v.segment]| / 8
  {
    hide Tag, DataWords, PointerCount, ElementSize, ElementCount, TagCount, ListWords, WordAt, Offset, StructWord,
        ListWord, TagWord;
    if v.StructValue? {
      IsStructWord(p, offset, v.dataWords, v.pointers);
    } else if v.elementSize == 7 {
      var words: nat :| Claims(segments, p, offset, v, words);
      IsListWord(p, offset, 7, words);
    } else {
      IsListWord(p, offset, v.elementSize, v.count);
    }
  }

  /** Whatever following a slot finds, the slot locates. */
  lemma FollowFinds(r: Reader, seg: nat, slot: nat, depth: nat)
    requires r.error == Ok
    ensures var v := Follow(r, seg, slot, depth).v; !v.NullValue? ==> Locates(r.segments, seg, slot, v, depth)
  {
    hide Tag, Offset, WordAt, Object, Landing, Describes, High, Low, CapWord, ByFar, ByDoubleFar;
    var v := Follow(r, seg, slot, depth).v;
    if !v.NullValue? {
      var s, p := Charge(r, 1), WordAt(r.segments[seg], slot);
      if Tag(p) == 2 {
        LandingFinds(s, seg, slot, p, depth);
      } else if Tag(p) == 3 {
        IsCapWord(p, High(p));
      } else {
        ObjectDescribed(s, seg, slot + 1 + Offset(p), p, depth);
      }
    }
  }

  lemma LandingFinds(r: Reader, seg: nat, slot: nat, p: nat, depth: nat)
    requires r.error == Ok && Holds(r.segments, seg, slot, p) && Tag(p) == 2
    ensures var v := Landing(r, p, depth).v;
            !v.NullValue? ==>
              && v.depth == depth
              && ((exists pad, padSegment :: ByFar(r.segments, seg, slot, v, pad, padSegment))
                  || (exists pad, padSegment :: ByDoubleFar(r.segments, seg, slot, v, pad, padSegment)))
  {
    hide Tag, Offset, WordAt, Object, Describes, High, PadSlot, TwoWordPad, FarWord;
    var v := Landing(r, p, depth).v;
    if !v.NullValue? {
      var pad, padSegment := PadSlot(p), High(p);
      IsFarWord(p, TwoWordPad(p), pad, padSegment);
      var q := WordAt(r.segments[padSegment], pad);
      if TwoWordPad(p) {
        var tag := WordAt(r.segments[padSegment], pad + 1);
        IsFarWord(q, false, PadSlot(q), High(q));
        ObjectDescribed(Charge(r, 2), High(q), PadSlot(q), tag, depth);
        assert ByDoubleFar(r.segments, seg, slot, v, pad, padSegment);
      } else {
        ObjectDescribed(Charge(r, 1), padSegment, pad + 1 + Offset(q), q, depth);
        assert ByFar(r.segments, seg, slot, v, pad, padSegment);
      }
    }
  }

  /** Whatever a slot locates, following it finds, within the depth and if it can be paid for. */
  lemma FollowReaches(r: Reader, seg: nat, slot: nat, v: Value, depth: nat)
    requires r.error == Ok && Sound(r.segments) && depth <= 32 && Locates(r.segments, seg, slot, v, depth)
    requires Sum(SlotCharges(r.segments, seg, slot)) <= r.budget
    ensures Follow(r, seg, slot, depth).v == v && Follow(r, seg, slot, depth).r.error == Ok
  {
    hide Tag, Offset, WordAt, Object, Landing, Describes, High, Low, CapWord, ObjectCharges, PadCharges, Sound, ByFar,
        ByDoubleFar;
    assert InRange(r.segments, seg, slot, 1) by { LocatesSlot(r.segments, seg, slot, v, depth); }
    var s, p := Charge(r, 1), WordAt(r.segments[seg], slot);
    var rest := if p == 0 then [] else if Tag(p) == 2 then PadCharges(r.segments, p) else ObjectCharges(p);
    SumOne(1, rest);
    TagOfZero(p);
    if ByNear(r.segments, seg, slot, v) {
      DescribesByOffset(r.segments, p, First(v) - (slot + 1), v);
      OneObject(p);
      ShortSegments(r.segments, v);
      ObjectReached(s, p, v);
    } else if ByCap(r.segments, seg, slot, v) {
      IsCapWord(p, v.cap);
    } else {
      LandingReaches(s, seg, slot, v, p, depth);
    }
  }

  lemma LocatesSlot(segments: seq<Bytes>, seg: nat, slot: nat, v: Value, depth: nat)
    requires Locates(segments, seg, slot, v, depth)
    ensures InRange(segments, seg, slot, 1)
  {
    hide InRange, Describes, WordAt;
  }

  lemma SumOne(first: nat, rest: seq<nat>)
    ensures Sum([first] + rest) == first + Sum(rest)
  {
    SumFirst(first, rest, |rest|);
  }

  lemma OneObject(p: nat)
    requires Tag(p) <= 1
    ensures ObjectCharges(p) == [ObjectCharge(p)] && Sum(ObjectCharges(p)) == ObjectCharge(p)
  {
    hide Tag, ObjectCharge;
    assert [ObjectCharge(p)] + [] == [ObjectCharge(p)];
    SumOne(ObjectCharge(p), []);
  }

  lemma ShortSegments(segments: seq<Bytes>, v: Value)
    requires Sound(segments) && (v.StructValue? || v.ListValue?) && v.segment < |segments|
    ensures First(v) <= |segments[v.segment]| / 8 ==> First(v) < 0x2000_0000
  {
  }

  lemma LandingReaches(r: Reader, seg: nat, slot: nat, v: Value, p: nat, depth: nat)
    requires r.error == Ok && Sound(r.segments) && !v.NullValue? && v.depth == depth
        && InRange(r.segments, seg, slot, 1)
    requires p == WordAt(r.segments[seg], slot)
    requires (exists pad, padSegment :: ByFar(r.segments, seg, slot, v, pad, padSegment))
             || (exists pad, padSegment :: ByDoubleFar(r.segments, seg, slot, v, pad, padSegment))
    requires Tag(p) == 2 ==> Sum(PadCharges(r.segments, p)) <= r.budget
    ensures Tag(p) == 2 && p != 0 && Landing(r, p, depth).v == v && Landing(r, p, depth).r.error == Ok
  {
    hide Tag, Offset, WordAt, Object, Describes, High, PadSlot, TwoWordPad, FarWord, Sound, ObjectCharges;
    if pad: nat, padSegment: nat :| ByFar(r.segments, seg, slot, v, pad, padSegment) {
      IsFarWord(p, false, pad, padSegment);
      TagOfZero(p);
      var q := WordAt(r.segments[padSegment], pad);
      DescribesByOffset(r.segments, q, First(v) - (pad + 1), v);
      SumOne(1, ObjectCharges(q));
      OneObject(q);
      ShortSegments(r.segments, v);
      ObjectReached(Charge(r, 1), q, v);
    } else {
      var pad: nat, padSegment: nat :| ByDoubleFar(r.segments, seg, slot, v, pad, padSegment);
      IsFarWord(p, true, pad, padSegment);
      TagOfZero(p);
      var q, tag := WordAt(r.segments[padSegment], pad), WordAt(r.segments[padSegment], pad + 1);
      IsFarWord(q, false, First(v), v.segment);
      DescribesByOffset(r.segments, tag, 0, v);
      SumOne(2, ObjectCharges(tag));
      OneObject(tag);
      ObjectReached(Charge(r, 2), tag, v);
    }
  }

  lemma TagOfZero(p: nat)
    ensures Tag(p) != 0 ==> p != 0
  {
  }

  /** An empty slot is null, and no error. */
  lemma FollowNull(r: Reader, seg: nat, slot: nat, depth: nat)
    requires r.error == Ok && depth <= DEPTH_MAX && Holds(r.segments, seg, slot, 0) && r.budget >= 1
    ensures Follow(r, seg, slot, depth) == Got(Charge(r, 1), NullValue)
  {
    hide WordAt;
  }

  /** A slot locates one value at most. */
  lemma LocatesOne(segments: seq<Bytes>, seg: nat, slot: nat, v: Value, w: Value, depth: nat)
    requires Sound(segments) && depth <= DEPTH_MAX
    requires Locates(segments, seg, slot, v, depth) && Locates(segments, seg, slot, w, depth)
    ensures v == w
  {
    hide Locates, Follow, SlotCharges, Sound, Sum;
    var r := Reader(segments, Sum(SlotCharges(segments, seg, slot)), Ok);
    FollowReaches(r, seg, slot, v, depth);
    FollowReaches(r, seg, slot, w, depth);
  }

  /** A one-word far pointer reads as its landing pad would, read as a slot. */
  lemma FarReadsAsItsPad(r: Reader, seg: nat, slot: nat, pad: nat, padSegment: nat, depth: nat)
    requires r.error == Ok && depth <= DEPTH_MAX && pad < 0x2000_0000 && padSegment < U32 && r.budget >= 1
    requires Holds(r.segments, seg, slot, FarWord(false, pad, padSegment)) && InRange(r.segments, padSegment, pad, 1)
    requires var q := WordAt(r.segments[padSegment], pad); q != 0 && Tag(q) <= 1
    ensures Follow(r, seg, slot, depth) == Follow(Charge(r, 1), padSegment, pad, depth)
  {
    hide Tag, Offset, WordAt, Object, High, PadSlot, TwoWordPad, FarWord;
    var p := WordAt(r.segments[seg], slot);
    IsFarWord(p, false, pad, padSegment);
    TagOfZero(p);
  }
}
