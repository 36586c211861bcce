/** Object trees spread over the segments of a message in any way the encoding allows, and what reading them yields. */
module CapnpObjects {
  import opened Core
  import opened CapnpReader
  import opened CapnpSafety
  import opened CapnpMeaning

  /**
   * An object, however it is laid out: refs are a list of pointers, a table a composite list that claims so many words.
   */
  datatype Obj =
    | Nil
    | Cap(index: nat)
    | Record(data: Bytes, slots: seq<Obj>)
    | Blob(bytes: Bytes)
    | Refs(items: seq<Obj>)
    | Table(words: nat, items: seq<Obj>)

  /** A number in the data of a record; what an older record lacks is zero. */
  function Num(o: Obj, byte: nat, width: nat): nat
  {
    if o.Record? && byte + width <= |o.data| then Le(o.data[byte..byte + width]) else 0
  }

  /** What a slot of a record refers to; what an older record lacks is null. */
  function Slot(o: Obj, i: nat): Obj { if o.Record? && i < |o.slots| then o.slots[i] else Nil }

  /** The element of a composite list. */
  function ElementOf(v: Value, i: nat): Value
    requires v.ListValue?
  {
    StructValue(v.segment, v.word + i * (v.dataWords + v.pointers), v.dataWords, v.pointers, v.depth + 1)
  }

  predicate BytesAt(segments: seq<Bytes>, seg: nat, word: nat, b: Bytes)
  {
    seg < |segments| && 8 * word + |b| <= |segments[seg]| && segments[seg][8 * word..8 * word + |b|] == b
  }

  /** The value is the object, with everything below it. */
  ghost predicate Shows(segments: seq<Bytes>, v: Value, o: Obj)
    decreases o, 0
  {
    match o
    case Nil => v.NullValue?
    case Cap(index) => v.CapValue? && v.cap == index
    case Record(data, slots) =>
      && v.StructValue? && |data| == 8 * v.dataWords && |slots| == v.pointers && Inside(segments, v)
      && BytesAt(segments, v.segment, v.word, data)
      && forall i :: 0 <= i < |slots| ==> InSlot(segments, v.segment, v.word + v.dataWords + i, v.depth + 1, slots[i])
    case Blob(bytes) =>
      v.ListValue? && v.elementSize == 2 && v.count == |bytes| && Inside(segments, v)
          && BytesAt(segments, v.segment, v.word, bytes)
    case Refs(items) =>
      && v.ListValue? && v.elementSize == 6 && v.count == |items| && Inside(segments, v)
      && forall i :: 0 <= i < |items| ==> InSlot(segments, v.segment, v.word + i, v.depth + 1, items[i])
    case Table(_, items) =>
      && v.ListValue? && v.elementSize == 7 && v.count == |items| && Inside(segments, v)
      && forall i :: 0 <= i < |items| ==> Shows(segments, ElementOf(v, i), items[i])
  }

  /** The slot refers to the object. */
  ghost predicate InSlot(segments: seq<Bytes>, seg: nat, slot: nat, depth: nat, o: Obj)
    decreases o, 1
  {
    if o.Nil? then Holds(segments, seg, slot, 0)
    else
      exists v ::
        Locates(segments, seg, slot, v, depth) && Shows(segments, v, o)
        && (o.Table? ==> Sum(SlotCharges(segments, seg, slot)) <= 4 + o.words)
  }

  /** A frame whose root refers to the object. */
  ghost predicate Carries(frame: Bytes, o: Obj) { Init(frame).error == Ok && InSlot(Init(frame).segments, 0, 0, 1, o) }

  // ---- what reading costs at most

  /** A slot, its landing pad, and the object's own words. */
  function Own(o: Obj): nat
  {
    match o
    case Nil => 1
    case Cap(_) => 1
    case Record(data, slots) => 3 + Max(1, |data| / 8 + |slots|)
    case Blob(bytes) => 3 + Max(1, (|bytes| + 7) / 8)
    case Refs(items) => 3 + Max(1, |items|)
    case Table(words, items) => 4 + words + |items|
  }

  function Weight(o: Obj): nat
    decreases o, 1
  {
    Own(o) + match o
             case Record(_, slots) => if slots == [] then 0 else WeightAll(slots)
             case Refs(items) => if items == [] then 0 else WeightAll(items)
             case Table(_, items) => if items == [] then 0 else WeightAll(items)
             case _ => 0
  }

  function WeightAll(os: seq<Obj>): nat
    decreases os, 0
  {
    if os == [] then 0 else Weight(os[0]) + WeightAll(os[1..])
  }

  lemma {:induction false} WeightOf(os: seq<Obj>, i: nat)
    requires i < |os|
    ensures Weight(os[i]) <= WeightAll(os)
    decreases |os|
  {
    if i > 0 { WeightOf(os[1..], i - 1); }
  }

  lemma {:induction false} WeightOfTwo(os: seq<Obj>, i: nat, j: nat)
    requires i < j < |os|
    ensures Weight(os[i]) + Weight(os[j]) <= WeightAll(os)
    decreases |os|
  {
    if i == 0 { WeightOf(os[1..], j - 1); } else { WeightOfTwo(os[1..], i - 1, j - 1); }
  }

  /** Two slots of a record weigh no more than all that is below it, beyond one word each for what is not there. */
  lemma SlotWeights(o: Obj, i: nat, j: nat)
    requires i < j
    ensures Own(o) + Weight(Slot(o, i)) + Weight(Slot(o, j)) <= Weight(o) + 2
    ensures Own(o) + Weight(Slot(o, i)) <= Weight(o) + 1
  {
    if o.Record? {
      if i < |o.slots| { WeightOf(o.slots, i); }
      if j < |o.slots| { WeightOfTwo(o.slots, i, j); }
    }
  }

  // ---- reading

  /** Reading went on without an error and spent at most k words. */
  predicate Spent(r: Reader, s: Reader, k: nat)
  {
    s.error == Ok && s.segments == r.segments && r.budget <= s.budget + k
  }

  predicate Ready(r: Reader, k: nat) { r.error == Ok && Sound(r.segments) && k <= r.budget }

  lemma SlotCost(segments: seq<Bytes>, seg: nat, slot: nat, v: Value, depth: nat)
    requires Locates(segments, seg, slot, v, depth) && (v.ListValue? ==> v.elementSize != 7)
    ensures Sum(SlotCharges(segments, seg, slot)) <= if v.CapValue? then 1 else 3 + Footprint(v)
  {
    hide Tag, Offset, WordAt, Describes, High, PadSlot, TwoWordPad, FarWord, CapWord, ObjectCharges, Low;
    LocatesSlot(segments, seg, slot, v, depth);
    var p := WordAt(segments[seg], slot);
    TagOfZero(p);
    if ByNear(segments, seg, slot, v) {
      DescribedCost(segments, p, First(v) - (slot + 1), v);
      SumOne(1, ObjectCharges(p));
    } else if ByCap(segments, seg, slot, v) {
      IsCapWord(p, v.cap);
      NoObject(p);
      SumOne(1, []);
    } else if pad: nat, padSegment: nat :| ByFar(segments, seg, slot, v, pad, padSegment) {
      IsFarWord(p, false, pad, padSegment);
      var q := WordAt(segments[padSegment], pad);
      DescribedCost(segments, q, First(v) - (pad + 1), v);
      SumOne(1, ObjectCharges(q));
      SumOne(1, [1] + ObjectCharges(q));
    } else {
      var pad: nat, padSegment: nat :| ByDoubleFar(segments, seg, slot, v, pad, padSegment);
      IsFarWord(p, true, pad, padSegment);
      var tag := WordAt(segments[padSegment], pad + 1);
      DescribedCost(segments, tag, 0, v);
      SumOne(2, ObjectCharges(tag));
      SumOne(1, [2] + ObjectCharges(tag));
    }
  }

  lemma DescribedCost(segments: seq<Bytes>, p: nat, offset: int, v: Value)
    requires p < U64 && Describes(segments, p, offset, v) && (v.ListValue? ==> v.elementSize != 7)
    ensures Tag(p) <= 1 && Sum(ObjectCharges(p)) == Footprint(v)
  {
    hide Tag, Offset, DataWords, PointerCount, ElementSize, ElementCount, ListWords, StructWord, ListWord,
        ObjectCharges;
    DescribesByOffset(segments, p, offset, v);
    OneObject(p);
    if v.StructValue? {
      IsStructWord(p, offset, v.dataWords, v.pointers);
    } else {
      IsListWord(p, offset, v.elementSize, v.count);
    }
  }

  /** Following a slot finds the object it refers to. */
  lemma ReadSlot(r: Reader, seg: nat, slot: nat, depth: nat, o: Obj)
    requires Ready(r, Own(o)) && depth <= DEPTH_MAX && InSlot(r.segments, seg, slot, depth, o)
    ensures var g := Follow(r, seg, slot, depth);
            Shows(r.segments, g.v, o) && Spent(r, g.r, Own(o)) && (!g.v.NullValue? ==> g.v.depth == depth)
  {
    hide Locates, SlotCharges, Follow, Sound, Holds;
    if o.Nil? {
      FollowNull(r, seg, slot, depth);
    } else {
      var v :| Locates(r.segments, seg, slot, v, depth) && Shows(r.segments, v, o)
               && (o.Table? ==> Sum(SlotCharges(r.segments, seg, slot)) <= 4 + o.words);
      if !o.Table? {
        OwnCovers(r.segments, v, o);
        SlotCost(r.segments, seg, slot, v, depth);
      }
      FollowReaches(r, seg, slot, v, depth);
      LocatesDepth(r.segments, seg, slot, v, depth);
      var k := FollowSpends(r, seg, slot, depth);
      FollowKeeps(r, seg, slot, depth);
    }
  }

  lemma LocatesDepth(segments: seq<Bytes>, seg: nat, slot: nat, v: Value, depth: nat)
    requires Locates(segments, seg, slot, v, depth)
    ensures !v.NullValue? && v.depth == depth
  {
    hide ByNear, ByCap, ByFar, ByDoubleFar;
  }

  lemma FollowKeeps(r: Reader, seg: nat, slot: nat, depth: nat)
    ensures Follow(r, seg, slot, depth).r.segments == r.segments
  {
    hide Tag, Offset, WordAt, InRange;
  }

  lemma OwnCovers(segments: seq<Bytes>, v: Value, o: Obj)
    requires Shows(segments, v, o) && !o.Nil? && !o.Table?
    ensures (if v.CapValue? then 1 else 3 + Footprint(v)) <= Own(o) && (v.ListValue? ==> v.elementSize != 7)
  {
    hide InSlot, Inside, BytesAt;
  }

  /** The slots of a value the object is shown by are in range. */
  lemma SlotRange(r: Reader, v: Value, o: Obj, i: nat)
    requires Sound(r.segments) && Shows(r.segments, v, o) && v.StructValue? && i < v.pointers
    ensures (v.word + v.dataWords + i) % U32 == v.word + v.dataWords + i && (v.depth + 1) % 256 == v.depth + 1
    ensures o.Record? && i < |o.slots|
        && InSlot(r.segments, v.segment, v.word + v.dataWords + i, v.depth + 1, o.slots[i])
  {
    hide InSlot, BytesAt;
    FieldInside(r, v, i);
  }

  /** A field of the value is the object's slot. */
  lemma ReadField(r: Reader, v: Value, o: Obj, i: nat)
    requires Ready(r, Own(Slot(o, i))) && Shows(r.segments, v, o) && (o.Nil? || o.Record?)
    requires !v.NullValue? ==> v.depth < DEPTH_MAX
    ensures var g := Field(r, v, i);
            && Shows(r.segments, g.v, Slot(o, i)) && Spent(r, g.r, Own(Slot(o, i)))
            && (!g.v.NullValue? ==> !v.NullValue? && g.v.depth == v.depth + 1)
  {
    hide Follow, InSlot, BytesAt, Inside, Sound, Own;
    if v.StructValue? && i < v.pointers {
      SlotRange(r, v, o, i);
      ReadSlot(r, v.segment, v.word + v.dataWords + i, v.depth + 1, Slot(o, i));
    }
  }

  /** A number of the value is the object's. */
  lemma ReadNum(r: Reader, v: Value, o: Obj, byte: nat, width: nat)
    requires Ready(r, 1) && Shows(r.segments, v, o) && (o.Nil? || o.Record?) && width in [1, 2, 4, 8]
    ensures var g := UInt(r, v, byte, width); g.n == Num(o, byte, width) && Spent(r, g.r, 1)
  {
    hide InSlot, Sound, Inside;
    if o.Record? && byte + width <= |o.data| {
      assert InRange(r.segments, v.segment, v.word, v.dataWords) by { UIntInside(r, v, byte, width); }
      var at := v.word * 8;
      SliceOfSlice(r.segments[v.segment], at, at + |o.data|, byte, byte + width);
    }
  }

  /** The bytes of the value are the object's. */
  lemma ReadBytes(r: Reader, v: Value, o: Obj)
    requires Ready(r, 0) && Shows(r.segments, v, o) && (o.Nil? || o.Blob?)
    ensures Data(r, v, false) == GotBytes(r, if o.Nil? then [] else o.bytes)
    ensures o.Nil? ==> Data(r, v, true) == GotBytes(r, [])
    ensures o.Blob? && o.bytes != [] && o.bytes[|o.bytes| - 1] == 0 ==>
        Data(r, v, true) == GotBytes(r, o.bytes[..|o.bytes| - 1])
  {
    hide Sound, InSlot, Inside;
    if o.Blob? { DataInside(r, v); }
  }

  /** An element of the value is the object's item. */
  lemma ReadItem(r: Reader, v: Value, o: Obj, i: nat)
    requires Ready(r, 1) && Shows(r.segments, v, o) && o.Table? && i < |o.items| && v.depth < DEPTH_MAX
    ensures var g := At(r, v, i);
            Shows(r.segments, g.v, o.items[i]) && Spent(r, g.r, 1) && g.v.StructValue? && g.v.depth == v.depth + 1
  {
    hide InSlot, BytesAt, Sound, Follow;
    AtInside(r, v, i);
    assert Shows(r.segments, ElementOf(v, i), o.items[i]);
    assert Times(i, v.dataWords + v.pointers) == i * (v.dataWords + v.pointers);
  }

  /** The root of a frame is the object it carries. */
  lemma ReadRoot(frame: Bytes, o: Obj)
    requires Carries(frame, o) && Own(o) <= TRAVERSAL_WORDS
    ensures var g := Root(Init(frame));
            Shows(Init(frame).segments, g.v, o) && Spent(Init(frame), g.r, Own(o))
                && (!g.v.NullValue? ==> g.v.depth == 1)
  {
    hide Init, Follow, Shows, Own;
    InitIsSound(frame);
    ReadSlot(Init(frame), 0, 0, 1, o);
  }
}
