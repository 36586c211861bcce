/** Message trees: the bytes a tree is laid out as, and what the pointer reader finds in them. */
module CapnpTree {
  import opened Core
  import opened CapnpReader
  import Framing

  /** One object of a message. A struct's data is whole words. */
  datatype Node =
    | Empty
    | Struct(data: Bytes, fields: seq<Node>)
    | Blob(bytes: Bytes, text: bool)
    | Pointers(items: seq<Node>)

  function Zeros(n: nat): (z: Bytes)
    ensures |z| == n && forall i :: 0 <= i < n ==> z[i] == 0
  {
    seq(n, i => 0)
  }

  /** The bytes a blob occupies: text carries a terminating zero. */
  function BlobLength(n: Node): nat
    requires n.Blob?
  {
    |n.bytes| + if n.text then 1 else 0
  }

  function Words(bytes: nat): nat { (bytes + 7) / 8 }

  function Children(n: Node): (c: seq<Node>)
    ensures forall i :: 0 <= i < |c| ==> c[i] < n
  {
    match n
    case Struct(_, fields) => fields
    case Pointers(items) => items
    case _ => []
  }

  function DataSize(n: Node): nat { if n.Struct? then Words(|n.data|) else 0 }

  /** Words of the object itself, its pointer slots included. */
  function BodyWords(n: Node): nat
  {
    if n.Blob? then Words(BlobLength(n)) else DataSize(n) + |Children(n)|
  }

  /** Words of the object and everything below it. */
  function Size(n: Node): nat
    decreases n, 1
  {
    BodyWords(n) + if Children(n) == [] then 0 else SizeAll(Children(n))
  }

  function SizeAll(ns: seq<Node>): nat
    decreases ns, 0
  {
    if ns == [] then 0 else Size(ns[0]) + SizeAll(ns[1..])
  }

  predicate Aligned(n: Node)
    decreases n, 1
  {
    (n.Struct? ==> |n.data| % 8 == 0) && (Children(n) == [] || AllAligned(Children(n)))
  }

  predicate AllAligned(ns: seq<Node>)
    decreases ns, 0
  {
    ns == [] || (Aligned(ns[0]) && AllAligned(ns[1..]))
  }

  // ---- pointer words

  /** 30 bits of a signed distance. */
  function Delta30(delta: int): (d: nat)
    ensures d < 0x4000_0000
  {
    delta % 0x4000_0000
  }

  function StructPointer(delta: int, data: nat, pointers: nat): nat
  {
    Delta30(if data == 0 && pointers == 0 then -1 else delta) * 4 + data * U32 + pointers * 0x1_0000_0000_0000
  }

  function ListPointer(delta: int, size: nat, count: nat): nat
  {
    Delta30(delta) * 4 + 1 + size * U32 + count * 0x8_0000_0000
  }

  /** The pointer to n when its body starts delta words after the slot's successor. */
  function PointerTo(n: Node, delta: int): nat
  {
    match n
    case Empty => 0
    case Struct(_, fields) => StructPointer(delta, DataSize(n), |fields|)
    case Blob(_, _) => ListPointer(delta, 2, BlobLength(n))
    case Pointers(items) => ListPointer(delta, 6, |items|)
  }

  // ---- layout: each object, then its children in order

  /** Pointer slots for ns when `ahead` words separate the first slot's successor from the first child. */
  function Slots(ns: seq<Node>, ahead: int): (s: Bytes)
    ensures |s| == 8 * |ns|
    decreases ns
  {
    if ns == [] then [] else ToLe(8, PointerTo(ns[0], ahead)) + Slots(ns[1..], ahead - 1 + Size(ns[0]))
  }

  function Body(n: Node): Bytes
  {
    match n
    case Empty => []
    case Struct(data, fields) => data + Slots(fields, |fields| - 1)
    case Blob(bytes, text) => bytes + Zeros(8 * BodyWords(n) - |bytes|)
    case Pointers(items) => Slots(items, |items| - 1)
  }

  function Layout(n: Node): Bytes
    decreases n, 1
  {
    Body(n) + if Children(n) == [] then [] else LayoutAll(Children(n))
  }

  function LayoutAll(ns: seq<Node>): Bytes
    decreases ns, 0
  {
    if ns == [] then [] else Layout(ns[0]) + LayoutAll(ns[1..])
  }

  lemma BodyLength(n: Node)
    requires Aligned(n)
    ensures |Body(n)| == 8 * BodyWords(n)
  {
  }

  lemma {:induction false} LayoutLength(n: Node)
    requires Aligned(n)
    ensures |Layout(n)| == 8 * Size(n)
    decreases n, 1
  {
    BodyLength(n);
    if Children(n) != [] { LayoutAllLength(Children(n)); }
  }

  lemma {:induction false} LayoutAllLength(ns: seq<Node>)
    requires AllAligned(ns)
    ensures |LayoutAll(ns)| == 8 * SizeAll(ns)
    decreases ns, 0
  {
    if ns != [] {
      LayoutLength(ns[0]);
      LayoutAllLength(ns[1..]);
    }
  }

  /** The root segment: the root pointer, then the tree. */
  function Segment(root: Node): Bytes { ToLe(8, PointerTo(root, 0)) + Layout(root) }

  /** A complete single-segment frame. */
  function Message(root: Node): Bytes { ToLe(4, 0) + ToLe(4, 1 + Size(root)) + Segment(root) }

  // ---- pointer words read back

  lemma DeltaFits(delta: int)
    requires -0x2000_0000 <= delta < 0x2000_0000
    ensures Delta30(delta) == if delta < 0 then delta + 0x4000_0000 else delta
  {
  }

  lemma Parts30(lo: nat, hi: nat)
    requires lo < 0x4000_0000
    ensures (lo + 0x4000_0000 * hi) % 0x4000_0000 == lo
  {
  }

  lemma Parts32(lo: nat, hi: nat)
    requires lo < U32
    ensures (lo + U32 * hi) / U32 == hi
  {
  }

  lemma Parts16(lo: nat, hi: nat)
    requires lo < U16
    ensures (lo + U16 * hi) % U16 == lo && (lo + U16 * hi) / U16 == hi
  {
  }

  lemma Parts48(p: nat)
    ensures p / 0x1_0000_0000_0000 == p / U32 / U16
  {
  }

  lemma Parts35(p: nat)
    ensures p / 0x8_0000_0000 == p / U32 / 8
  {
  }

  /** Four fields stacked at bits 0, 2, 32 and 48. */
  lemma StackedStruct(d: nat, data: nat, pointers: nat, p: nat)
    requires d < 0x4000_0000 && data < U16 && pointers < U16
    requires p == d * 4 + data * U32 + pointers * 0x1_0000_0000_0000
    ensures p < U64 && Tag(p) == 0 && p / 4 % 0x4000_0000 == d && DataWords(p) == data && PointerCount(p) == pointers
  {
    var high := data + U16 * pointers;
    assert p == d * 4 + U32 * high;
    Parts32(d * 4, high);
    Parts16(data, pointers);
    Parts48(p);
    assert p / 4 == d + 0x4000_0000 * high;
    Parts30(d, high);
  }

  lemma StackedList(d: nat, size: nat, count: nat, p: nat)
    requires d < 0x4000_0000 && size < 8 && count < 0x2000_0000
    requires p == d * 4 + 1 + size * U32 + count * 0x8_0000_0000
    ensures p < U64 && Tag(p) == 1 && p / 4 % 0x4000_0000 == d && ElementSize(p) == size && ElementCount(p) == count
  {
    var high := size + 8 * count;
    assert p == d * 4 + 1 + U32 * high;
    Parts32(d * 4 + 1, high);
    Parts35(p);
    assert p / 4 == d + 0x4000_0000 * high;
    Parts30(d, high);
  }

  lemma StructPointerFields(delta: int, data: nat, pointers: nat)
    requires -0x2000_0000 <= delta < 0x2000_0000 && data < U16 && pointers < U16
    ensures var p := StructPointer(delta, data, pointers);
            && 0 < p < U64 && Tag(p) == 0 && DataWords(p) == data && PointerCount(p) == pointers
            && Offset(p) == if data == 0 && pointers == 0 then -1 else delta
  {
    hide Tag, DataWords, PointerCount, Delta30;
    var d := if data == 0 && pointers == 0 then -1 else delta;
    DeltaFits(d);
    StackedStruct(Delta30(d), data, pointers, StructPointer(delta, data, pointers));
  }

  lemma ListPointerFields(delta: int, size: nat, count: nat)
    requires -0x2000_0000 <= delta < 0x2000_0000 && size < 8 && count < 0x2000_0000
    ensures var p := ListPointer(delta, size, count);
            0 < p < U64 && Tag(p) == 1 && ElementSize(p) == size && ElementCount(p) == count && Offset(p) == delta
  {
    hide Tag, ElementSize, ElementCount, Delta30;
    DeltaFits(delta);
    StackedList(Delta30(delta), size, count, ListPointer(delta, size, count));
  }

  // ---- where a tree's objects lie in a segment

  /** The layout of n starts at word `at`. */
  predicate Sits(seg: Bytes, at: nat, n: Node)
  {
    8 * at + |Layout(n)| <= |seg| && seg[8 * at..8 * at + |Layout(n)|] == Layout(n)
  }

  /** The slot holds the pointer to n, whose layout starts at word `at`. */
  predicate Points(seg: Bytes, slot: nat, at: nat, n: Node)
  {
    8 * slot + 8 <= |seg| && WordAt(seg, slot) == PointerTo(n, at - slot - 1)
  }

  function ChildAt(n: Node, at: nat, i: nat): nat
    requires i <= |Children(n)|
  {
    at + BodyWords(n) + SizeAll(Children(n)[..i])
  }

  lemma {:induction false} SlotAt(ns: seq<Node>, ahead: int, i: nat)
    requires i < |ns|
    ensures Slots(ns, ahead)[8 * i..8 * i + 8] == ToLe(8, PointerTo(ns[i], ahead - i + SizeAll(ns[..i])))
  {
    hide Size, PointerTo, ToLe, Layout;
    if i == 0 {
      assert ns[..0] == [];
      Prefixed(ToLe(8, PointerTo(ns[0], ahead)), Slots(ns[1..], ahead - 1 + Size(ns[0])), 0, 8);
    } else {
      SlotAt(ns[1..], ahead - 1 + Size(ns[0]), i - 1);
      assert ns[..i][1..] == ns[1..][..i - 1];
      var rest := Slots(ns[1..], ahead - 1 + Size(ns[0]));
      Shifted(ToLe(8, PointerTo(ns[0], ahead)), rest, 8 * (i - 1), 8 * (i - 1) + 8);
    }
  }

  lemma {:induction false} LayoutAt(ns: seq<Node>, i: nat)
    requires i < |ns| && AllAligned(ns)
    ensures 8 * SizeAll(ns[..i]) + |Layout(ns[i])| <= |LayoutAll(ns)|
    ensures LayoutAll(ns)[8 * SizeAll(ns[..i])..8 * SizeAll(ns[..i]) + |Layout(ns[i])|] == Layout(ns[i])
    ensures Aligned(ns[i])
    decreases ns
  {
    hide Layout, Size, Aligned, Children, BodyWords;
    LayoutLength(ns[0]);
    if i == 0 {
      assert ns[..0] == [];
    } else {
      LayoutAt(ns[1..], i - 1);
      assert ns[..i][1..] == ns[1..][..i - 1];
      var lead, rest := Layout(ns[0]), LayoutAll(ns[1..]);
      var a := 8 * SizeAll(ns[1..][..i - 1]);
      assert ns[1..][i - 1] == ns[i] && 8 * SizeAll(ns[..i]) == |lead| + a;
      Shifted(lead, rest, a, a + |Layout(ns[i])|);
    }
  }

  lemma Shifted(a: Bytes, b: Bytes, lo: nat, hi: nat)
    requires lo <= hi <= |b|
    ensures (a + b)[|a| + lo..|a| + hi] == b[lo..hi]
  {
  }

  lemma SubSlice(s: Bytes, from: nat, whole: Bytes, lo: nat, hi: nat)
    requires from + |whole| <= |s| && s[from..from + |whole|] == whole && lo <= hi <= |whole|
    ensures s[from + lo..from + hi] == whole[lo..hi]
  {
    SliceOfSlice(s, from, from + |whole|, lo, hi);
  }

  lemma Prefixed(a: Bytes, b: Bytes, lo: nat, hi: nat)
    requires lo <= hi <= |a|
    ensures (a + b)[lo..hi] == a[lo..hi]
  {
  }

  lemma SlotWord(seg: Bytes, slot: nat, p: nat)
    requires 8 * slot + 8 <= |seg| && p < U64 && seg[8 * slot..8 * slot + 8] == ToLe(8, p)
    ensures WordAt(seg, slot) == p
  {
    Pow256Values();
    LeToLe(8, p);
  }

  /** A tree that fits one message: every field of every pointer is within its bits. */
  predicate Fits(n: Node) { Aligned(n) && Size(n) < 0x1000 }

  lemma PointerFits(n: Node, delta: int)
    requires Fits(n) && 0 <= delta < 0x1000
    ensures PointerTo(n, delta) < U64
    ensures !n.Empty? <==> PointerTo(n, delta) > 0
  {
    hide StructPointer, ListPointer;
    match n
    case Empty =>
    case Struct(_, fields) => StructPointerFields(delta, DataSize(n), |fields|);
    case Blob(_, _) => ListPointerFields(delta, 2, BlobLength(n));
    case Pointers(items) => ListPointerFields(delta, 6, |items|);
  }

  lemma {:induction false} SizeSplit(ns: seq<Node>, i: nat)
    requires i < |ns|
    ensures SizeAll(ns[..i]) + Size(ns[i]) <= SizeAll(ns)
    decreases ns
  {
    if i > 0 {
      SizeSplit(ns[1..], i - 1);
      assert ns[..i][1..] == ns[1..][..i - 1];
    } else {
      assert ns[..0] == [];
    }
  }

  lemma Unfold(n: Node)
    requires Children(n) != []
    ensures Layout(n) == Body(n) + LayoutAll(Children(n))
    ensures Size(n) == BodyWords(n) + SizeAll(Children(n))
    ensures Aligned(n) ==> AllAligned(Children(n))
  {
  }

  /** Each child of a laid-out object is pointed to from its slot and laid out in turn. */
  lemma ChildSits(seg: Bytes, at: nat, n: Node, i: nat)
    requires Sits(seg, at, n) && Fits(n) && i < |Children(n)|
    ensures Fits(Children(n)[i]) && Sits(seg, ChildAt(n, at, i), Children(n)[i])
    ensures Points(seg, at + DataSize(n) + i, ChildAt(n, at, i), Children(n)[i])
    ensures at + DataSize(n) + i < ChildAt(n, at, i) < at + 0x1000
  {
    hide PointerTo, WordAt, Layout, Size, SizeAll, LayoutAll, Body, BodyWords, Aligned, AllAligned, Points;
    var ns := Children(n);
    Unfold(n);
    BodyLength(n);
    SizeSplit(ns, i);
    LayoutAt(ns, i);
    var a := 8 * SizeAll(ns[..i]);
    Shifted(Body(n), LayoutAll(ns), a, a + |Layout(ns[i])|);
    SubSlice(seg, 8 * at, Layout(n), |Body(n)| + a, |Body(n)| + a + |Layout(ns[i])|);
    SlotsFit(n);
    ChildSlot(seg, at, n, i);
  }

  lemma SlotsFit(n: Node)
    ensures DataSize(n) + |Children(n)| <= BodyWords(n)
    ensures Children(n) != [] ==> DataSize(n) + |Children(n)| == BodyWords(n)
  {
  }

  lemma BodyIsDataThenSlots(n: Node)
    requires Aligned(n) && Children(n) != []
    ensures 8 * DataSize(n) <= |Body(n)|
    ensures Body(n) == Body(n)[..8 * DataSize(n)] + Slots(Children(n), |Children(n)| - 1)
  {
  }

  lemma ChildSlot(seg: Bytes, at: nat, n: Node, i: nat)
    requires Sits(seg, at, n) && Fits(n) && i < |Children(n)| && Fits(Children(n)[i])
    requires SizeAll(Children(n)[..i]) < 0x1000 - BodyWords(n)
    ensures Points(seg, at + DataSize(n) + i, ChildAt(n, at, i), Children(n)[i])
  {
    hide PointerTo, WordAt, Layout, Size, SizeAll, LayoutAll, Body, BodyWords, Aligned, AllAligned, Slots, Fits,
        DataSize;
    var ns, k := Children(n), |Children(n)|;
    var delta := k - 1 - i + SizeAll(ns[..i]);
    FitsAligned(n);
    Unfold(n);
    BodyLength(n);
    SlotsFit(n);
    SlotAt(ns, k - 1, i);
    PointerFits(ns[i], delta);
    BodyIsDataThenSlots(n);
    var slots, lo := Slots(ns, k - 1), 8 * DataSize(n) + 8 * i;
    Shifted(Body(n)[..8 * DataSize(n)], slots, 8 * i, 8 * i + 8);
    Prefixed(Body(n), LayoutAll(ns), lo, lo + 8);
    SubSlice(seg, 8 * at, Layout(n), lo, lo + 8);
    SlotWord(seg, at + DataSize(n) + i, PointerTo(ns[i], delta));
  }

  lemma FitsAligned(n: Node)
    requires Fits(n)
    ensures Aligned(n) && Size(n) < 0x1000
  {
  }

  // ---- the reader walks the tree

  predicate ZeroSized(n: Node) { n.Struct? && DataSize(n) == 0 && n.fields == [] }

  /** The value found when a slot points to n. */
  function ValueOf(n: Node, slot: nat, at: nat, depth: nat): Value
  {
    match n
    case Empty => NullValue
    case Struct(_, fields) => StructValue(0, if ZeroSized(n) then slot else at, DataSize(n), |fields|, depth)
    case Blob(_, _) => ListValue(0, at, 2, BlobLength(n), 0, 0, depth)
    case Pointers(items) => ListValue(0, at, 6, |items|, 0, 0, depth)
  }

  /** Words charged for following a slot to n. */
  function Cost(n: Node): nat { 1 + if n.Empty? then 0 else Max(1, BodyWords(n)) }

  function Paid(r: Reader, words: nat): Reader
    requires words <= r.budget
  {
    r.(budget := r.budget - words)
  }

  lemma BodyInRange(seg: Bytes, at: nat, n: Node)
    requires Sits(seg, at, n) && Aligned(n)
    ensures InRange([seg], 0, at, BodyWords(n))
  {
    LayoutLength(n);
  }

  lemma FollowNear(r: Reader, seg: Bytes, slot: nat, p: nat, depth: nat)
    requires r.error == Ok && r.segments == [seg] && depth <= DEPTH_MAX && r.budget >= 1
    requires 8 * slot + 8 <= |seg| && WordAt(seg, slot) == p
    ensures p == 0 ==> Follow(r, 0, slot, depth) == Got(Paid(r, 1), NullValue)
    ensures p > 0 && Tag(p) <= 1 ==>
              Follow(r, 0, slot, depth) == Object(Paid(r, 1), 0, slot + 1 + Offset(p), p, depth)
  {
    hide WordAt, Object, Tag, Offset, Landing;
  }

  lemma StructFound(r: Reader, target: int, p: nat, depth: nat)
    requires r.error == Ok && Tag(p) == 0 && 0 <= target < U32
    requires InRange(r.segments, 0, target, DataWords(p) + PointerCount(p))
    requires Max(1, DataWords(p) + PointerCount(p)) <= r.budget
    ensures Object(r, 0, target, p, depth)
         == Got(Paid(r, Max(1, DataWords(p) + PointerCount(p))),
             StructValue(0, target, DataWords(p), PointerCount(p), depth))
  {
    hide Tag, DataWords, PointerCount, InRange;
  }

  lemma ListFound(r: Reader, target: int, p: nat, depth: nat)
    requires r.error == Ok && Tag(p) == 1 && ElementSize(p) != 7 && 0 <= target < U32
    requires InRange(r.segments, 0, target, ListWords(ElementSize(p), ElementCount(p)))
    requires Max(1, ListWords(ElementSize(p), ElementCount(p))) <= r.budget
    ensures Object(r, 0, target, p, depth)
         == Got(Paid(r, Max(1, ListWords(ElementSize(p), ElementCount(p)))),
                ListValue(0, target, ElementSize(p), ElementCount(p), 0, 0, depth))
  {
    hide Tag, ElementSize, ElementCount, InRange, ListWords;
  }

  lemma ListWordsOf(n: Node)
    ensures n.Blob? ==> ListWords(2, BlobLength(n)) == BodyWords(n)
    ensures n.Pointers? ==> ListWords(6, |n.items|) == BodyWords(n)
  {
  }

  /** Following a slot that points to n finds n, at the price of its own words. */
  lemma FollowNode(r: Reader, seg: Bytes, slot: nat, at: nat, n: Node, depth: nat)
    requires r.error == Ok && r.segments == [seg] && |seg| < U32 && depth <= DEPTH_MAX && Cost(n) <= r.budget
    requires Points(seg, slot, at, n) && Sits(seg, at, n) && Fits(n) && slot < at < slot + 0x1000
    ensures Follow(r, 0, slot, depth) == Got(Paid(r, Cost(n)), ValueOf(n, slot, at, depth))
  {
    hide WordAt, StructPointer, ListPointer, ListWords, Object, Sits, Size, Aligned, DataSize;
    var delta := at - slot - 1;
    var p := PointerTo(n, delta);
    FitsAligned(n);
    FollowNear(r, seg, slot, p, depth);
    ListWordsOf(n);
    BodyInRange(seg, at, n);
    BodyFits(n);
    match n {
      case Empty =>
      case Struct(_, fields) =>
        StructPointerFields(delta, DataSize(n), |fields|);
        StructFound(Paid(r, 1), slot + 1 + Offset(p), p, depth);
      case Blob(_, _) =>
        ListPointerFields(delta, 2, BlobLength(n));
        ListFound(Paid(r, 1), at, p, depth);
      case Pointers(items) =>
        ListPointerFields(delta, 6, |items|);
        ListFound(Paid(r, 1), at, p, depth);
    }
  }

  lemma BodyFits(n: Node)
    requires Fits(n)
    ensures BodyWords(n) < 0x1000 && (n.Blob? ==> BlobLength(n) <= 8 * BodyWords(n))
  {
  }

  /** The value stands for n: it lies where n's layout does and has n's shape. */
  predicate Denotes(seg: Bytes, v: Value, n: Node)
  {
    && Fits(n) && |seg| < U32
    && match n
       case Empty => v.NullValue?
       case Struct(_, fields) =>
         (v.StructValue? && v.segment == 0 && v.dataWords == DataSize(n) && v.pointers == |fields|
          && v.depth <= DEPTH_MAX && (ZeroSized(n) || Sits(seg, v.word, n)))
       case Blob(_, _) =>
         (v.ListValue? && v.segment == 0 && v.elementSize == 2 && v.count == BlobLength(n)
          && v.depth <= DEPTH_MAX && Sits(seg, v.word, n))
       case Pointers(items) =>
         (v.ListValue? && v.segment == 0 && v.elementSize == 6 && v.count == |items|
          && v.depth <= DEPTH_MAX && Sits(seg, v.word, n))
  }

  lemma FollowDenotes(r: Reader, seg: Bytes, slot: nat, at: nat, n: Node, depth: nat)
    requires r.error == Ok && r.segments == [seg] && |seg| < U32 && depth <= DEPTH_MAX && Cost(n) <= r.budget
    requires Points(seg, slot, at, n) && Sits(seg, at, n) && Fits(n) && slot < at < slot + 0x1000
    ensures var g := Follow(r, 0, slot, depth);
            && g.r == Paid(r, Cost(n)) && Denotes(seg, g.v, n)
            && (!n.Empty? ==> !g.v.NullValue? && g.v.depth == depth)
  {
    hide Follow, Sits, Fits, Points, BodyWords, DataSize;
    FollowNode(r, seg, slot, at, n, depth);
  }

  lemma ChildSlotFits(seg: Bytes, at: nat, n: Node, i: nat)
    requires Sits(seg, at, n) && Fits(n) && i < |Children(n)| && |seg| < U32
    ensures at + DataSize(n) + i < U32
  {
    LayoutLength(n);
    SlotsFit(n);
  }

  /** Reading field i of a struct finds its i-th child, one level deeper, for exactly the child's cost. */
  lemma FieldDenotes(r: Reader, seg: Bytes, v: Value, n: Node, i: nat)
    requires r.error == Ok && r.segments == [seg] && Denotes(seg, v, n) && n.Struct? && i < |n.fields|
    requires v.depth < DEPTH_MAX && Cost(n.fields[i]) <= r.budget
    ensures var g := Field(r, v, i);
            && g.r == Paid(r, Cost(n.fields[i])) && Denotes(seg, g.v, n.fields[i])
            && (!n.fields[i].Empty? ==> !g.v.NullValue? && g.v.depth == v.depth + 1)
  {
    hide Follow, Sits, Fits, Points, BodyWords, DataSize;
    ChildSits(seg, v.word, n, i);
    ChildSlotFits(seg, v.word, n, i);
    FollowDenotes(r, seg, v.word + DataSize(n) + i, ChildAt(n, v.word, i), n.fields[i], v.depth + 1);
  }

  /** Reading item i of a pointer list, likewise. */
  lemma ItemDenotes(r: Reader, seg: Bytes, v: Value, n: Node, i: nat)
    requires r.error == Ok && r.segments == [seg] && Denotes(seg, v, n) && n.Pointers? && i < |n.items|
    requires v.depth < DEPTH_MAX && Cost(n.items[i]) <= r.budget
    ensures var g := At(r, v, i);
            && g.r == Paid(r, Cost(n.items[i])) && Denotes(seg, g.v, n.items[i])
            && (!n.items[i].Empty? ==> !g.v.NullValue? && g.v.depth == v.depth + 1)
  {
    hide Follow, Sits, Fits, Points, BodyWords;
    ChildSits(seg, v.word, n, i);
    ChildSlotFits(seg, v.word, n, i);
    FollowDenotes(r, seg, v.word + i, ChildAt(n, v.word, i), n.items[i], v.depth + 1);
  }

  /** Reading a number of a struct gives those bytes of its data. */
  lemma NumberDenotes(r: Reader, seg: Bytes, v: Value, n: Node, byte: nat, width: nat)
    requires r.error == Ok && r.segments == [seg] && Denotes(seg, v, n) && n.Struct? && 1 <= r.budget
    requires width in [1, 2, 4, 8] && byte + width <= |n.data|
    ensures UInt(r, v, byte, width) == GotNumber(Paid(r, 1), Le(n.data[byte..byte + width]))
  {
    hide Le, Layout, Size, Aligned;
    FitsAligned(n);
    BodyInRange(seg, v.word, n);
    DataSlice(seg, v.word, n, byte, byte + width);
    DataIsWords(n);
  }

  lemma DataIsWords(n: Node)
    requires Aligned(n) && n.Struct?
    ensures |n.data| == 8 * DataSize(n) && DataSize(n) <= BodyWords(n)
  {
  }

  lemma LayoutStartsWithBody(n: Node)
    ensures Body(n) <= Layout(n)
  {
  }

  lemma DataSlice(seg: Bytes, at: nat, n: Node, lo: nat, hi: nat)
    requires Sits(seg, at, n) && Aligned(n)
    requires n.Struct? && lo <= hi <= |n.data|
    ensures 8 * at + hi <= |seg| && seg[8 * at + lo..8 * at + hi] == n.data[lo..hi]
  {
    hide Layout, Slots;
    LayoutStartsWithBody(n);
    SubSlice(seg, 8 * at, Layout(n), lo, hi);
    Prefixed(n.data, Slots(n.fields, |n.fields| - 1), lo, hi);
    assert Layout(n)[lo..hi] == Body(n)[lo..hi];
  }

  lemma BlobSlice(seg: Bytes, at: nat, n: Node)
    requires Sits(seg, at, n) && Aligned(n) && n.Blob?
    ensures 8 * at + BlobLength(n) <= |seg|
    ensures seg[8 * at..8 * at + BlobLength(n)] == n.bytes + if n.text then [0] else []
  {
    hide Layout;
    LayoutStartsWithBody(n);
    BodyLength(n);
    SubSlice(seg, 8 * at, Layout(n), 0, BlobLength(n));
    assert Layout(n)[..BlobLength(n)] == Body(n)[..BlobLength(n)];
  }

  /** Reading a blob gives its bytes, without the terminator if it is text. */
  lemma BlobDenotes(r: Reader, seg: Bytes, v: Value, n: Node)
    requires r.error == Ok && r.segments == [seg] && Denotes(seg, v, n) && n.Blob?
    ensures Data(r, v, n.text) == GotBytes(r, n.bytes)
  {
    hide Layout, Size, Aligned, Sits;
    FitsAligned(n);
    BodyInRange(seg, v.word, n);
    BlobSlice(seg, v.word, n);
    var b := n.bytes + if n.text then [0] else [];
    if n.text { assert b[..|b| - 1] == n.bytes; } else { assert b == n.bytes; }
  }

  // ---- whole messages

  lemma LeAt(v: nat)
    requires v < U32
    ensures Framing.U32At(ToLe(4, v), 0) == v
  {
    var a, b, c := v / 256, v / 65536, v / 16777216;
    assert ToLe(4, v) == [v % 256] + ToLe(3, a);
    assert ToLe(3, a) == [a % 256] + ToLe(2, a / 256);
    assert a / 256 == b && b / 256 == c;
    assert ToLe(2, b) == [b % 256] + ToLe(1, c);
    assert ToLe(1, c) == [c % 256] + ToLe(0, c / 256);
    assert ToLe(4, v) == [v % 256, a % 256, b % 256, c % 256];
  }

  lemma WordOf(p: Bytes, at: nat, v: nat)
    requires v < U32 && at + 4 <= |p| && p[at..at + 4] == ToLe(4, v)
    ensures Framing.U32At(p, at) == v
  {
    hide ToLe;
    LeAt(v);
    assert p[at..at + 4][0] == p[at] && p[at..at + 4][1] == p[at + 1];
    assert p[at..at + 4][2] == p[at + 2] && p[at..at + 4][3] == p[at + 3];
  }

  /** The tree fits one message frame. */
  predicate Sendable(root: Node) { Aligned(root) && 16 + 8 * Size(root) <= Framing.MESSAGE_MAX }

  lemma MessageShape(root: Node)
    requires Sendable(root)
    ensures |Message(root)| == 16 + 8 * Size(root) && |Segment(root)| == 8 + 8 * Size(root)
    ensures Framing.U32At(Message(root), 0) == 0 && Framing.U32At(Message(root), 4) == 1 + Size(root)
    ensures Message(root)[8..] == Segment(root)
  {
    hide ToLe, Layout, Size, PointerTo, Framing.U32At;
    LayoutLength(root);
    var m := Message(root);
    assert m[0..4] == ToLe(4, 0) && m[4..8] == ToLe(4, 1 + Size(root));
    WordOf(m, 0, 0);
    WordOf(m, 4, 1 + Size(root));
  }

  /** A frame of one segment is well framed when its length matches its single table entry. */
  lemma OneSegment(f: Bytes, words: nat)
    requires 16 <= |f| == 8 + 8 * words <= Framing.MESSAGE_MAX
    requires Framing.U32At(f, 0) == 0 && Framing.U32At(f, 4) == words
    ensures Framing.WellFramed(f) && Init(f) == Reader([f[8..]], TRAVERSAL_WORDS, Ok)
  {
    assert Framing.TableSize(1) == 8;
    assert Framing.TotalTo(f, 8, 0) == 8;
    assert Framing.TotalTo(f, 8, 1) == 8 + 8 * words;
    assert Framing.SegmentBytes(f, 0) == f[8..];
    assert Segments(f, 1) == Segments(f, 0) + [Framing.SegmentBytes(f, 0)];
  }

  /** Any sendable tree, framed, is accepted by the reader, whose root value stands for the tree. */
  lemma RootDenotes(root: Node)
    requires Sendable(root) && Cost(root) <= TRAVERSAL_WORDS
    ensures Init(Message(root)) == Reader([Segment(root)], TRAVERSAL_WORDS, Ok)
    ensures var g := Root(Init(Message(root)));
            && g.r == Paid(Init(Message(root)), Cost(root)) && Denotes(Segment(root), g.v, root)
            && (!root.Empty? ==> !g.v.NullValue? && g.v.depth == 1)
  {
    hide Layout, Size, PointerTo, Follow, Framing.U32At, Framing.WellFramed, Init, WordAt, ToLe, BodyWords, Aligned;
    MessageShape(root);
    OneSegment(Message(root), 1 + Size(root));
    LayoutLength(root);
    var seg := Segment(root);
    PointerFits(root, 0);
    assert seg[0..8] == ToLe(8, PointerTo(root, 0));
    SlotWord(seg, 0, PointerTo(root, 0));
    assert seg[8..8 + |Layout(root)|] == Layout(root);
    FollowDenotes(Init(Message(root)), seg, 0, 1, root, 1);
  }

  // ---- building

  function SetBytes(c: Bytes, at: nat, b: Bytes): (r: Bytes)
    requires at + |b| <= |c|
    ensures |r| == |c|
  {
    c[..at] + b + c[at + |b|..]
  }

  function SetSlot(c: Bytes, slot: nat, p: nat): (r: Bytes)
    requires 8 * slot + 8 <= |c|
    ensures |r| == |c|
  {
    SetBytes(c, 8 * slot, ToLe(8, p))
  }

  /** Content with a new struct: its pointer in `slot`, its data and empty pointer slots at the end. */
  function OpenStruct(c: Bytes, slot: nat, data: Bytes, pointers: nat): (r: Bytes)
    requires 8 * slot + 8 <= |c|
    ensures |r| == |c| + |data| + 8 * pointers
    ensures |c| % 8 == 0 && |data| % 8 == 0 ==> |r| % 8 == 0 && 8 * (|c| / 8 + |data| / 8 + pointers) == |r|
  {
    SetSlot(c, slot, StructPointer(|c| / 8 - slot - 1, Words(|data|), pointers)) + (data + Zeros(8 * pointers))
  }

  lemma WholeWords(n: nat, count: nat)
    ensures n % 8 == 0 ==> (n + 8 * count) % 8 == 0 && 8 * (n / 8 + count) == n + 8 * count
  {
    var q, r := n / 8, n % 8;
    assert n == 8 * q + r;
    assert n + 8 * count == 8 * (q + count) + r;
  }

  function OpenList(c: Bytes, slot: nat, count: nat): (r: Bytes)
    requires 8 * slot + 8 <= |c|
    ensures |r| == |c| + 8 * count
    ensures |c| % 8 == 0 ==> |r| % 8 == 0 && 8 * (|c| / 8 + count) == |r|
  {
    WholeWords(|c|, count);
    SetSlot(c, slot, ListPointer(|c| / 8 - slot - 1, 6, count)) + Zeros(8 * count)
  }

  lemma BlobRoom(n: Node)
    requires n.Blob?
    ensures |n.bytes| <= BlobLength(n) <= 8 * BodyWords(n)
  {
  }

  function AddBlob(c: Bytes, slot: nat, bytes: Bytes, text: bool): (r: Bytes)
    requires 8 * slot + 8 <= |c|
    ensures |r| == |c| + 8 * BodyWords(Blob(bytes, text))
    ensures |c| % 8 == 0 ==> |r| % 8 == 0
  {
    var n := Blob(bytes, text);
    WholeWords(|c|, BodyWords(n));
    BlobRoom(n);
    SetSlot(c, slot, ListPointer(|c| / 8 - slot - 1, 2, BlobLength(n))) + (bytes + Zeros(8 * BodyWords(n) - |bytes|))
  }

  lemma SizeParts(n: Node)
    requires Aligned(n)
    ensures n.Empty? ==> Size(n) == 0
    ensures n.Blob? ==> Size(n) == BodyWords(n)
    ensures n.Struct? ==>
        |n.data| % 8 == 0 && AllAligned(n.fields) && 8 * Size(n) == |n.data| + 8 * |n.fields| + 8 * SizeAll(n.fields)
    ensures n.Pointers? ==> AllAligned(n.items) && Size(n) == |n.items| + SizeAll(n.items)
  {
  }

  /** Builds n depth first: the object itself, then each child through its slot. */
  function Build(c: Bytes, slot: nat, n: Node): (r: Bytes)
    requires 8 * slot + 8 <= |c| && |c| % 8 == 0 && Aligned(n)
    ensures |r| == |c| + 8 * Size(n) && |r| % 8 == 0
    decreases n, 1
  {
    SizeParts(n);
    match n
    case Empty => c
    case Blob(bytes, text) => AddBlob(c, slot, bytes, text)
    case Struct(data, fields) =>
      var d := OpenStruct(c, slot, data, |fields|);
      if fields == [] then d else BuildAll(d, |c| / 8 + |data| / 8, fields)
    case Pointers(items) =>
      var d := OpenList(c, slot, |items|);
      if items == [] then d else BuildAll(d, |c| / 8, items)
  }

  function BuildAll(c: Bytes, slot: nat, ns: seq<Node>): (r: Bytes)
    requires 8 * (slot + |ns|) <= |c| && |c| % 8 == 0 && AllAligned(ns)
    ensures |r| == |c| + 8 * SizeAll(ns) && |r| % 8 == 0
    decreases ns, 0
  {
    if ns == [] then c else BuildAll(Build(c, slot, ns[0]), slot + 1, ns[1..])
  }

  predicate Blank(c: Bytes, from: nat, to: nat)
    requires from <= to <= |c|
  {
    c[from..to] == Zeros(to - from)
  }

  /** Writing into c, or writing past it into what follows. */
  lemma SetLeft(c: Bytes, d: Bytes, at: nat, b: Bytes)
    requires at + |b| <= |c|
    ensures SetBytes(c + d, at, b) == SetBytes(c, at, b) + d
  {
    assert (c + d)[..at] == c[..at];
    assert (c + d)[at + |b|..] == c[at + |b|..] + d;
  }

  lemma SetRight(c: Bytes, d: Bytes, at: nat, b: Bytes)
    requires at + |b| <= |d|
    ensures SetBytes(c + d, |c| + at, b) == c + SetBytes(d, at, b)
  {
    assert (c + d)[..|c| + at] == c + d[..at];
    assert (c + d)[|c| + at + |b|..] == d[at + |b|..];
  }

  /** Two adjacent writes are one. */
  lemma SetTwice(c: Bytes, at: nat, a: Bytes, b: Bytes)
    requires at + |a| + |b| <= |c|
    ensures SetBytes(SetBytes(c, at, a), at + |a|, b) == SetBytes(c, at, a + b)
  {
    var d := SetBytes(c, at, a);
    assert d[..at + |a|] == c[..at] + a;
    assert d[at + |a| + |b|..] == c[at + |a| + |b|..];
  }

  lemma SetSame(c: Bytes, at: nat, n: nat)
    requires at + n <= |c| && Blank(c, at, at + n)
    ensures SetBytes(c, at, Zeros(n)) == c
  {
    assert c == c[..at] + c[at..at + n] + c[at + n..];
  }

  /** A write leaves other blanks blank. */
  lemma BlankAfter(c: Bytes, d: Bytes, at: nat, b: Bytes, from: nat, to: nat)
    requires at + |b| <= from <= to <= |c| && Blank(c, from, to)
    ensures Blank(SetBytes(c, at, b) + d, from, to)
  {
    var r := SetBytes(c, at, b) + d;
    assert r[from..to] == c[from..to];
  }

  lemma ZeroPointer()
    ensures ToLe(8, 0) == Zeros(8)
  {
    ZeroBytes(8);
  }

  lemma {:induction false} ZeroBytes(n: nat)
    ensures ToLe(n, 0) == Zeros(n)
  {
    if n > 0 { ZeroBytes(n - 1); }
  }

  /** Building n fills its slot and appends its layout: nothing else of the content is touched. */
  lemma {:induction false} BuildIsLayout(c: Bytes, slot: nat, n: Node)
    requires 8 * slot + 8 <= |c| && |c| % 8 == 0 && Aligned(n) && Blank(c, 8 * slot, 8 * slot + 8)
    ensures Build(c, slot, n) == SetSlot(c, slot, PointerTo(n, |c| / 8 - slot - 1)) + Layout(n)
    decreases n, 1
  {
    hide Build, Layout, Blank, Size, SetSlot, PointerTo;
    match n {
      case Empty => BuildEmpty(c, slot);
      case Blob(bytes, text) => BuildBlob(c, slot, n);
      case Struct(data, fields) =>
        var head := SetSlot(c, slot, PointerTo(n, |c| / 8 - slot - 1));
        SizeParts(n);
        OpenThenFill(head, data, Slots(fields, |fields| - 1), fields);
        StructParts(c, slot, n);
      case Pointers(items) =>
        var head := SetSlot(c, slot, PointerTo(n, |c| / 8 - slot - 1));
        SizeParts(n);
        OpenThenFill(head, [], Slots(items, |items| - 1), items);
        PointerParts(c, slot, n);
    }
  }

  lemma BuildEmpty(c: Bytes, slot: nat)
    requires 8 * slot + 8 <= |c| && |c| % 8 == 0 && Blank(c, 8 * slot, 8 * slot + 8)
    ensures Build(c, slot, Empty) == SetSlot(c, slot, PointerTo(Empty, |c| / 8 - slot - 1)) + Layout(Empty)
  {
    hide ToLe, SetBytes, Blank;
    ZeroPointer();
    SetSame(c, 8 * slot, 8);
    assert c + [] == c;
  }

  lemma BuildBlob(c: Bytes, slot: nat, n: Node)
    requires 8 * slot + 8 <= |c| && |c| % 8 == 0 && n.Blob?
    ensures Build(c, slot, n) == SetSlot(c, slot, PointerTo(n, |c| / 8 - slot - 1)) + Layout(n)
  {
    hide ListPointer, SetSlot;
    assert Layout(n) == Body(n) + [] == Body(n);
  }

  lemma StructParts(c: Bytes, slot: nat, n: Node)
    requires 8 * slot + 8 <= |c| && |c| % 8 == 0 && Aligned(n) && n.Struct?
    ensures var head, fields := SetSlot(c, slot, PointerTo(n, |c| / 8 - slot - 1)), n.fields;
            && Build(c, slot, n) == (if fields == [] then head + (n.data + Zeros(0))
                                     else
                                       SizeParts(n);
                                       var start := head + (n.data + Zeros(8 * |fields|));
                                       BuildAll(start, |c| / 8 + |n.data| / 8, fields))
            && Layout(n) == (n.data + Slots(fields, |fields| - 1)) + if fields == [] then [] else LayoutAll(fields)
  {
    hide StructPointer, SetSlot, BuildAll, LayoutAll, Slots;
  }

  lemma PointerParts(c: Bytes, slot: nat, n: Node)
    requires 8 * slot + 8 <= |c| && |c| % 8 == 0 && Aligned(n) && n.Pointers?
    ensures var head, items := SetSlot(c, slot, PointerTo(n, |c| / 8 - slot - 1)), n.items;
            && Build(c, slot, n) == (if items == [] then head + ([] + Zeros(0))
                                     else SizeParts(n); BuildAll(head + ([] + Zeros(8 * |items|)), |c| / 8, items))
            && Layout(n) == ([] + Slots(items, |items| - 1)) + if items == [] then [] else LayoutAll(items)
  {
    hide ListPointer, SetSlot, BuildAll, LayoutAll, Slots;
    assert [] + Zeros(8 * |n.items|) == Zeros(8 * |n.items|);
    assert [] + Slots(n.items, |n.items| - 1) == Slots(n.items, |n.items| - 1);
  }

  /** Filling the slots of a freshly opened object. */
  lemma {:induction false} OpenThenFill(c: Bytes, data: Bytes, slots: Bytes, ns: seq<Node>)
    requires |c| % 8 == 0 && |data| % 8 == 0 && AllAligned(ns) && slots == Slots(ns, |ns| - 1)
    ensures ns != [] ==>
              BuildAll(c + (data + Zeros(8 * |ns|)), |c| / 8 + |data| / 8, ns) == c + ((data + slots) + LayoutAll(ns))
    ensures ns == [] ==> c + (data + Zeros(0)) == c + ((data + slots) + [])
    decreases ns, 1
  {
    hide ToLe, SetBytes, Size, SizeAll, Layout, Build, Slots;
    if ns == [] {
      assert slots == [];
    } else {
      var z := Zeros(8 * |ns|);
      var d := c + (data + z);
      assert d == (c + data) + z;
      var slot := |c| / 8 + |data| / 8;
      assert d[8 * slot..8 * slot + 8 * |ns|] == z;
      BuildAllIsLayout(d, slot, ns);
      SetRight(c + data, z, 0, slots);
      assert SetBytes(z, 0, slots) == slots by { SetAll(z, slots); }
      assert (c + data) + slots + LayoutAll(ns) == c + ((data + slots) + LayoutAll(ns));
    }
  }

  lemma SetAll(c: Bytes, b: Bytes)
    requires |c| == |b|
    ensures SetBytes(c, 0, b) == b
  {
  }

  lemma {:induction false} BuildAllIsLayout(c: Bytes, slot: nat, ns: seq<Node>)
    requires 8 * (slot + |ns|) <= |c| && |c| % 8 == 0 && AllAligned(ns) && Blank(c, 8 * slot, 8 * (slot + |ns|))
    ensures BuildAll(c, slot, ns) == SetBytes(c, 8 * slot, Slots(ns, |c| / 8 - slot - 1)) + LayoutAll(ns)
    decreases ns, 0
  {
    hide ToLe, Layout, Build, PointerTo, SetBytes, Blank, SizeAll, Aligned, Size;
    if ns == [] {
      SetNone(c, 8 * slot);
    } else {
      var n, rest, ahead := ns[0], ns[1..], |c| / 8 - slot - 1;
      BlankParts(c, 8 * slot, 8 * slot + 8, 8 * (slot + |ns|));
      BuildIsLayout(c, slot, n);
      var p := ToLe(8, PointerTo(n, ahead));
      var d := SetBytes(c, 8 * slot, p) + Layout(n);
      BlankAfter(c, Layout(n), 8 * slot, p, 8 * slot + 8, 8 * (slot + |ns|));
      BuildAllIsLayout(d, slot + 1, rest);
      var more := Slots(rest, ahead - 1 + Size(n));
      SetLeft(SetBytes(c, 8 * slot, p), Layout(n), 8 * slot + 8, more);
      SetTwice(c, 8 * slot, p, more);
      var all := SetBytes(c, 8 * slot, p + more);
      assert all + Layout(n) + LayoutAll(rest) == all + (Layout(n) + LayoutAll(rest));
    }
  }

  lemma SetNone(c: Bytes, at: nat)
    requires at <= |c|
    ensures SetBytes(c, at, []) + [] == c
  {
  }

  lemma BlankParts(c: Bytes, a: nat, b: nat, e: nat)
    requires a <= b <= e <= |c| && Blank(c, a, e)
    ensures Blank(c, a, b) && Blank(c, b, e)
  {
    SliceOfSlice(c, a, e, 0, b - a);
    SliceOfSlice(c, a, e, b - a, e - a);
  }

  /** The segment of a message is what building its root into one blank word gives. */
  lemma SegmentIsBuilt(root: Node)
    requires Aligned(root)
    ensures Build(Zeros(8), 0, root) == Segment(root)
  {
    hide ToLe, Layout, Build, PointerTo;
    assert Zeros(8)[0..8] == Zeros(8);
    BuildIsLayout(Zeros(8), 0, root);
    SetAll(Zeros(8), ToLe(8, PointerTo(root, 0)));
  }

  /** Setting bytes inside the data of the struct just opened is opening it with those bytes. */
  lemma PatchOpen(c: Bytes, slot: nat, data: Bytes, pointers: nat, byte: nat, b: Bytes)
    requires 8 * slot + 8 <= |c| && byte + |b| <= |data|
    ensures SetBytes(OpenStruct(c, slot, data, pointers), |c| + byte, b)
        == OpenStruct(c, slot, SetBytes(data, byte, b), pointers)
  {
    hide StructPointer, ToLe, SetBytes;
    var head := SetSlot(c, slot, StructPointer(|c| / 8 - slot - 1, Words(|data|), pointers));
    SetRight(head, data + Zeros(8 * pointers), byte, b);
    SetLeft(data, Zeros(8 * pointers), byte, b);
  }
}
