/** The messages the builder writes carry their trees: one of the ways an object may be laid out. */
module CapnpLayouts {
  import opened Core
  import opened CapnpReader
  import opened CapnpObjects
  import opened CapnpTree
  import CapnpMeaning
  import CapnpSafety
  import Framing

  /** The object a tree stands for; text carries its terminating zero. */
  function ObjOf(n: Node): Obj
    decreases n, 1
  {
    match n
    case Empty => Nil
    case Struct(data, fields) => Record(data, if fields == [] then [] else ObjsOf(fields))
    case Blob(bytes, text) => CapnpObjects.Blob(bytes + if text then [0] else [])
    case Pointers(items) => Refs(if items == [] then [] else ObjsOf(items))
  }

  function ObjsOf(ns: seq<Node>): (os: seq<Obj>)
    ensures |os| == |ns| && forall i :: 0 <= i < |ns| ==> os[i] == ObjOf(ns[i])
    decreases ns, 0
  {
    if ns == [] then [] else [ObjOf(ns[0])] + ObjsOf(ns[1..])
  }

  /** No more than k levels of objects. */
  predicate Shallow(n: Node, k: nat)
    decreases n
  {
    k > 0 && forall i :: 0 <= i < |Children(n)| ==> Shallow(Children(n)[i], k - 1)
  }

  /** A slot that points to a laid-out tree refers to its object. */
  lemma {:induction false} LaidOutInSlot(seg: Bytes, slot: nat, at: nat, n: Node, depth: nat)
    requires CapnpSafety.Sound([seg]) && Points(seg, slot, at, n) && Sits(seg, at, n) && Fits(n)
        && slot < at < slot + 0x1000
    requires 1 <= depth <= DEPTH_MAX && Shallow(n, DEPTH_MAX + 1 - depth)
    ensures InSlot([seg], 0, slot, depth, ObjOf(n))
    decreases n, 1
  {
    hide Follow, Sits, Fits, Points, BodyWords, DataSize, CapnpMeaning.Locates, CapnpSafety.SlotCharges, Shows, Shallow;
    var r := Reader([seg], 0x2000, Ok);
    Affordable(n);
    Bounded(seg);
    FollowDenotes(r, seg, slot, at, n, depth);
    if n.Empty? {
      EmptySlot(seg, slot, at);
    } else {
      var v := Follow(r, 0, slot, depth).v;
      CapnpMeaning.FollowFinds(r, 0, slot, depth);
      CapnpSafety.FollowInside(r, 0, slot, depth);
      LaidOutShows(seg, v, n);
      assert CapnpMeaning.Locates([seg], 0, slot, v, depth) && Shows([seg], v, ObjOf(n));
    }
  }

  lemma Bounded(seg: Bytes)
    requires CapnpSafety.Sound([seg])
    ensures |seg| < U32
  {
    assert |[seg][0]| <= Framing.MESSAGE_MAX;
  }

  lemma Affordable(n: Node)
    requires Fits(n)
    ensures Cost(n) <= 0x2000
  {
    BodyFits(n);
  }

  lemma EmptySlot(seg: Bytes, slot: nat, at: nat)
    requires Points(seg, slot, at, Empty)
    ensures CapnpMeaning.Holds([seg], 0, slot, 0)
  {
    hide WordAt;
  }

  /** A value that denotes a tree shows its object. */
  lemma {:induction false} LaidOutShows(seg: Bytes, v: Value, n: Node)
    requires CapnpSafety.Sound([seg]) && CapnpSafety.Inside([seg], v) && Denotes(seg, v, n) && !n.Empty?
    requires Shallow(n, DEPTH_MAX + 1 - v.depth)
    ensures Shows([seg], v, ObjOf(n))
    decreases n, 0
  {
    hide Sits, Fits, Points, BodyWords, InSlot, Size, Layout, ZeroSized, Shallow, CapnpSafety.Inside, CapnpSafety.Sound,
        ObjOf, Denotes, Shows, DataSize;
    DenotesPlace(seg, v, n);
    forall i | 0 <= i < |Children(n)|
      ensures InSlot([seg], 0, v.word + DataSize(n) + i, v.depth + 1, ObjOf(Children(n)[i]))
    {
      LaidOutChild(seg, v, n, i);
      ChildSits(seg, v.word, n, i);
      LaidOutInSlot(seg, v.word + DataSize(n) + i, ChildAt(n, v.word, i), Children(n)[i], v.depth + 1);
    }
    match n {
      case Struct(_, fields) =>
        assert Children(n) == fields;
        StructShows(seg, v, n);
      case Blob(_, _) => BlobShows(seg, v, n);
      case Pointers(items) =>
        assert Children(n) == items;
        PointersShow(seg, v, n);
    }
  }

  lemma DenotesPlace(seg: Bytes, v: Value, n: Node)
    requires Denotes(seg, v, n) && !n.Empty?
    ensures v.StructValue? || v.ListValue?
  {
    hide Sits, Fits;
  }

  lemma StructShows(seg: Bytes, v: Value, n: Node)
    requires CapnpSafety.Inside([seg], v) && Denotes(seg, v, n) && n.Struct?
    requires forall i :: 0 <= i < |n.fields| ==>
               InSlot([seg], 0, v.word + DataSize(n) + i, v.depth + 1, ObjOf(n.fields[i]))
    ensures Shows([seg], v, ObjOf(n))
  {
    hide Sits, InSlot, CapnpSafety.Inside, BytesAt, DataSize;
    FitsAligned(n);
    ShowsData(seg, v, n);
  }

  lemma BlobShows(seg: Bytes, v: Value, n: Node)
    requires CapnpSafety.Inside([seg], v) && Denotes(seg, v, n) && n.Blob?
    ensures Shows([seg], v, ObjOf(n))
  {
    hide Sits, CapnpSafety.Inside;
    FitsAligned(n);
    BlobSlice(seg, v.word, n);
  }

  lemma PointersShow(seg: Bytes, v: Value, n: Node)
    requires CapnpSafety.Inside([seg], v) && Denotes(seg, v, n) && n.Pointers?
    requires forall i :: 0 <= i < |n.items| ==>
        InSlot([seg], 0, v.word + DataSize(n) + i, v.depth + 1, ObjOf(n.items[i]))
    ensures Shows([seg], v, ObjOf(n))
  {
    hide Sits, Fits, InSlot, CapnpSafety.Inside, DataSize, BytesAt;
    NoData(n);
    forall i | 0 <= i < |n.items| ensures InSlot([seg], 0, v.word + i, v.depth + 1, ObjOf(n.items[i])) {
      assert InSlot([seg], 0, v.word + DataSize(n) + i, v.depth + 1, ObjOf(n.items[i]));
    }
  }

  lemma NoData(n: Node)
    requires n.Pointers?
    ensures DataSize(n) == 0
  {
  }

  lemma ShowsData(seg: Bytes, v: Value, n: Node)
    requires CapnpSafety.Inside([seg], v) && Denotes(seg, v, n) && n.Struct? && Aligned(n)
    ensures |n.data| == 8 * v.dataWords && BytesAt([seg], v.segment, v.word, n.data)
  {
    hide Sits, Fits, BodyWords, Size, Layout, Aligned, DataSize;
    DataIsWords(n);
    if !ZeroSized(n) {
      DataSlice(seg, v.word, n, 0, |n.data|);
      assert n.data[0..|n.data|] == n.data;
    } else {
      assert n.data == [];
    }
  }

  lemma LaidOutChild(seg: Bytes, v: Value, n: Node, i: nat)
    requires Denotes(seg, v, n) && (n.Struct? || n.Pointers?) && i < |Children(n)|
        && Shallow(n, DEPTH_MAX + 1 - v.depth)
    ensures Sits(seg, v.word, n) && Fits(n)
    ensures v.depth < DEPTH_MAX && Shallow(Children(n)[i], DEPTH_MAX - v.depth)
  {
    hide Sits, Fits, BodyWords, Size, Layout;
    assert Shallow(Children(n)[i], DEPTH_MAX - v.depth);
  }

  /** The frame of a tree carries its object. */
  lemma MessageCarries(root: Node)
    requires Sendable(root) && Shallow(root, DEPTH_MAX)
    ensures Carries(Message(root), ObjOf(root))
  {
    hide Layout, Size, PointerTo, Framing.U32At, Framing.WellFramed, Init, WordAt, ToLe, BodyWords, Aligned, Shallow,
        InSlot;
    CapnpSafety.InitIsSound(Message(root));
    MessageShape(root);
    OneSegment(Message(root), 1 + Size(root));
    LayoutLength(root);
    var seg := Segment(root);
    PointerFits(root, 0);
    assert seg[0..8] == ToLe(8, PointerTo(root, 0));
    SlotWord(seg, 0, PointerTo(root, 0));
    assert seg[8..8 + |Layout(root)|] == Layout(root);
    LaidOutInSlot(seg, 0, 1, root, 1);
  }
}
