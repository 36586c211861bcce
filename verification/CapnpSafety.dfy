/** What holds of the pointer reader on every byte string and over every sequence of calls. */
module CapnpSafety {
  import opened Core
  import opened CapnpReader
  import Framing

  /** The shape every accepted frame gives: at most eight word-aligned segments of bounded size. */
  predicate Sound(segments: seq<Bytes>)
  {
    && |segments| <= Framing.MAX_SEGMENTS
    && forall i :: 0 <= i < |segments| ==> |segments[i]| % 8 == 0 && |segments[i]| <= Framing.MESSAGE_MAX
  }

  lemma InitIsSound(frame: Bytes)
    ensures Sound(Init(frame).segments)
    ensures Init(frame).error == Ok <==> Framing.WellFramed(frame)
    ensures Init(frame).budget == TRAVERSAL_WORDS
  {
    hide Framing.U32At, Framing.WellFramed, Framing.SegmentBytes;
    InitOk(frame);
    if Framing.WellFramed(frame) {
      forall i | 0 <= i <= Framing.U32At(frame, 0)
        ensures |Framing.SegmentBytes(frame, i)| % 8 == 0 && |Framing.SegmentBytes(frame, i)| <= Framing.MESSAGE_MAX
      {
        Framing.StartBounds(frame, i);
        FrameBound(frame);
      }
    }
  }

  lemma FrameBound(frame: Bytes)
    requires Framing.WellFramed(frame)
    ensures |frame| <= Framing.MESSAGE_MAX
  {
  }

  /** The value lies wholly inside one segment, at a legal depth, with every field in its C type. */
  predicate Inside(segments: seq<Bytes>, v: Value)
  {
    match v
    case NullValue => true
    case CapValue(cap, depth) => cap < U32 && 1 <= depth <= DEPTH_MAX
    case StructValue(seg, word, data, ptrs, depth) =>
      1 <= depth <= DEPTH_MAX && data < U16 && ptrs < U16 && InRange(segments, seg, word, data + ptrs)
    case ListValue(seg, word, size, count, data, ptrs, depth) =>
      1 <= depth <= DEPTH_MAX && data < U16 && ptrs < U16 && size <= 7 && count < 0x4000_0000
      && InRange(segments, seg, word, if size == 7 then Times(count, data + ptrs) else ListWords(size, count))
  }

  /** What a successful call may change: nothing but the budget, downwards, and the error, once. */
  predicate Progress(r: Reader, s: Reader)
  {
    s.segments == r.segments && s.budget <= r.budget && (r.error != Ok ==> s == r)
  }

  lemma ObjectInside(r: Reader, seg: nat, target: int, p: nat, depth: nat)
    requires Tag(p) <= 1 && r.error == Ok && 1 <= depth <= DEPTH_MAX
    ensures var g := Object(r, seg, target, p, depth);
            Inside(r.segments, g.v) && Progress(r, g.r) && (!g.v.NullValue? ==> g.v.depth == depth)
    ensures var g := Object(r, seg, target, p, depth); g.r.error == Ok <==> !g.v.NullValue?
  {
    hide Tag, DataWords, PointerCount, ElementSize, ElementCount, TagCount, ListWords, WordAt;
    if 0 <= target < U32 && Tag(p) == 1 && ElementSize(p) == 7 {
      CompositeInside(r, seg, target, ElementCount(p), depth);
    }
  }

  lemma CompositeInside(r: Reader, seg: nat, word: nat, words: nat, depth: nat)
    requires r.error == Ok && 1 <= depth <= DEPTH_MAX
    ensures var g := Composite(r, seg, word, words, depth);
            Inside(r.segments, g.v) && Progress(r, g.r) && (!g.v.NullValue? ==> g.v.depth == depth)
    ensures var g := Composite(r, seg, word, words, depth); g.r.error == Ok <==> !g.v.NullValue?
  {
    hide Tag, DataWords, PointerCount, TagCount, WordAt;
  }

  /** Whatever the slot holds - near, far, double-far or composite - the value found is inside one segment. */
  lemma FollowInside(r: Reader, seg: nat, slot: nat, depth: nat)
    requires 1 <= depth
    ensures var g := Follow(r, seg, slot, depth);
            Inside(r.segments, g.v) && Progress(r, g.r) && (!g.v.NullValue? ==> g.v.depth == depth <= DEPTH_MAX)
    ensures Followed(r, seg, slot, depth) ==> Follow(r, seg, slot, depth).r.budget < r.budget
  {
    hide Tag, Offset, TwoWordPad, PadSlot, WordAt, InRange, Object;
    if r.error == Ok && depth <= DEPTH_MAX && InRange(r.segments, seg, slot, 1) {
      var s, p := Charge(r, 1), WordAtSlot(r, seg, slot);
      if s.error == Ok && p != 0 {
        if Tag(p) == 2 {
          LandingInside(s, p, depth);
        } else if Tag(p) <= 1 {
          ObjectInside(s, seg, slot + 1 + Offset(p), p, depth);
        }
      }
    }
  }

  function WordAtSlot(r: Reader, seg: nat, slot: nat): nat
    requires InRange(r.segments, seg, slot, 1)
  {
    WordAt(r.segments[seg], slot)
  }

  lemma LandingInside(r: Reader, p: nat, depth: nat)
    requires r.error == Ok && 1 <= depth <= DEPTH_MAX
    ensures var g := Landing(r, p, depth);
            Inside(r.segments, g.v) && Progress(r, g.r) && (!g.v.NullValue? ==> g.v.depth == depth)
  {
    hide Tag, Offset, TwoWordPad, PadSlot, High, WordAt, Object;
    var seg, slot := High(p), PadSlot(p);
    var size := if TwoWordPad(p) then 2 else 1;
    if InRange(r.segments, seg, slot, size) && size <= r.budget {
      var s := Charge(r, size);
      var q := WordAt(r.segments[seg], slot);
      if TwoWordPad(p) {
        var tag := WordAt(r.segments[seg], slot + 1);
        if Tag(tag) <= 1 { ObjectInside(s, High(q), PadSlot(q), tag, depth); }
      } else if Tag(q) <= 1 {
        ObjectInside(s, seg, slot + 1 + Offset(q), q, depth);
      }
    }
  }

  /** The pointer word of this slot is read and paid for. */
  predicate Followed(r: Reader, seg: nat, slot: nat, depth: nat)
  {
    r.error == Ok && depth <= DEPTH_MAX && InRange(r.segments, seg, slot, 1) && r.budget >= 1
  }

  // ---- no 32-bit or 8-bit wrap on values the reader itself returned

  lemma FieldInside(r: Reader, s: Value, index: nat)
    requires Sound(r.segments) && Inside(r.segments, s)
    ensures s.StructValue? && index < s.pointers ==>
              s.word + s.dataWords + index < U32 && s.depth + 1 < 256
              && InRange(r.segments, s.segment, s.word + s.dataWords + index, 1)
    ensures var g := Field(r, s, index);
            Inside(r.segments, g.v) && Progress(r, g.r)
                && (!g.v.NullValue? ==> s.StructValue? && g.v.depth == s.depth + 1)
  {
    hide Follow;
    if r.error == Ok && s.StructValue? && index < s.pointers {
      FollowInside(r, s.segment, s.word + s.dataWords + index, s.depth + 1);
    }
  }

  lemma ElementFits(index: nat, count: nat, size: nat)
    requires index < count
    ensures Times(index, size) + size <= Times(count, size)
  {
    assert (index + 1) * size <= count * size;
  }

  lemma SlotFits(segments: seq<Bytes>, list: Value, index: nat)
    requires Sound(segments) && Inside(segments, list) && list.ListValue? && list.elementSize == 6 && index < list.count
    ensures list.word + index < U32 && InRange(segments, list.segment, list.word + index, 1)
  {
  }

  lemma ElementInside(segments: seq<Bytes>, list: Value, index: nat)
    requires Sound(segments) && Inside(segments, list) && list.ListValue? && list.elementSize == 7 && index < list.count
    requires list.depth < DEPTH_MAX
    ensures var word := list.word + Times(index, list.dataWords + list.pointers);
            word < U32
                && Inside(segments, StructValue(list.segment, word, list.dataWords, list.pointers, list.depth + 1))
  {
    hide Times;
    ElementFits(index, list.count, list.dataWords + list.pointers);
  }

  lemma AtInside(r: Reader, list: Value, index: nat)
    requires Sound(r.segments) && Inside(r.segments, list)
    ensures list.ListValue? && index < list.count && list.elementSize == 6 ==>
              list.word + index < U32 && list.depth + 1 < 256 && InRange(r.segments, list.segment, list.word + index, 1)
    ensures list.ListValue? && index < list.count && list.elementSize == 7 && list.depth < DEPTH_MAX ==>
              list.word + Times(index, list.dataWords + list.pointers) < U32
    ensures var g := At(r, list, index);
            Inside(r.segments, g.v) && Progress(r, g.r)
                && (!g.v.NullValue? ==> list.ListValue? && g.v.depth == list.depth + 1)
  {
    hide Follow, Times;
    if list.ListValue? && index < list.count {
      if list.elementSize == 6 {
        SlotFits(r.segments, list, index);
        if r.error == Ok { FollowInside(r, list.segment, list.word + index, list.depth + 1); }
      } else if list.elementSize == 7 && list.depth < DEPTH_MAX {
        ElementInside(r.segments, list, index);
      }
    }
  }

  /** On a value the reader returned, the range check of a data read never fails. */
  lemma DataInside(r: Reader, v: Value)
    requires Inside(r.segments, v) && v.ListValue? && v.elementSize == 2
    ensures InRange(r.segments, v.segment, v.word, (v.count + 7) / 8)
    ensures r.error == Ok ==> Data(r, v, false) == GotBytes(r, r.segments[v.segment][8 * v.word..8 * v.word + v.count])
  {
  }

  // ---- whole sessions

  datatype Call =
    | CallRoot
    | CallField(of: nat, index: nat)
    | CallAt(of: nat, index: nat)
    | CallUInt(of: nat, byte: nat, width: nat)
    | CallData(of: nat, text: bool)

  datatype Answer = AnswerValue(v: Value) | AnswerNumber(n: nat) | AnswerBytes(b: Bytes)

  /** A reader with every answer it has given; `of` in a call names one of them. */
  datatype Session = Session(r: Reader, answers: seq<Answer>)

  function Chosen(answers: seq<Answer>, of: nat): Value
  {
    if of < |answers| && answers[of].AnswerValue? then answers[of].v else NullValue
  }

  function Do(s: Session, c: Call): Session
  {
    match c
    case CallRoot => var g := Root(s.r); Session(g.r, s.answers + [AnswerValue(g.v)])
    case CallField(of, index) => var g := Field(s.r, Chosen(s.answers, of), index);
        Session(g.r, s.answers + [AnswerValue(g.v)])
    case CallAt(of, index) => var g := At(s.r, Chosen(s.answers, of), index);
        Session(g.r, s.answers + [AnswerValue(g.v)])
    case CallUInt(of, byte, width) =>
      var g := UInt(s.r, Chosen(s.answers, of), byte, width); Session(g.r, s.answers + [AnswerNumber(g.n)])
    case CallData(of, text) => var g := Data(s.r, Chosen(s.answers, of), text);
        Session(g.r, s.answers + [AnswerBytes(g.b)])
  }

  function DoAll(s: Session, calls: seq<Call>): Session
    decreases |calls|
  {
    if calls == [] then s else DoAll(Do(s, calls[0]), calls[1..])
  }

  predicate LiesAt(segments: seq<Bytes>, b: Bytes, seg: nat, at: nat)
  {
    seg < |segments| && at + |b| <= |segments[seg]| && segments[seg][at..at + |b|] == b
  }

  /** The bytes are a window of one segment. */
  ghost predicate WindowOf(segments: seq<Bytes>, b: Bytes)
  {
    b == [] || exists seg: nat, at: nat :: LiesAt(segments, b, seg, at)
  }

  ghost predicate AnswerInside(segments: seq<Bytes>, a: Answer)
  {
    match a
    case AnswerValue(v) => Inside(segments, v)
    case AnswerNumber(n) => n < U64
    case AnswerBytes(b) => WindowOf(segments, b)
  }

  ghost predicate SessionSafe(s: Session)
  {
    Sound(s.r.segments) && forall i :: 0 <= i < |s.answers| ==> AnswerInside(s.r.segments, s.answers[i])
  }

  /** The call reads a pointer slot. */
  predicate FollowsSlot(s: Session, c: Call)
  {
    match c
    case CallRoot => Followed(s.r, 0, 0, 1)
    case CallField(of, index) =>
      var v := Chosen(s.answers, of);
      v.StructValue? && index < v.pointers && Followed(s.r, v.segment, v.word + v.dataWords + index, v.depth + 1)
    case CallAt(of, index) =>
      var v := Chosen(s.answers, of);
      v.ListValue? && v.elementSize == 6 && index < v.count && Followed(s.r, v.segment, v.word + index, v.depth + 1)
    case _ => false
  }

  function SlotsFollowed(s: Session, calls: seq<Call>): nat
    decreases |calls|
  {
    if calls == [] then 0 else (if FollowsSlot(s, calls[0]) then 1 else 0) + SlotsFollowed(Do(s, calls[0]), calls[1..])
  }

  lemma WindowIs(segments: seq<Bytes>, seg: nat, at: nat, n: nat)
    requires seg < |segments| && at + n <= |segments[seg]|
    ensures WindowOf(segments, segments[seg][at..at + n])
  {
    var b := segments[seg][at..at + n];
    assert LiesAt(segments, b, seg, at);
  }

  lemma UIntInside(r: Reader, v: Value, byte: nat, width: nat)
    requires Inside(r.segments, v)
    ensures UInt(r, v, byte, width).n < U64 && Progress(r, UInt(r, v, byte, width).r)
    ensures v.StructValue? ==> InRange(r.segments, v.segment, v.word, v.dataWords)
  {
    if v.StructValue? && r.error == Ok && width in [1, 2, 4, 8] && byte + width <= v.dataWords * 8 {
      var at := v.word * 8 + byte;
      LeBound(r.segments[v.segment][at..at + width]);
      Pow256Values();
    }
  }

  lemma DataWindow(r: Reader, v: Value, text: bool)
    requires Inside(r.segments, v)
    ensures WindowOf(r.segments, Data(r, v, text).b) && Progress(r, Data(r, v, text).r)
  {
    hide WindowOf;
    assert WindowOf(r.segments, []) by { EmptyWindow(r.segments); }
    if r.error == Ok && v.ListValue? && v.elementSize == 2 {
      DataInside(r, v);
      var seg, at := r.segments[v.segment], 8 * v.word;
      WindowIs(r.segments, v.segment, at, v.count);
      if v.count > 0 {
        WindowIs(r.segments, v.segment, at, v.count - 1);
        assert seg[at..at + v.count][..v.count - 1] == seg[at..at + v.count - 1];
      }
    }
  }

  lemma EmptyWindow(segments: seq<Bytes>)
    ensures WindowOf(segments, [])
  {
  }

  lemma DoSafe(s: Session, c: Call)
    requires SessionSafe(s)
    ensures SessionSafe(Do(s, c)) && Progress(s.r, Do(s, c).r)
    ensures FollowsSlot(s, c) ==> Do(s, c).r.budget < s.r.budget
  {
    hide Inside, Follow, Field, At, UInt, Data, Sound, WindowOf, InRange;
    InsideNull(s.r.segments);
    match c
    case CallRoot => FollowInside(s.r, 0, 0, 1);
    case CallField(of, index) =>
      FieldInside(s.r, Chosen(s.answers, of), index);
      if FollowsSlot(s, c) { FieldFollows(s.r, Chosen(s.answers, of), index); }
    case CallAt(of, index) =>
      AtInside(s.r, Chosen(s.answers, of), index);
      if FollowsSlot(s, c) { AtFollows(s.r, Chosen(s.answers, of), index); }
    case CallUInt(of, byte, width) => UIntInside(s.r, Chosen(s.answers, of), byte, width);
    case CallData(of, text) => DataWindow(s.r, Chosen(s.answers, of), text);
  }

  lemma InsideNull(segments: seq<Bytes>)
    ensures Inside(segments, NullValue)
  {
  }

  lemma FieldFollows(r: Reader, v: Value, index: nat)
    requires Sound(r.segments) && Inside(r.segments, v) && v.StructValue? && index < v.pointers
    requires Followed(r, v.segment, v.word + v.dataWords + index, v.depth + 1)
    ensures Field(r, v, index).r.budget < r.budget
  {
    hide Follow;
    FieldInside(r, v, index);
    FollowInside(r, v.segment, v.word + v.dataWords + index, v.depth + 1);
  }

  lemma AtFollows(r: Reader, v: Value, index: nat)
    requires Sound(r.segments) && Inside(r.segments, v) && v.ListValue? && v.elementSize == 6 && index < v.count
    requires Followed(r, v.segment, v.word + index, v.depth + 1)
    ensures At(r, v, index).r.budget < r.budget
  {
    hide Follow;
    AtInside(r, v, index);
    FollowInside(r, v.segment, v.word + index, v.depth + 1);
  }

  lemma {:induction false} DoAllSafe(s: Session, calls: seq<Call>)
    requires SessionSafe(s)
    ensures SessionSafe(DoAll(s, calls)) && DoAll(s, calls).r.segments == s.r.segments
    ensures SlotsFollowed(s, calls) + DoAll(s, calls).r.budget <= s.r.budget
    decreases |calls|
  {
    hide SessionSafe, Do, FollowsSlot;
    if calls != [] {
      DoSafe(s, calls[0]);
      DoAllSafe(Do(s, calls[0]), calls[1..]);
    }
  }

  /** Any frame, any calls: every answer is in bounds and at most 4096 pointer slots are ever followed. */
  lemma EverySessionIsSafe(frame: Bytes, calls: seq<Call>)
    ensures SessionSafe(DoAll(Session(Init(frame), []), calls))
    ensures SlotsFollowed(Session(Init(frame), []), calls) <= 4096
  {
    InitIsSound(frame);
    DoAllSafe(Session(Init(frame), []), calls);
  }

  // ---- the budget is spent on exactly the charges made

  /** What the object behind a struct or list pointer costs: its words, at least one, and a composite list's tag. */
  function ObjectCharge(p: nat): nat
  {
    if Tag(p) == 0 then Max(1, DataWords(p) + PointerCount(p))
    else if ElementSize(p) == 7 then ElementCount(p) + 1
    else Max(1, ListWords(ElementSize(p), ElementCount(p)))
  }

  /** The object's charge, if the pointer describes one. */
  function ObjectCharges(p: nat): seq<nat> { if Tag(p) <= 1 then [ObjectCharge(p)] else [] }

  /** The charges behind a far pointer: its landing pad, then the object. */
  function PadCharges(segments: seq<Bytes>, p: nat): seq<nat>
  {
    var seg, slot, size := High(p), PadSlot(p), if TwoWordPad(p) then 2 else 1;
    if !InRange(segments, seg, slot, size) then []
    else [size] + ObjectCharges(WordAt(segments[seg], slot + size - 1))
  }

  /** The charges of following a slot, in the order they are made. */
  function SlotCharges(segments: seq<Bytes>, seg: nat, slot: nat): seq<nat>
  {
    if !InRange(segments, seg, slot, 1) then []
    else
      var p := WordAt(segments[seg], slot);
      [1] + if p == 0 then [] else if Tag(p) == 2 then PadCharges(segments, p) else ObjectCharges(p)
  }

  /** The sum of the first k charges. */
  function SumTo(charges: seq<nat>, k: nat): nat
    requires k <= |charges|
  {
    if k == 0 then 0 else SumTo(charges, k - 1) + charges[k - 1]
  }

  function Sum(charges: seq<nat>): nat { SumTo(charges, |charges|) }

  /** From r to s the first k charges were paid and nothing else; without an error all of them were. */
  predicate Spends(r: Reader, s: Reader, charges: seq<nat>, k: nat)
  {
    k <= |charges| && s.budget + SumTo(charges, k) == r.budget && (s.error == Ok ==> k == |charges|)
  }

  /** A first charge that was paid, followed by others. */
  lemma SpendsFirst(r: Reader, s: Reader, t: Reader, first: nat, rest: seq<nat>, k: nat)
    requires s.budget + first == r.budget && Spends(s, t, rest, k)
    ensures Spends(r, t, [first] + rest, k + 1)
  {
    SumFirst(first, rest, k);
  }

  lemma {:induction false} SumFirst(first: nat, rest: seq<nat>, k: nat)
    requires k <= |rest|
    ensures SumTo([first] + rest, k + 1) == first + SumTo(rest, k)
  {
    if k > 0 { SumFirst(first, rest, k - 1); }
  }

  lemma ObjectSpends(r: Reader, seg: nat, target: int, p: nat, depth: nat) returns (k: nat)
    requires Tag(p) <= 1 && r.error == Ok
    ensures Spends(r, Object(r, seg, target, p, depth).r, ObjectCharges(p), k)
  {
    hide Tag, DataWords, PointerCount, ElementSize, ElementCount, TagCount, ListWords, WordAt, Times;
    var g := Object(r, seg, target, p, depth);
    k := if g.r.error == Ok then 1 else 0;
    assert SumTo(ObjectCharges(p), 1) == SumTo(ObjectCharges(p), 0) + ObjectCharge(p);
  }

  lemma NothingSpent(r: Reader, s: Reader, charges: seq<nat>)
    requires s.budget == r.budget && (s.error == Ok ==> charges == [])
    ensures Spends(r, s, charges, 0)
  {
  }

  lemma LandingSpends(r: Reader, p: nat, depth: nat) returns (k: nat)
    requires r.error == Ok
    ensures Spends(r, Landing(r, p, depth).r, PadCharges(r.segments, p), k)
  {
    hide Tag, Offset, TwoWordPad, PadSlot, High, WordAt, Object, ObjectCharges, Spends;
    var seg, slot := High(p), PadSlot(p);
    var size := if TwoWordPad(p) then 2 else 1;
    var t := Landing(r, p, depth).r;
    if !InRange(r.segments, seg, slot, size) || size > r.budget {
      NothingSpent(r, t, PadCharges(r.segments, p));
      k := 0;
    } else {
      var s := Charge(r, size);
      var q := WordAt(r.segments[seg], slot);
      var word := WordAt(r.segments[seg], slot + size - 1);
      k := 0;
      if t == Fail(s, ErrFormat) {
        NothingSpent(s, t, ObjectCharges(word));
      } else if TwoWordPad(p) {
        k := ObjectSpends(s, High(q), PadSlot(q), word, depth);
      } else {
        k := ObjectSpends(s, seg, slot + 1 + Offset(q), q, depth);
      }
      SpendsFirst(r, s, t, size, ObjectCharges(word), k);
      k := k + 1;
    }
  }

  /** Following a slot spends its charges in order, all of them unless one of them or a check fails. */
  lemma FollowSpends(r: Reader, seg: nat, slot: nat, depth: nat) returns (k: nat)
    requires r.error == Ok
    ensures Spends(r, Follow(r, seg, slot, depth).r, SlotCharges(r.segments, seg, slot), k)
  {
    hide Tag, Offset, WordAt, InRange, Object, Landing, ObjectCharges, PadCharges, Spends;
    var t := Follow(r, seg, slot, depth).r;
    k := 0;
    if depth > DEPTH_MAX || !InRange(r.segments, seg, slot, 1) || r.budget < 1 {
      NothingSpent(r, t, SlotCharges(r.segments, seg, slot));
    } else {
      var s, p := Charge(r, 1), WordAtSlot(r, seg, slot);
      var rest := if p == 0 then [] else if Tag(p) == 2 then PadCharges(r.segments, p) else ObjectCharges(p);
      if p == 0 {
        NothingSpent(s, t, rest);
      } else if Tag(p) == 2 {
        k := LandingSpends(s, p, depth);
      } else if Tag(p) <= 1 {
        k := ObjectSpends(s, seg, slot + 1 + Offset(p), p, depth);
      } else {
        NoObject(p);
        NothingSpent(s, t, rest);
      }
      SpendsFirst(r, s, t, 1, rest, k);
      k := k + 1;
    }
  }

  lemma NoObject(p: nat)
    requires Tag(p) > 1
    ensures ObjectCharges(p) == []
  {
  }

  /** The charges of a call on what the session has answered so far. */
  function Charges(s: Session, c: Call): seq<nat>
  {
    match c
    case CallRoot => SlotCharges(s.r.segments, 0, 0)
    case CallField(of, index) =>
      var v := Chosen(s.answers, of);
      if v.StructValue? && index < v.pointers
      then SlotCharges(s.r.segments, v.segment, v.word + v.dataWords + index) else []
    case CallAt(of, index) =>
      var v := Chosen(s.answers, of);
      if !v.ListValue? || index >= v.count then []
      else if v.elementSize == 6 then SlotCharges(s.r.segments, v.segment, v.word + index)
      else if v.elementSize == 7 then [1]
      else []
    case CallUInt(of, byte, width) =>
      var v := Chosen(s.answers, of);
      if v.StructValue? && width in [1, 2, 4, 8] && byte + width <= v.dataWords * 8 then [1] else []
    case CallData(_, _) => []
  }

  /** Every call spends its own charges, in order and nothing else, and all of them if it ends without an error. */
  lemma CallSpends(s: Session, c: Call) returns (k: nat)
    requires SessionSafe(s) && s.r.error == Ok
    ensures Spends(s.r, Do(s, c).r, Charges(s, c), k)
  {
    hide Follow, Inside, Sound, InRange, WindowOf, Times, Data, SlotCharges, Spends;
    k := 0;
    InsideNull(s.r.segments);
    match c {
      case CallRoot => k := FollowSpends(s.r, 0, 0, 1);
      case CallField(of, index) =>
        var v := Chosen(s.answers, of);
        FieldInside(s.r, v, index);
        if v.StructValue? && index < v.pointers {
          k := FollowSpends(s.r, v.segment, v.word + v.dataWords + index, v.depth + 1);
        } else {
          NothingSpent(s.r, Do(s, c).r, []);
        }
      case CallAt(of, index) =>
        var v := Chosen(s.answers, of);
        AtInside(s.r, v, index);
        if v.ListValue? && index < v.count && v.elementSize == 6 {
          k := FollowSpends(s.r, v.segment, v.word + index, v.depth + 1);
        } else {
          k := OneSpent(s.r, Do(s, c).r, Charges(s, c));
        }
      case CallUInt(of, byte, width) => k := OneSpent(s.r, Do(s, c).r, Charges(s, c));
      case CallData(of, text) =>
        DataSpendsNothing(s.r, Chosen(s.answers, of), text);
        NothingSpent(s.r, Do(s, c).r, []);
    }
  }

  lemma DataSpendsNothing(r: Reader, v: Value, text: bool)
    ensures Data(r, v, text).r.budget == r.budget
  {
  }

  /** A call with at most one charge, of one word. */
  lemma OneSpent(r: Reader, s: Reader, charges: seq<nat>) returns (k: nat)
    requires charges == [] || charges == [1]
    requires s.error == Ok ==> s.budget + |charges| == r.budget
    requires s.error != Ok ==> s.budget == r.budget
    ensures Spends(r, s, charges, k)
  {
    k := r.budget - s.budget;
    assert |charges| == 1 ==> SumTo(charges, 1) == SumTo(charges, 0) + 1;
  }

  /** All charges of a run of calls. */
  function TotalCharge(s: Session, calls: seq<Call>): nat
    decreases |calls|
  {
    if calls == [] then 0 else Sum(Charges(s, calls[0])) + TotalCharge(Do(s, calls[0]), calls[1..])
  }

  /**
   * Over any calls the budget spent is the sum of the charges: all charges of the first n calls, which ended without
   * an error, and, if call n was the first to fail, those of its charges that were made before it failed.
   */
  lemma {:induction false} SessionSpends(s: Session, calls: seq<Call>) returns (n: nat, k: nat)
    requires SessionSafe(s) && s.r.error == Ok
    ensures n <= |calls| && DoAll(s, calls[..n]).r.error == Ok && (DoAll(s, calls).r.error == Ok <==> n == |calls|)
    ensures n == |calls| ==> k == 0
    ensures n < |calls| ==> k <= |Charges(DoAll(s, calls[..n]), calls[n])|
    ensures DoAll(s, calls).r.budget + TotalCharge(s, calls[..n])
            + (if n < |calls| then SumTo(Charges(DoAll(s, calls[..n]), calls[n]), k) else 0) == s.r.budget
    decreases |calls|
  {
    hide SessionSafe, Do, Charges, SumTo;
    n, k := 0, 0;
    if calls != [] {
      var t := Do(s, calls[0]);
      DoSafe(s, calls[0]);
      k := CallSpends(s, calls[0]);
      if t.r.error != Ok {
        assert calls[..0] == [];
        ErrorIsSticky(t, calls[1..]);
      } else {
        n, k := SessionSpends(t, calls[1..]);
        n := n + 1;
        assert calls[..n][1..] == calls[1..][..n - 1] && calls[..n][0] == calls[0];
      }
    }
  }

  /** However cyclic the message, 4096 minus the budget left is the sum of all charges, until the first error. */
  lemma BudgetIsSumOfCharges(frame: Bytes, calls: seq<Call>)
    requires DoAll(Session(Init(frame), []), calls).r.error == Ok
    ensures DoAll(Session(Init(frame), []), calls).r.budget + TotalCharge(Session(Init(frame), []), calls)
        == 4096
  {
    hide Init, DoAll, TotalCharge;
    InitIsSound(frame);
    var s := Session(Init(frame), []);
    InitiallyOk(s, calls);
    var n, k := SessionSpends(s, calls);
    assert calls[..n] == calls;
  }

  lemma InitiallyOk(s: Session, calls: seq<Call>)
    requires DoAll(s, calls).r.error == Ok
    ensures s.r.error == Ok
  {
    hide Do;
    if s.r.error != Ok { ErrorIsSticky(s, calls); }
  }

  /** The words an object spans, an empty one counting as one and a composite list with its tag. */
  function Footprint(v: Value): nat
  {
    match v
    case StructValue(_, _, data, ptrs, _) => Max(1, data + ptrs)
    case ListValue(_, _, size, count, data, ptrs, _) =>
      if size == 7 then Times(count, data + ptrs) + 1 else Max(1, ListWords(size, count))
    case _ => 0
  }

  /** What is charged covers every word of the object handed out, and is no more unless it is a composite list. */
  lemma ChargeCoversObject(r: Reader, seg: nat, target: int, p: nat, depth: nat)
    requires Tag(p) <= 1 && r.error == Ok
    ensures var g := Object(r, seg, target, p, depth);
            !g.v.NullValue? ==> Footprint(g.v) <= ObjectCharge(p)
                                && (g.v.StructValue? || g.v.elementSize != 7 ==> Footprint(g.v) == ObjectCharge(p))
  {
    hide Tag, DataWords, PointerCount, ElementSize, ElementCount, TagCount, ListWords, WordAt, Times;
  }

  function Silent(c: Call): Answer
  {
    if c.CallUInt? then AnswerNumber(0) else if c.CallData? then AnswerBytes([]) else AnswerValue(NullValue)
  }

  /** After the first error every call answers null, zero or empty, and the reader never changes again. */
  lemma {:induction false} ErrorIsSticky(s: Session, calls: seq<Call>)
    requires s.r.error != Ok
    ensures DoAll(s, calls).r == s.r && |DoAll(s, calls).answers| == |s.answers| + |calls|
    ensures forall i :: 0 <= i < |s.answers| ==> DoAll(s, calls).answers[i] == s.answers[i]
    ensures forall i :: 0 <= i < |calls| ==> DoAll(s, calls).answers[|s.answers| + i] == Silent(calls[i])
    decreases |calls|
  {
    if calls != [] {
      var t := Do(s, calls[0]);
      assert t.r == s.r && t.answers == s.answers + [Silent(calls[0])];
      ErrorIsSticky(t, calls[1..]);
      forall i | 0 <= i < |calls| ensures DoAll(s, calls).answers[|s.answers| + i] == Silent(calls[i]) {
        if i > 0 { assert calls[i] == calls[1..][i - 1]; }
      }
    }
  }
}
