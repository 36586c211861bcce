/** The bounds-checked Cap'n Proto pointer reader: what every call returns and leaves behind. */
module CapnpReader {
  import opened Core
  import Framing

  const DEPTH_MAX := 32
  const TRAVERSAL_WORDS := 4096

  // ---- fields of a pointer word

  function Tag(p: nat): (k: nat)
    ensures k < 4
  {
    p % 4
  }

  /** The signed 30-bit offset. */
  function Offset(p: nat): (o: int)
    ensures -0x2000_0000 <= o < 0x2000_0000
  {
    var raw := p / 4 % 0x4000_0000;
    if raw >= 0x2000_0000 then raw - 0x4000_0000 else raw
  }

  function DataWords(p: nat): (n: nat)
    ensures n < U16
  {
    p / U32 % U16
  }

  function PointerCount(p: nat): (n: nat)
    ensures n < U16
  {
    p / 0x1_0000_0000_0000 % U16
  }

  function ElementSize(p: nat): (n: nat)
    ensures n < 8
  {
    p / U32 % 8
  }

  function ElementCount(p: nat): (n: nat)
    ensures n < 0x2000_0000
  {
    p / 0x8_0000_0000 % 0x2000_0000
  }

  /** A far pointer with a two-word landing pad. */
  predicate TwoWordPad(p: nat) { p / 4 % 2 == 1 }

  function PadSlot(p: nat): (n: nat)
    ensures n < 0x2000_0000
  {
    p / 8 % 0x2000_0000
  }

  function High(p: nat): (n: nat)
    ensures n < U32
  {
    p / U32 % U32
  }

  function Low(p: nat): (n: nat)
    ensures n < U32
  {
    p % U32
  }

  /** The element count of a composite list's tag word. */
  function TagCount(p: nat): (n: nat)
    ensures n < 0x4000_0000
  {
    p / 4 % 0x4000_0000
  }

  function Bits(elementSize: nat): (b: nat)
    ensures b <= 64
  {
    if elementSize == 0 then 0 else if elementSize == 1 then 1 else if elementSize == 2 then 8
    else if elementSize == 3 then 16 else if elementSize == 4 then 32 else 64
  }

  /** Words of n elements of k words each. */
  function Times(n: nat, k: nat): nat { n * k }

  /** Words filled by a list of primitive elements. */
  function ListWords(elementSize: nat, count: nat): nat { (count * Bits(elementSize) + 63) / 64 }

  // ---- reader state and values

  datatype Reader = Reader(segments: seq<Bytes>, budget: nat, error: Code)

  datatype Value =
    | NullValue
    | StructValue(segment: nat, word: nat, dataWords: nat, pointers: nat, depth: nat)
    | ListValue(segment: nat, word: nat, elementSize: nat, count: nat, dataWords: nat, pointers: nat, depth: nat)
    | CapValue(cap: nat, depth: nat)

  /** What one call leaves: the reader and the value it returned. */
  datatype Got = Got(r: Reader, v: Value)

  function Fail(r: Reader, code: Code): Reader { r.(error := code) }

  predicate InRange(segments: seq<Bytes>, seg: nat, word: nat, words: nat)
  {
    seg < |segments| && word <= |segments[seg]| / 8 && words <= |segments[seg]| / 8 - word
  }

  function WordAt(segment: Bytes, word: nat): (p: nat)
    requires 8 * word + 8 <= |segment|
    ensures p < U64
  {
    LeBound(segment[8 * word..8 * word + 8]);
    Pow256Values();
    Le(segment[8 * word..8 * word + 8])
  }

  /** Work is charged in words; even an empty object costs one. */
  function Charge(r: Reader, words: nat): (s: Reader)
    ensures s.segments == r.segments
    ensures s.error == (if Max(words, 1) > r.budget then ErrLimit else r.error)
    ensures s.budget == (if Max(words, 1) > r.budget then r.budget else r.budget - Max(words, 1))
  {
    if Max(words, 1) > r.budget then Fail(r, ErrLimit) else r.(budget := r.budget - Max(words, 1))
  }

  /** `v` if the words from `word` on exist and can be paid for. */
  function Claim(r: Reader, seg: nat, word: nat, words: nat, v: Value): Got
  {
    if !InRange(r.segments, seg, word, words) then Got(Fail(r, ErrFormat), NullValue) else
      var s := Charge(r, words);
      Got(s, if s.error == Ok then v else NullValue)
  }

  /** A composite list: one tag word, then the elements it describes. */
  function Composite(r: Reader, seg: nat, word: nat, words: nat, depth: nat): Got
  {
    if !InRange(r.segments, seg, word, words + 1) then Got(Fail(r, ErrFormat), NullValue) else
      var tag := WordAt(r.segments[seg], word);
      if Tag(tag) != 0 || Times(TagCount(tag), DataWords(tag) + PointerCount(tag)) > words then
        Got(Fail(r, ErrFormat), NullValue)
      else
        var s := Charge(r, words + 1);
        Got(s, if s.error == Ok then
            ListValue(seg, word + 1, 7, TagCount(tag), DataWords(tag), PointerCount(tag), depth)
               else NullValue)
  }

  /** The object that a struct or list pointer p describes, laid at `target` of `seg`. */
  function Object(r: Reader, seg: nat, target: int, p: nat, depth: nat): Got
    requires Tag(p) <= 1
  {
    if target < 0 || target >= U32 then Got(Fail(r, ErrFormat), NullValue)
    else if Tag(p) == 0 then
      Claim(r, seg, target, DataWords(p) + PointerCount(p),
          StructValue(seg, target, DataWords(p), PointerCount(p), depth))
    else if ElementSize(p) == 7 then
      Composite(r, seg, target, ElementCount(p), depth)
    else
      Claim(r, seg, target, ListWords(ElementSize(p), ElementCount(p)),
            ListValue(seg, target, ElementSize(p), ElementCount(p), 0, 0, depth))
  }

  /** One landing pad: a near pointer, or a far pointer to the content followed by its tag. */
  function Landing(r: Reader, p: nat, depth: nat): Got
  {
    var seg, slot, size := High(p), PadSlot(p), if TwoWordPad(p) then 2 else 1;
    if !InRange(r.segments, seg, slot, size) then Got(Fail(r, ErrFormat), NullValue) else
      var s := Charge(r, size);
      if s.error != Ok then Got(s, NullValue) else
        var q := WordAt(r.segments[seg], slot);
        if TwoWordPad(p) then
          var tag := WordAt(r.segments[seg], slot + 1);
          if Tag(q) != 2 || TwoWordPad(q) || Offset(tag) != 0 || Tag(tag) > 1 then Got(Fail(s, ErrFormat), NullValue)
          else Object(s, High(q), PadSlot(q), tag, depth)
        else if Tag(q) > 1 || q == 0 then Got(Fail(s, ErrFormat), NullValue)
        else Object(s, seg, slot + 1 + Offset(q), q, depth)
  }

  /** Follows the pointer in a slot. */
  function Follow(r: Reader, seg: nat, slot: nat, depth: nat): Got
  {
    if r.error != Ok then Got(r, NullValue)
    else if depth > DEPTH_MAX then Got(Fail(r, ErrLimit), NullValue)
    else if !InRange(r.segments, seg, slot, 1) then Got(Fail(r, ErrFormat), NullValue)
    else
      var s, p := Charge(r, 1), WordAt(r.segments[seg], slot);
      if s.error != Ok || p == 0 then Got(s, NullValue)
      else if Tag(p) == 2 then Landing(s, p, depth)
      else if Tag(p) == 3 then
        if Low(p) != 3 then Got(Fail(s, ErrUnsupported), NullValue) else Got(s, CapValue(High(p), depth))
      else Object(s, seg, slot + 1 + Offset(p), p, depth)
  }

  function Root(r: Reader): Got { Follow(r, 0, 0, 1) }

  function Field(r: Reader, s: Value, index: nat): Got
  {
    if r.error != Ok || s.NullValue? then Got(r, NullValue)
    else if !s.StructValue? then Got(Fail(r, ErrFormat), NullValue)
    else if index >= s.pointers then Got(r, NullValue)
    else Follow(r, s.segment, (s.word + s.dataWords + index) % U32, (s.depth + 1) % 256)
  }

  function At(r: Reader, list: Value, index: nat): Got
  {
    if r.error != Ok then Got(r, NullValue)
    else if !list.ListValue? || index >= list.count then Got(Fail(r, ErrFormat), NullValue)
    else if list.elementSize == 6 then Follow(r, list.segment, (list.word + index) % U32, (list.depth + 1) % 256)
    else if list.elementSize != 7 then Got(Fail(r, ErrUnsupported), NullValue)
    else if list.depth >= DEPTH_MAX then Got(Fail(r, ErrLimit), NullValue)
    else
      var s := Charge(r, 1);
      if s.error != Ok then Got(s, NullValue)
      else Got(s, StructValue(list.segment, (list.word + Times(index, list.dataWords + list.pointers)) % U32,
                              list.dataWords, list.pointers, list.depth + 1))
  }

  datatype GotNumber = GotNumber(r: Reader, n: nat)

  function UInt(r: Reader, s: Value, byte: nat, width: nat): GotNumber
  {
    if r.error != Ok || s.NullValue? then GotNumber(r, 0)
    else if !s.StructValue? || width !in [1, 2, 4, 8] then GotNumber(Fail(r, ErrFormat), 0)
    else if byte + width > s.dataWords * 8 then GotNumber(r, 0)
    else if !InRange(r.segments, s.segment, s.word, s.dataWords) then GotNumber(Fail(r, ErrFormat), 0)
    else
      var t := Charge(r, 1);
      if t.error != Ok then GotNumber(t, 0)
      else
        var at := s.word * 8 + byte;
        GotNumber(t, Le(r.segments[s.segment][at..at + width]))
  }

  datatype GotBytes = GotBytes(r: Reader, b: Bytes)

  function Data(r: Reader, v: Value, text: bool): GotBytes
  {
    if r.error != Ok || v.NullValue? then GotBytes(r, [])
    else if !v.ListValue? || v.elementSize != 2 then GotBytes(Fail(r, ErrFormat), [])
    else if !InRange(r.segments, v.segment, v.word, (v.count + 7) / 8) then GotBytes(Fail(r, ErrFormat), [])
    else
      var b := r.segments[v.segment][v.word * 8..v.word * 8 + v.count];
      if !text then GotBytes(r, b)
      else if b == [] || b[|b| - 1] != 0 then GotBytes(Fail(r, ErrFormat), [])
      else GotBytes(r, b[..|b| - 1])
  }

  /** The reader of a frame: its segments, a full budget, or the framing error. */
  function Init(frame: Bytes): Reader
  {
    if !Framing.WellFramed(frame) then Reader([], TRAVERSAL_WORDS, InitCode(frame))
    else Reader(Segments(frame, Framing.U32At(frame, 0) + 1), TRAVERSAL_WORDS, Ok)
  }

  function InitCode(frame: Bytes): Code { Framing.SegmentCode(frame, 0) }

  function Segments(frame: Bytes, n: nat): (s: seq<Bytes>)
    requires Framing.WellFramed(frame) && n <= Framing.U32At(frame, 0) + 1
    ensures |s| == n
    ensures forall i :: 0 <= i < n ==> s[i] == Framing.SegmentBytes(frame, i)
  {
    if n == 0 then [] else Segments(frame, n - 1) + [Framing.SegmentBytes(frame, n - 1)]
  }

  // ---- the reader object

  lemma {:induction false} LeSnoc(s: Bytes, b: Byte)
    ensures Le(s + [b]) == Le(s) + b * Pow256(|s|)
  {
    if s != [] {
      LeSnoc(s[1..], b);
      assert (s + [b])[1..] == s[1..] + [b];
      assert 256 * (b * Pow256(|s| - 1)) == b * Pow256(|s|);
    }
  }

  /** The byte loop: v |= p[i] << 8i. */
  method LeLoop(p: Bytes) returns (v: nat)
    ensures v == Le(p)
  {
    v := 0;
    var i := 0;
    while i < |p|
      invariant i <= |p| && v == Le(p[..i])
    {
      LeSnoc(p[..i], p[i]);
      assert p[..i + 1] == p[..i] + [p[i]];
      v := v + p[i] * Pow256(i);
      i := i + 1;
    }
    assert p[..i] == p;
  }

  lemma LowForms(p: nat)
    ensures p % U32 / 8 == p / 8 % 0x2000_0000
    ensures p % U32 / 4 == p / 4 % 0x4000_0000
  {
    var h, l := p / U32, p % U32;
    assert p == h * U32 + l;
    assert p / 8 == h * 0x2000_0000 + l / 8;
    assert p / 4 == h * 0x4000_0000 + l / 4;
  }

  lemma HighForms(p: nat)
    requires p < U64
    ensures p / U32 == High(p)
    ensures p / 0x8_0000_0000 == ElementCount(p)
  {
  }

  lemma FarForm(p: nat)
    ensures p % 8 == 2 <==> p % 4 == 2 && p / 4 % 2 != 1
  {
    var e, q, r := p / 8, p / 4, p % 4;
    assert p == 4 * q + r;
    assert q == 2 * e + q % 2;
    assert p % 8 == 4 * (q % 2) + r;
  }

  /** The masks and shifts of the code, as the fields they extract. */
  lemma FieldForms(p: nat)
    requires p < U64
    ensures p / U32 == High(p) && p % U32 / 8 == PadSlot(p) && p % U32 == Low(p)
    ensures p % U32 / 4 == TagCount(p)
    ensures Offset(p) == if TagCount(p) >= 0x2000_0000 then TagCount(p) - 0x4000_0000 else TagCount(p)
    ensures p % 8 == 2 <==> Tag(p) == 2 && !TwoWordPad(p)
    ensures p / 0x8_0000_0000 == ElementCount(p)
  {
    hide High, ElementCount;
    LowForms(p);
    HighForms(p);
    FarForm(p);
  }

  class PointerReader {
    var segments: seq<Bytes>
    var budget: nat
    var error: Code

    ghost function State(): Reader
      reads this
    {
      Reader(segments, budget, error)
    }

    constructor (frame: Bytes)
      ensures State() == Init(frame)
    {
      hide Framing.U32At, Framing.WellFramed, Framing.SegmentCode, Framing.SegmentBytes, Framing.FrameSize,
          Framing.TableSize, InitCode;
      var code, first := Framing.Segment(frame, 0);
      segments, budget, error := [], TRAVERSAL_WORDS, code;
      new;
      InitOk(frame);
      if code != Ok { return; }
      var n := Framing.U32At(frame, 0) + 1;
      var all, i := [first], 1;
      while i < n
        invariant 1 <= i <= n && all == Segments(frame, i)
        invariant segments == [] && budget == TRAVERSAL_WORDS && error == Ok
      {
        SegmentOk(frame, i);
        var rc, seg := Framing.Segment(frame, i);
        error := rc;
        if rc != Ok { return; }
        all := all + [seg];
        i := i + 1;
      }
      segments := all;
    }

    method Range(seg: nat, word: nat, words: nat) returns (ok: bool)
      modifies `error
      ensures ok <==> old(error) == Ok && InRange(segments, seg, word, words)
      ensures error == if old(error) == Ok && !ok then ErrFormat else old(error)
    {
      if error != Ok { return false; }
      if seg >= |segments| || word > |segments[seg]| / 8 || words > |segments[seg]| / 8 - word {
        error := ErrFormat;
        return false;
      }
      return true;
    }

    method Pay(words: nat) returns (ok: bool)
      modifies `budget, `error
      ensures State() == Charge(old(State()), words)
      ensures ok <==> Max(words, 1) <= old(budget)
    {
      var cost := if words == 0 then 1 else words;
      if cost > budget { error := ErrLimit; return false; }
      budget := budget - cost;
      return true;
    }

    method ReadWord(seg: nat, word: nat) returns (p: nat)
      modifies `error
      ensures old(error) == Ok && InRange(segments, seg, word, 1) ==> error == Ok && p == WordAt(segments[seg], word)
      ensures old(error) == Ok && !InRange(segments, seg, word, 1) ==> error == ErrFormat
      ensures old(error) != Ok ==> error == old(error)
      ensures p < U64
    {
      var ok := Range(seg, word, 1);
      if !ok { return 0; }
      p := LeLoop(segments[seg][8 * word..8 * word + 8]);
      assert p == WordAt(segments[seg], word);
    }

    method PlaceList(seg: nat, target: nat, p: nat, depth: nat) returns (v: Value)
      requires error == Ok && target < U32 && Tag(p) == 1 && p < U64
      modifies `budget, `error
      ensures Got(State(), v) == Object(old(State()), seg, target, p, depth)
    {
      hide Tag, ElementSize, ElementCount, TagCount, DataWords, PointerCount, WordAt, InRange, ListWords;
      FieldForms(p);
      var size, count := ElementSize(p), p / 0x8_0000_0000;
      if size == 7 {
        var words := count + 1;
        var ok := Range(seg, target, words);
        if !ok { return NullValue; }
        RangeOfOne(segments, seg, target, words);
        var tag := ReadWord(seg, target);
        if Tag(tag) != 0 { error := ErrFormat; return NullValue; }
        var n := TagCount(tag);
        if Times(n, DataWords(tag) + PointerCount(tag)) > words - 1 { error := ErrFormat; return NullValue; }
        ok := Pay(words);
        if !ok { return NullValue; }
        return ListValue(seg, target + 1, 7, n, DataWords(tag), PointerCount(tag), depth);
      }
      var words := ListWords(size, count);
      var ok := Range(seg, target, words);
      if ok { ok := Pay(words); }
      if !ok { return NullValue; }
      return ListValue(seg, target, size, count, 0, 0, depth);
    }

    method PlaceObject(seg: nat, target: int, p: nat, depth: nat) returns (v: Value)
      requires error == Ok && Tag(p) <= 1 && p < U64
      modifies `budget, `error
      ensures Got(State(), v) == Object(old(State()), seg, target, p, depth)
    {
      hide Tag, DataWords, PointerCount, InRange, Composite, ListWords, ElementSize;
      if target < 0 || target >= U32 { error := ErrFormat; return NullValue; }
      if Tag(p) == 0 {
        var words := DataWords(p) + PointerCount(p);
        var ok := Range(seg, target, words);
        if ok { ok := Pay(words); }
        if !ok { return NullValue; }
        return StructValue(seg, target, DataWords(p), PointerCount(p), depth);
      }
      v := PlaceList(seg, target, p, depth);
    }

    method FollowSlot(seg0: nat, slot0: nat, depth: nat) returns (v: Value)
      modifies `budget, `error
      ensures Got(State(), v) == Follow(old(State()), seg0, slot0, depth)
    {
      hide Tag, Offset, TagCount, WordAt, InRange, TwoWordPad, PadSlot, High, Low, Object, ElementCount;
      var seg, slot, direct := seg0, slot0, false;
      if error != Ok { return NullValue; }
      if depth > DEPTH_MAX { error := ErrLimit; return NullValue; }
      var p := ReadWord(seg, slot);
      if error != Ok { return NullValue; }
      var ok := Pay(1);
      if !ok || p == 0 { return NullValue; }
      FieldForms(p);
      if Tag(p) == 2 {
        var two := TwoWordPad(p);
        slot, seg := p % U32 / 8, p / U32;
        ok := Range(seg, slot, if two then 2 else 1);
        if ok { RangeOfPad(segments, seg, slot, two); ok := Pay(if two then 2 else 1); }
        if !ok { return NullValue; }
        p := ReadWord(seg, slot);
        FieldForms(p);
        if two {
          var tag := ReadWord(seg, slot + 1);
          FieldForms(tag);
          if p % 8 != 2 || tag % U32 / 4 != 0 || Tag(tag) > 1 { error := ErrFormat; return NullValue; }
          seg, slot, p, direct := p / U32, p % U32 / 8, tag, true;
        } else if Tag(p) > 1 || p == 0 {
          error := ErrFormat;
          return NullValue;
        }
      }
      if Tag(p) == 3 {
        if p % U32 != 3 { error := ErrUnsupported; return NullValue; }
        return CapValue(p / U32, depth);
      }
      var offset: int := p % U32 / 4;
      if offset >= 0x2000_0000 { offset := offset - 0x4000_0000; }
      var target := if direct then slot else slot + 1 + offset;
      if Tag(p) <= 1 {
        v := PlaceObject(seg, target, p, depth);
      } else {
        assert false;  // a far pointer has been replaced by its landing pad, a capability has returned
      }
    }

    method FieldOf(s: Value, index: nat) returns (v: Value)
      modifies `budget, `error
      ensures Got(State(), v) == Field(old(State()), s, index)
    {
      hide Follow;
      if error != Ok || s.NullValue? { return NullValue; }
      if !s.StructValue? { error := ErrFormat; return NullValue; }
      if index >= s.pointers { return NullValue; }
      v := FollowSlot(s.segment, (s.word + s.dataWords + index) % U32, (s.depth + 1) % 256);
    }

    method ElementAt(list: Value, index: nat) returns (v: Value)
      modifies `budget, `error
      ensures Got(State(), v) == At(old(State()), list, index)
    {
      hide Follow;
      if error != Ok { return NullValue; }
      if !list.ListValue? || index >= list.count { error := ErrFormat; return NullValue; }
      if list.elementSize == 6 {
        v := FollowSlot(list.segment, (list.word + index) % U32, (list.depth + 1) % 256);
        return;
      }
      if list.elementSize != 7 { error := ErrUnsupported; return NullValue; }
      if list.depth >= DEPTH_MAX { error := ErrLimit; return NullValue; }
      var ok := Pay(1);
      if !ok { return NullValue; }
      v := StructValue(list.segment, (list.word + Times(index, list.dataWords + list.pointers)) % U32,
                       list.dataWords, list.pointers, list.depth + 1);
    }

    method ReadUInt(s: Value, byte: nat, width: nat) returns (n: nat)
      modifies `budget, `error
      ensures GotNumber(State(), n) == UInt(old(State()), s, byte, width)
    {
      if error != Ok || s.NullValue? { return 0; }
      if !s.StructValue? || width !in [1, 2, 4, 8] { error := ErrFormat; return 0; }
      if byte + width > s.dataWords * 8 { return 0; }
      var ok := Range(s.segment, s.word, s.dataWords);
      if ok { ok := Pay(1); }
      if !ok { return 0; }
      var at := s.word * 8 + byte;
      n := LeLoop(segments[s.segment][at..at + width]);
    }

    method ReadData(v: Value, text: bool) returns (b: Bytes)
      modifies `error
      ensures GotBytes(State(), b) == Data(old(State()), v, text)
    {
      if error != Ok || v.NullValue? { return []; }
      if !v.ListValue? || v.elementSize != 2 { error := ErrFormat; return []; }
      var ok := Range(v.segment, v.word, (v.count + 7) / 8);
      if !ok { return []; }
      b := segments[v.segment][v.word * 8..v.word * 8 + v.count];
      if text {
        if b == [] || b[|b| - 1] != 0 { error := ErrFormat; return []; }
        b := b[..|b| - 1];
      }
    }
  }

  lemma RangeOfOne(segments: seq<Bytes>, seg: nat, word: nat, words: nat)
    requires InRange(segments, seg, word, words) && words >= 1
    ensures InRange(segments, seg, word, 1)
  {
  }

  lemma RangeOfPad(segments: seq<Bytes>, seg: nat, slot: nat, two: bool)
    requires InRange(segments, seg, slot, if two then 2 else 1)
    ensures InRange(segments, seg, slot, 1) && (two ==> InRange(segments, seg, slot + 1, 1))
  {
  }

  lemma InitOk(frame: Bytes)
    ensures InitCode(frame) == Framing.SegmentCode(frame, 0)
    ensures Framing.WellFramed(frame) <==> Framing.SegmentCode(frame, 0) == Ok
    ensures Framing.WellFramed(frame) ==> Segments(frame, 1) == [Framing.SegmentBytes(frame, 0)]
    ensures Framing.WellFramed(frame) ==> 4 <= |frame| && Framing.U32At(frame, 0) < Framing.MAX_SEGMENTS
  {
    if Framing.WellFramed(frame) { assert Segments(frame, 1) == Segments(frame, 0) + [Framing.SegmentBytes(frame, 0)]; }
  }

  lemma SegmentOk(frame: Bytes, i: nat)
    requires Framing.WellFramed(frame) && i <= Framing.U32At(frame, 0)
    ensures Framing.SegmentCode(frame, i) == Ok
  {
  }
}
