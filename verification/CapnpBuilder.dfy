/** The single-segment message builder over a caller's buffer. */
module CapnpBuilder {
  import opened Core
  import opened CapnpTree
  import Framing

  /** The byte loop: p[i] = v >> 8i. */
  method PutLe(buffer: array<Byte>, at: nat, n: nat, v: nat)
    requires at + n <= buffer.Length
    modifies buffer
    ensures buffer[..] == SetBytes(old(buffer[..]), at, ToLe(n, v))
  {
    var i, x := 0, v;
    ghost var want := ToLe(n, v);
    while i < n
      invariant i <= n && x >= 0 && ToLe(n - i, x) == want[i..]
      invariant forall j :: at <= j < at + i ==> buffer[j] == want[j - at]
      invariant forall j :: 0 <= j < at || at + i <= j < buffer.Length ==> buffer[j] == old(buffer[j])
    {
      assert want[i..][0] == want[i] && want[i..][1..] == want[i + 1..];
      buffer[at + i] := x % 256;
      x := x / 256;
      i := i + 1;
    }
  }

  class Builder {
    const buffer: array<Byte>
    const origin: nat      // where the message starts in the buffer
    const capacity: nat
    var words: nat
    var error: Code

    ghost predicate Valid()
      reads this
    {
      error == Ok ==>
          16 <= capacity <= Framing.MESSAGE_MAX && origin + capacity <= buffer.Length && 8 + 8 * words <= capacity
    }

    /** The segment built so far. */
    ghost function Content(): (c: Bytes)
      requires Valid() && error == Ok
      reads this, buffer
      ensures |c| == 8 * words && |c| % 8 == 0 && |c| / 8 == words
    {
      buffer[origin + 8..origin + 8 + 8 * words]
    }

    /** Nothing outside the builder's window has changed, nor the segment table. */
    twostate predicate OnlyContentChanged()
      reads this, buffer
    {
      forall j :: 0 <= j < buffer.Length && !(origin + 8 <= j < origin + capacity) ==> buffer[j] == old(buffer[j])
    }

    constructor (out: array<Byte>, origin: nat, capacity: nat)
      requires origin + capacity <= out.Length
      modifies out
      ensures Valid() && buffer == out && this.origin == origin && this.capacity == capacity
      ensures error == if 16 <= capacity <= Framing.MESSAGE_MAX then Ok else ErrArgument
      ensures error == Ok ==> words == 1 && Content() == Zeros(8) && forall j :: origin <= j < origin + 8 ==>
          out[j] == 0
      ensures forall j :: 0 <= j < origin || origin + capacity <= j < out.Length ==> out[j] == old(out[j])
    {
      buffer, this.origin, this.capacity := out, origin, capacity;
      words, error := 0, Ok;
      new;
      if capacity < 16 || capacity > Framing.MESSAGE_MAX { error := ErrArgument; return; }
      forall j | origin <= j < origin + 8 { out[j] := 0; }
      var at := AllocWords(1);
    }

    method AllocWords(n: nat) returns (at: nat)
      requires Valid()
      modifies this, buffer
      ensures Valid()
      ensures old(error) == Ok && n <= (capacity - 8) / 8 - old(words) ==>
                error == Ok && at == old(words) && words == old(words) + n && Content() == old(Content()) + Zeros(8 * n)
                    && OnlyContentChanged()
      ensures old(error) == Ok && n > (capacity - 8) / 8 - old(words) ==>
                error == ErrLimit && at == 0 && words == old(words) && buffer[..] == old(buffer[..])
      ensures old(error) != Ok ==>
          error == old(error) && at == 0 && words == old(words) && buffer[..] == old(buffer[..])
    {
      at := words;
      if error != Ok { return 0; }
      if n > (capacity - 8) / 8 - words { error := ErrLimit; return 0; }
      forall j | origin + 8 + 8 * at <= j < origin + 8 + 8 * at + 8 * n { buffer[j] := 0; }
      words := words + n;
      assert Content() == old(Content()) + Zeros(8 * n);
    }

    /** Writes bytes of the segment. */
    method Put(at: nat, n: nat, v: nat)
      requires Valid() && error == Ok && at + n <= 8 * words
      modifies buffer
      ensures Content() == SetBytes(old(Content()), at, ToLe(n, v)) && OnlyContentChanged()
    {
      hide ToLe;
      ghost var before, lo, hi := buffer[..], origin + 8, origin + 8 + 8 * words;
      PutLe(buffer, origin + 8 + at, n, v);
      assert buffer[..] == SetBytes(before, lo + at, ToLe(n, v));
      ghost var b := ToLe(n, v);
      ArraySlice(buffer, lo, hi);
      assert old(Content()) == before[lo..hi];
      Window(before, lo, hi, at, b);
    }

    method SetWord(slot: nat, value: nat)
      requires Valid()
      modifies `error, buffer
      ensures Valid()
      ensures old(error) == Ok && slot < words ==>
          error == Ok && Content() == SetSlot(old(Content()), slot, value) && OnlyContentChanged()
      ensures old(error) == Ok && slot >= words ==> error == ErrArgument && buffer[..] == old(buffer[..])
      ensures old(error) != Ok ==> error == old(error) && buffer[..] == old(buffer[..])
    {
      if error != Ok { return; }
      if slot >= words { error := ErrArgument; return; }
      Put(8 * slot, 8, value);
    }

    /** Room for n more words. */
    ghost predicate Fits(n: nat)
      reads this
    {
      n <= (capacity - 8) / 8 - words
    }

    /** Neither the segment nor anything around it has changed. */
    twostate predicate Untouched()
      reads this, buffer
    {
      words == old(words) && buffer[..] == old(buffer[..])
    }

    /** A new struct, empty, pointed to from a slot; a slot past the segment is an error. */
    method StructAt(slot: nat, data: nat, pointers: nat) returns (at: nat)
      requires Valid() && data < U16 && pointers < U16
      modifies this, buffer
      ensures Valid()
      ensures old(error == Ok && Fits(data + pointers)) ==> words == old(words) + data + pointers && at == old(words)
      ensures old(error == Ok && Fits(data + pointers)) && slot < words ==>
                error == Ok && OnlyContentChanged() && Content() == WithStruct(old(Content()), slot, data, pointers)
      ensures old(error == Ok && Fits(data + pointers)) && slot < old(words) ==>
                Content() == OpenStruct(old(Content()), slot, Zeros(8 * data), pointers)
      ensures old(error == Ok && Fits(data + pointers)) && slot >= words ==> error == ErrArgument
      ensures old(error == Ok && !Fits(data + pointers)) ==> error == ErrLimit && at == 0 && Untouched()
      ensures old(error) != Ok ==> error == old(error) && at == 0 && Untouched()
    {
      hide StructPointer, SetSlot, OpenStruct, Zeros;
      if error == Ok && slot < words { StructSteps(Content(), slot, data, pointers); }
      at := AllocWords(data + pointers);
      var delta := at - slot - 1;
      SetWord(slot, StructPointer(delta, data, pointers));
    }

    /** A new pointer list, empty, pointed to from a slot; a slot past the segment is an error. */
    method ListAt(slot: nat, count: nat) returns (at: nat)
      requires Valid()
      modifies this, buffer
      ensures Valid()
      ensures old(error == Ok && Fits(count)) ==> words == old(words) + count && at == old(words)
      ensures old(error == Ok && Fits(count)) && slot < words ==>
                error == Ok && OnlyContentChanged() && Content() == WithList(old(Content()), slot, count)
      ensures old(error == Ok && Fits(count)) && slot < old(words) ==>
          Content() == OpenList(old(Content()), slot, count)
      ensures old(error == Ok && Fits(count)) && slot >= words ==> error == ErrArgument
      ensures old(error == Ok && !Fits(count)) ==> error == ErrLimit && at == 0 && Untouched()
      ensures old(error) != Ok ==> error == old(error) && at == 0 && Untouched()
    {
      hide ListWord, SetSlot, OpenList, Zeros;
      if error == Ok && slot < words { ListSteps(Content(), slot, count); }
      at := AllocWords(count);
      SetWord(slot, ListWord((at - slot - 1) % U32, 6, count));
    }

    /** Sets `width` bytes inside the segment, at an offset computed in 32 bits. */
    method SetUInt(at: nat, byte: nat, width: nat, value: nat)
      requires Valid()
      modifies `error, buffer
      ensures Valid()
      ensures var offset := (8 * at + byte) % U32;
              old(error) == Ok && width in [1, 2, 4, 8] && offset + width <= 8 * words ==>
                error == Ok && Content() == SetBytes(old(Content()), offset, ToLe(width, value)) && OnlyContentChanged()
      ensures var offset := (8 * at + byte) % U32;
              old(error) == Ok && !(width in [1, 2, 4, 8] && offset + width <= 8 * words) ==>
                  error == ErrArgument && Untouched()
      ensures old(error) != Ok ==> error == old(error) && Untouched()
    {
      var offset := (8 * at + byte) % U32;
      if error != Ok { return; }
      if width !in [1, 2, 4, 8] || offset > 8 * words || width > 8 * words - offset { error := ErrArgument; return; }
      Put(offset, width, value);
    }

    method CopyIn(at: nat, value: Bytes)
      requires Valid() && error == Ok && at + |value| <= 8 * words
      modifies buffer
      ensures Content() == SetBytes(old(Content()), at, value) && OnlyContentChanged()
    {
      forall j | 0 <= j < |value| { buffer[origin + 8 + at + j] := value[j]; }
      assert Content() == SetBytes(old(Content()), at, value);
    }

    /** A byte list, with a terminating zero if it is text, pointed to from a slot. */
    method BlobAt(slot: nat, value: Bytes, text: bool)
      requires Valid()
      modifies this, buffer
      ensures Valid()
      ensures old(error == Ok && TakesBlob(value, text)) ==> words == old(words) + BodyWords(Blob(value, text))
      ensures old(error == Ok && TakesBlob(value, text)) && slot < words ==>
                error == Ok && OnlyContentChanged() && Content() == WithBlob(old(Content()), slot, value, text)
      ensures old(error == Ok && TakesBlob(value, text)) && slot < old(words) ==>
                Content() == AddBlob(old(Content()), slot, value, text)
      ensures old(error == Ok && TakesBlob(value, text)) && slot >= words ==> error == ErrArgument
      ensures old(error == Ok && !TakesBlob(value, text)) ==>
                error == (if |value| > Framing.MESSAGE_MAX - 1 then ErrArgument else ErrLimit) && Untouched()
      ensures old(error) != Ok ==> error == old(error) && Untouched()
    {
      hide ListWord, ToLe, SetBytes, AddBlob, SetSlot, Zeros;
      if error != Ok { return; }
      if |value| > Framing.MESSAGE_MAX - 1 { error := ErrArgument; return; }
      ghost var c := Content();
      var n := |value| + if text then 1 else 0;
      var at := AllocWords((n + 7) / 8);
      SetWord(slot, ListWord((at - slot - 1) % U32, 2, n));
      if error == Ok {
        if slot < at { BlobSteps(c, slot, value, text); }
        CopyIn(8 * at, value);
      }
    }

    /** The blob is not absurdly long and there is room for it. */
    ghost predicate TakesBlob(value: Bytes, text: bool)
      reads this
    {
      |value| <= Framing.MESSAGE_MAX - 1 && Fits(BodyWords(Blob(value, text)))
    }

    /** Fills in the segment table and reports the frame's length. */
    method End() returns (rc: Code, written: nat)
      requires Valid() && (error == Ok ==> forall j :: origin <= j < origin + 8 ==> buffer[j] == 0)
      modifies buffer
      ensures rc == error
      ensures rc == Ok ==>
          written == 8 + 8 * words <= capacity
          && buffer[origin..origin + written] == ToLe(4, 0) + ToLe(4, words) + old(Content())
      ensures rc != Ok ==> written == 0
      ensures forall j :: 0 <= j < buffer.Length && !(origin + 4 <= j < origin + 8) ==> buffer[j] == old(buffer[j])
    {
      hide ToLe;
      if error != Ok { return error, 0; }
      ghost var before := buffer[..];
      PutLe(buffer, origin + 4, 4, words);
      ghost var b := ToLe(4, words);
      assert buffer[..] == SetBytes(before, origin + 4, b);
      written := 8 + 8 * words;
      rc := Ok;
      ArraySlice(buffer, origin, origin + written);
      TableSlice(before, origin, origin + written, b);
      assert before[origin..origin + 4] == Zeros(4);
      ZeroBytes(4);
    }
  }

  // ---- what the builder writes, for any slot of the grown segment

  /** The bits of two numbers below eight, together. */
  function Or3(a: nat, b: nat): (r: nat)
    requires a < 8 && b < 8
    ensures r < 8 && (a == 0 ==> r == b)
  {
    (if a % 2 + b % 2 > 0 then 1 else 0) + (if a / 2 % 2 + b / 2 % 2 > 0 then 2 else 0)
        + (if a / 4 + b / 4 > 0 then 4 else 0)
  }

  /**
   * A list pointer from a 32-bit distance. The two top bits of the distance of a slot behind its list run into the
   * element size.
   */
  function ListWord(distance: nat, size: nat, count: nat): nat
    requires distance < U32 && size < 8
  {
    distance % 0x4000_0000 * 4 + 1 + Or3(distance / 0x4000_0000, size) * U32 + count * 0x8_0000_0000
  }

  lemma NearListWord(distance: int, size: nat, count: nat)
    requires 0 <= distance < 0x4000_0000 && size < 8
    ensures distance % U32 == distance && ListWord(distance, size, count) == ListPointer(distance, size, count)
  {
  }

  function WithStruct(c: Bytes, slot: nat, data: nat, pointers: nat): Bytes
    requires 8 * slot + 8 <= |c| + 8 * (data + pointers)
  {
    SetSlot(c + Zeros(8 * (data + pointers)), slot, StructPointer(|c| / 8 - slot - 1, data, pointers))
  }

  function WithList(c: Bytes, slot: nat, count: nat): Bytes
    requires 8 * slot + 8 <= |c| + 8 * count
  {
    SetSlot(c + Zeros(8 * count), slot, ListWord((|c| / 8 - slot - 1) % U32, 6, count))
  }

  /** The bytes go in last, over the pointer if its slot is among the new words. */
  function WithBlob(c: Bytes, slot: nat, value: Bytes, text: bool): Bytes
    requires 8 * slot + 8 <= |c| + 8 * BodyWords(Blob(value, text))
  {
    var node := Blob(value, text);
    SetBytes(SetSlot(c + Zeros(8 * BodyWords(node)), slot, ListWord((|c| / 8 - slot - 1) % U32, 2, BlobLength(node))),
        |c|, value)
  }

  /** Blank words, then the pointer: the same as opening the object at once. */
  lemma StructSteps(c: Bytes, slot: nat, data: nat, pointers: nat)
    requires 8 * slot + 8 <= |c|
    ensures WithStruct(c, slot, data, pointers) == OpenStruct(c, slot, Zeros(8 * data), pointers)
  {
    hide StructPointer, ToLe, SetBytes;
    SetLeft(c, Zeros(8 * (data + pointers)), 8 * slot, ToLe(8, StructPointer(|c| / 8 - slot - 1, data, pointers)));
    assert Zeros(8 * (data + pointers)) == Zeros(8 * data) + Zeros(8 * pointers);
    assert Words(8 * data) == data;
  }

  lemma ListSteps(c: Bytes, slot: nat, count: nat)
    requires 8 * slot + 8 <= |c| <= Framing.MESSAGE_MAX
    ensures WithList(c, slot, count) == OpenList(c, slot, count)
  {
    hide ListPointer, ListWord, ToLe, SetBytes;
    NearListWord(|c| / 8 - slot - 1, 6, count);
    SetLeft(c, Zeros(8 * count), 8 * slot, ToLe(8, ListPointer(|c| / 8 - slot - 1, 6, count)));
  }

  /** Blank words, the pointer, then the bytes: the same as adding the blob at once. */
  lemma BlobSteps(c: Bytes, slot: nat, value: Bytes, text: bool)
    requires 8 * slot + 8 <= |c| <= Framing.MESSAGE_MAX
    ensures WithBlob(c, slot, value, text) == AddBlob(c, slot, value, text)
  {
    hide ListPointer, ListWord, ToLe, SetBytes;
    var node := Blob(value, text);
    var k, p := 8 * BodyWords(node), ListPointer(|c| / 8 - slot - 1, 2, BlobLength(node));
    NearListWord(|c| / 8 - slot - 1, 2, BlobLength(node));
    SetLeft(c, Zeros(k), 8 * slot, ToLe(8, p));
    SetRight(SetSlot(c, slot, p), Zeros(k), 0, value);
    SetFront(Zeros(k), value);
    assert Zeros(k)[|value|..] == Zeros(k - |value|);
  }

  lemma SetFront(c: Bytes, b: Bytes)
    requires |b| <= |c|
    ensures SetBytes(c, 0, b) == b + c[|b|..]
  {
  }

  lemma TableSlice(s: Bytes, lo: nat, hi: nat, b: Bytes)
    requires lo + 8 <= hi <= |s| && |b| == 4
    ensures SetBytes(s, lo + 4, b)[lo..hi] == s[lo..lo + 4] + b + s[lo + 8..hi]
  {
    var r, want := SetBytes(s, lo + 4, b)[lo..hi], s[lo..lo + 4] + b + s[lo + 8..hi];
    assert |r| == |want|;
    forall i | 0 <= i < |r| ensures r[i] == want[i] {
      assert r[i] == SetBytes(s, lo + 4, b)[lo + i];
    }
  }

  lemma Window(s: Bytes, lo: nat, hi: nat, at: nat, b: Bytes)
    requires lo <= hi <= |s| && at + |b| <= hi - lo
    ensures SetBytes(s, lo + at, b)[lo..hi] == SetBytes(s[lo..hi], at, b)
    ensures forall j :: 0 <= j < lo || hi <= j < |s| ==> SetBytes(s, lo + at, b)[j] == s[j]
  {
    var r, want := SetBytes(s, lo + at, b)[lo..hi], SetBytes(s[lo..hi], at, b);
    assert |r| == |want|;
    forall i | 0 <= i < |r| ensures r[i] == want[i] {
      assert r[i] == SetBytes(s, lo + at, b)[lo + i];
    }
  }
}
