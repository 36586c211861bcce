/** The Cap'n Proto stream framer and the segment table of one frame. */
module Framing {
  import opened Core

  const MAX_SEGMENTS := 8
  const MESSAGE_MAX := 16384

  /** A little-endian 32-bit word of p. */
  function U32At(p: Bytes, at: nat): (v: nat)
    requires at + 4 <= |p|
    ensures v < U32
  {
    (p[at] as int) + 256 * (p[at + 1] as int) + 65536 * (p[at + 2] as int) + 16777216 * (p[at + 3] as int)
  }

  /** Bytes of the segment table for n segments, padded to a word. */
  function TableSize(n: nat): (size: nat)
    ensures 4 + 4 * n <= size <= 8 + 4 * n && size % 8 == 0
  {
    (n + 2) / 2 * 8
  }

  /** The length in words of segment i. */
  function SegmentWords(p: Bytes, i: nat): nat
    requires 8 + 4 * i <= |p|
  {
    U32At(p, 4 + 4 * i)
  }

  /** Table bytes plus the bytes of the first n segments. */
  function TotalTo(p: Bytes, base: nat, n: nat): (t: nat)
    requires 4 + 4 * n <= |p|
    ensures t >= base
  {
    if n == 0 then base else TotalTo(p, base, n - 1) + 8 * SegmentWords(p, n - 1)
  }

  function FrameSize(p: Bytes, n: nat): nat
    requires 4 + 4 * n <= |p|
  {
    TotalTo(p, TableSize(n), n)
  }

  /** What is wrong with a table of n segments when at most `cap` bytes are allowed. */
  function TableCode(p: Bytes, n: nat, cap: nat): Code
    requires 1 <= n && TableSize(n) <= |p|
  {
    if TableSize(n) > cap then ErrLimit
    else if SegmentWords(p, 0) == 0 then ErrFormat
    else if FrameSize(p, n) > cap then ErrLimit else Ok
  }

  lemma {:induction false} TotalMonotone(p: Bytes, base: nat, i: nat, n: nat)
    requires i <= n && 4 + 4 * n <= |p|
    ensures TotalTo(p, base, i) <= TotalTo(p, base, n)
    decreases n - i
  {
    if i < n { TotalMonotone(p, base, i, n - 1); }
  }

  /** The table depends on its own bytes only. */
  lemma {:induction false} TotalOfPrefix(p: Bytes, q: Bytes, base: nat, n: nat)
    requires 4 + 4 * n <= |p| && p <= q
    ensures TotalTo(p, base, n) == TotalTo(q, base, n)
  {
    if n > 0 { TotalOfPrefix(p, q, base, n - 1); }
  }

  /** Walks the table, refusing as soon as the running total passes `cap`. */
  method TotalSize(p: Bytes, n: nat, cap: nat) returns (rc: Code, total: nat)
    requires 1 <= n && TableSize(n) <= |p|
    ensures rc == TableCode(p, n, cap)
    ensures rc == Ok ==> total == FrameSize(p, n) <= cap
  {
    hide U32At;
    total := TableSize(n);
    if total > cap { return ErrLimit, 0; }
    if U32At(p, 4) == 0 { return ErrFormat, 0; }
    var i := 0;
    while i < n
      invariant i <= n && total == TotalTo(p, TableSize(n), i) <= cap
    {
      var words := U32At(p, 4 + 4 * i);
      TotalMonotone(p, TableSize(n), i + 1, n);
      if words > (cap - total) / 8 { return ErrLimit, 0; }
      total := total + 8 * words;
      i := i + 1;
    }
    rc := Ok;
  }

  // ---- one frame

  /** The bytes of segment i of a well-sized frame. */
  function SegmentBytes(frame: Bytes, i: nat): Bytes
    requires 4 <= |frame| && i <= U32At(frame, 0) && TableSize(U32At(frame, 0) + 1) <= |frame|
    requires FrameSize(frame, U32At(frame, 0) + 1) == |frame|
  {
    var n := U32At(frame, 0) + 1;
    TotalMonotone(frame, TableSize(n), i + 1, n);
    frame[TotalTo(frame, TableSize(n), i)..TotalTo(frame, TableSize(n), i + 1)]
  }

  /** A frame whose table announces between one and eight segments filling it exactly. */
  predicate WellFramed(frame: Bytes)
  {
    && 8 <= |frame| && U32At(frame, 0) < MAX_SEGMENTS
    && TableSize(U32At(frame, 0) + 1) <= |frame|
    && TableCode(frame, U32At(frame, 0) + 1, MESSAGE_MAX) == Ok
    && FrameSize(frame, U32At(frame, 0) + 1) == |frame|
  }

  function SegmentCode(frame: Bytes, index: nat): Code
  {
    if |frame| < 8 then ErrTruncated
    else
      var n := U32At(frame, 0) + 1;
      if n > MAX_SEGMENTS then ErrLimit
      else if index >= n then ErrArgument
      else if TableSize(n) > |frame| then ErrTruncated
      else if TableCode(frame, n, MESSAGE_MAX) != Ok then TableCode(frame, n, MESSAGE_MAX)
      else if FrameSize(frame, n) > |frame| then ErrTruncated
      else if FrameSize(frame, n) < |frame| then ErrFormat
      else Ok
  }

  /** Validates the whole frame and returns the window of one segment. */
  method Segment(frame: Bytes, index: nat) returns (rc: Code, seg: Bytes)
    ensures rc == SegmentCode(frame, index)
    ensures rc == Ok ==> WellFramed(frame) && index <= U32At(frame, 0) && seg == SegmentBytes(frame, index)
    ensures rc != Ok ==> seg == []
  {
    hide U32At;
    if |frame| < 8 { return ErrTruncated, []; }
    var n := U32At(frame, 0);
    if n >= MAX_SEGMENTS { return ErrLimit, []; }
    n := n + 1;
    if index >= n { return ErrArgument, []; }
    var offset := TableSize(n);
    if offset > |frame| { return ErrTruncated, []; }
    var total;
    rc, total := TotalSize(frame, n, MESSAGE_MAX);
    if rc != Ok { return rc, []; }
    if total != |frame| { return if total > |frame| then ErrTruncated else ErrFormat, []; }
    var i := 0;
    while i < index
      invariant i <= index && offset == TotalTo(frame, TableSize(n), i)
    {
      offset := offset + 8 * U32At(frame, 4 + 4 * i);
      i := i + 1;
    }
    TotalMonotone(frame, TableSize(n), index + 1, n);
    seg := frame[offset..offset + 8 * U32At(frame, 4 + 4 * index)];
  }

  /** Where segment i starts. */
  function Start(frame: Bytes, i: nat): nat
    requires WellFramed(frame) && i <= U32At(frame, 0) + 1
  {
    TotalTo(frame, TableSize(U32At(frame, 0) + 1), i)
  }

  /** The first i segments laid end to end. */
  function SegmentsTo(frame: Bytes, i: nat): Bytes
    requires WellFramed(frame) && i <= U32At(frame, 0) + 1
  {
    if i == 0 then [] else SegmentsTo(frame, i - 1) + SegmentBytes(frame, i - 1)
  }

  lemma StartBounds(frame: Bytes, i: nat)
    requires WellFramed(frame) && i <= U32At(frame, 0) + 1
    ensures TableSize(U32At(frame, 0) + 1) == Start(frame, 0) <= Start(frame, i) <= |frame|
    ensures Start(frame, U32At(frame, 0) + 1) == |frame|
    ensures i <= U32At(frame, 0) ==> Start(frame, i + 1) == Start(frame, i) + 8 * SegmentWords(frame, i) <= |frame|
    ensures i <= U32At(frame, 0) ==>
        SegmentCode(frame, i) == Ok && SegmentBytes(frame, i) == frame[Start(frame, i)..Start(frame, i + 1)]
  {
    hide U32At;
    var n := U32At(frame, 0) + 1;
    TotalMonotone(frame, TableSize(n), i, n);
    TotalMonotone(frame, TableSize(n), 0, i);
    if i < n { TotalMonotone(frame, TableSize(n), i + 1, n); }
  }

  lemma {:induction false} SegmentsTile(frame: Bytes, i: nat)
    requires WellFramed(frame) && i <= U32At(frame, 0) + 1
    ensures Start(frame, 0) <= Start(frame, i) <= |frame|
    ensures SegmentsTo(frame, i) == frame[Start(frame, 0)..Start(frame, i)]
  {
    hide U32At, WellFramed, Start, SegmentBytes;
    StartBounds(frame, i);
    if i > 0 {
      StartBounds(frame, i - 1);
      SegmentsTile(frame, i - 1);
      Adjacent(frame, Start(frame, 0), Start(frame, i - 1), Start(frame, i));
    }
  }

  /** A well-formed frame is its table followed by its segments, each of them accepted, with nothing left over. */
  lemma FrameIsTableAndSegments(frame: Bytes)
    requires WellFramed(frame)
    ensures frame == frame[..TableSize(U32At(frame, 0) + 1)] + SegmentsTo(frame, U32At(frame, 0) + 1)
    ensures forall k :: 0 <= k <= U32At(frame, 0) ==>
              SegmentCode(frame, k) == Ok && |SegmentBytes(frame, k)| == 8 * SegmentWords(frame, k)
  {
    hide U32At, WellFramed, Start, SegmentBytes, TableSize;
    StartBounds(frame, 0);
    Adjacent(frame, 0, Start(frame, 0), |frame|);
    SegmentsTile(frame, U32At(frame, 0) + 1);
    forall k | 0 <= k <= U32At(frame, 0)
      ensures SegmentCode(frame, k) == Ok && |SegmentBytes(frame, k)| == 8 * SegmentWords(frame, k)
    {
      StartBounds(frame, k);
    }
  }

  // ---- a whole stream, split recursively

  datatype Next = More | Bad(code: Code, at: nat) | Whole(size: nat)

  /** What the front of a stream holds: too little to tell, a bad table, or a complete frame. */
  function NextFrame(s: Bytes, cap: nat): (r: Next)
    ensures r.Bad? ==> r.at <= |s| && r.code != Ok
    ensures r.Whole? ==> 16 <= r.size <= |s| && r.size <= cap
  {
    if |s| < 4 then More
    else
      var n := U32At(s, 0) + 1;
      if n > MAX_SEGMENTS || TableSize(n) > cap then Bad(ErrLimit, 4)
      else if |s| < TableSize(n) then More
      else if TableCode(s, n, cap) != Ok then Bad(TableCode(s, n, cap), TableSize(n))
      else
        FirstSegment(s, n);
        if |s| < FrameSize(s, n) then More else Whole(FrameSize(s, n))
  }

  lemma FirstSegment(p: Bytes, n: nat)
    requires 1 <= n && TableSize(n) <= |p| && SegmentWords(p, 0) != 0
    ensures TableSize(n) + 8 <= FrameSize(p, n) && 8 <= TableSize(n)
  {
    TotalMonotone(p, TableSize(n), 1, n);
    assert TotalTo(p, TableSize(n), 1) == TotalTo(p, TableSize(n), 0) + 8 * SegmentWords(p, 0);
  }

  /** Frames handed to the callback, bytes taken, final error, and the bytes of the unfinished frame. */
  datatype Outcome = Outcome(frames: seq<Bytes>, consumed: nat, error: Code, residue: Bytes)

  /** The callback's verdict may depend on everything it has been given so far. */
  type Callback = seq<Bytes> -> Code

  function Then(f: Bytes, o: Outcome): Outcome { Outcome([f] + o.frames, |f| + o.consumed, o.error, o.residue) }

  /** Splits a stream in one go, `seen` being the frames already delivered. */
  function Split(s: Bytes, cap: nat, seen: seq<Bytes>, cb: Callback): Outcome
    decreases |s|
  {
    match NextFrame(s, cap)
    case More => Outcome([], |s|, Ok, s)
    case Bad(code, at) => Outcome([], at, code, s[..at])
    case Whole(n) =>
      var f := s[..n];
      if cb(seen + [f]) != Ok then Outcome([f], n, cb(seen + [f]), f)
      else Then(f, Split(s[n..], cap, seen + [f], cb))
  }

  /** Once the front of a stream is decided, more bytes do not change the decision. */
  lemma NextFrameStable(s: Bytes, c: Bytes, cap: nat)
    requires !NextFrame(s, cap).More?
    ensures NextFrame(s + c, cap) == NextFrame(s, cap)
  {
    hide U32At, TableSize;
    HeaderStable(s, c);
    var n := U32At(s, 0) + 1;
    if TableSize(n) <= |s| { TotalOfPrefix(s, s + c, TableSize(n), n); WordsStable(s, c); }
  }

  lemma HeaderStable(s: Bytes, c: Bytes)
    requires |s| >= 4
    ensures U32At(s + c, 0) == U32At(s, 0)
  {
  }

  lemma WordsStable(s: Bytes, c: Bytes)
    requires |s| >= 8
    ensures SegmentWords(s + c, 0) == SegmentWords(s, 0)
  {
  }

  /** A frame that comes off the stream passes every per-frame check. */
  lemma WholeIsWellFramed(s: Bytes, cap: nat)
    requires NextFrame(s, cap).Whole? && cap <= MESSAGE_MAX
    ensures WellFramed(s[..NextFrame(s, cap).size])
  {
    hide U32At, TableSize;
    var size := NextFrame(s, cap).size;
    var f := s[..size];
    assert f + s[size..] == s;
    HeaderStable(f, s[size..]);
    var n := U32At(s, 0) + 1;
    FirstSegment(s, n);
    WordsStable(f, s[size..]);
    TotalOfPrefix(f, s, TableSize(n), n);
  }

  /** Every delivered frame is well framed and within the capacity. */
  lemma {:induction false} FramesAreWellFramed(s: Bytes, cap: nat, seen: seq<Bytes>, cb: Callback)
    requires cap <= MESSAGE_MAX
    ensures forall f :: f in Split(s, cap, seen, cb).frames ==> WellFramed(f) && |f| <= cap
    decreases |s|
  {
    hide WellFramed, NextFrame;
    var next := NextFrame(s, cap);
    if next.Whole? {
      WholeIsWellFramed(s, cap);
      var f := s[..next.size];
      if cb(seen + [f]) == Ok { FramesAreWellFramed(s[next.size..], cap, seen + [f], cb); }
    }
  }

  /** Resuming from an outcome with more bytes. */
  function Resume(o: Outcome, c: Bytes, cap: nat, seen: seq<Bytes>, cb: Callback): Outcome
    requires |o.residue| <= o.consumed
  {
    if o.error != Ok then o else
      var p := Split(o.residue + c, cap, seen + o.frames, cb);
      Outcome(o.frames + p.frames, o.consumed - |o.residue| + p.consumed, p.error, p.residue)
  }

  lemma {:induction false} SplitBounds(s: Bytes, cap: nat, seen: seq<Bytes>, cb: Callback)
    ensures var o := Split(s, cap, seen, cb);
            |o.residue| <= o.consumed <= |s| && (o.error == Ok ==> o.consumed == |s| && NextFrame(o.residue, cap).More?)
    decreases |s|
  {
    hide NextFrame;
    var next := NextFrame(s, cap);
    if next.Whole? {
      var f := s[..next.size];
      if cb(seen + [f]) == Ok { SplitBounds(s[next.size..], cap, seen + [f], cb); }
    }
  }

  /** Splitting s then resuming with c is splitting s + c: no chunk boundary can be seen. */
  lemma {:induction false} SplitAppend(s: Bytes, c: Bytes, cap: nat, seen: seq<Bytes>, cb: Callback)
    ensures |Split(s, cap, seen, cb).residue| <= Split(s, cap, seen, cb).consumed
    ensures Split(s + c, cap, seen, cb) == Resume(Split(s, cap, seen, cb), c, cap, seen, cb)
    decreases |s|
  {
    hide NextFrame;
    SplitBounds(s, cap, seen, cb);
    var next := NextFrame(s, cap);
    if next.More? {
      assert seen + [] == seen;
      var p := Split(s + c, cap, seen, cb);
      assert [] + p.frames == p.frames;
    } else {
      NextFrameStable(s, c, cap);
      if next.Bad? {
        assert (s + c)[..next.at] == s[..next.at];
      } else {
        var f, rest := s[..next.size], s[next.size..];
        assert (s + c)[..next.size] == f && (s + c)[next.size..] == rest + c;
        if cb(seen + [f]) == Ok {
          SplitAppend(rest, c, cap, seen + [f], cb);
          ThenResume(f, Split(rest, cap, seen + [f], cb), c, cap, seen, cb);
        }
      }
    }
  }

  lemma ThenResume(f: Bytes, o: Outcome, c: Bytes, cap: nat, seen: seq<Bytes>, cb: Callback)
    requires |o.residue| <= o.consumed
    ensures Then(f, Resume(o, c, cap, seen + [f], cb)) == Resume(Then(f, o), c, cap, seen, cb)
  {
    hide Split;
    assert seen + [f] + o.frames == seen + ([f] + o.frames);
    var p := Split(o.residue + c, cap, seen + [f] + o.frames, cb);
    assert [f] + (o.frames + p.frames) == [f] + o.frames + p.frames;
  }

  // ---- any cutting into chunks

  function Feed(o: Outcome, chunk: Bytes, cap: nat, cb: Callback): Outcome
    requires |o.residue| <= o.consumed
  {
    Resume(o, chunk, cap, [], cb)
  }

  function Flatten(chunks: seq<Bytes>): Bytes
  {
    if chunks == [] then [] else Flatten(chunks[..|chunks| - 1]) + chunks[|chunks| - 1]
  }

  const NOTHING_YET := Outcome([], 0, Ok, [])

  function FeedAll(chunks: seq<Bytes>, cap: nat, cb: Callback): (o: Outcome)
    ensures |o.residue| <= o.consumed
  {
    if chunks == [] then NOTHING_YET
    else
      var before := FeedAll(chunks[..|chunks| - 1], cap, cb);
      var o := Feed(before, chunks[|chunks| - 1], cap, cb);
      SplitBounds(before.residue + chunks[|chunks| - 1], cap, [] + before.frames, cb);
      o
  }

  /** However a stream is cut into chunks, feeding them gives the split of the whole stream. */
  lemma {:induction false} ChunkingIsInvisible(chunks: seq<Bytes>, cap: nat, cb: Callback)
    ensures FeedAll(chunks, cap, cb) == Split(Flatten(chunks), cap, [], cb)
  {
    hide NextFrame;
    if chunks == [] {
      EmptyStream(cap, cb);
    } else {
      var front := chunks[..|chunks| - 1];
      ChunkingIsInvisible(front, cap, cb);
      SplitAppend(Flatten(front), chunks[|chunks| - 1], cap, [], cb);
    }
  }

  lemma EmptyStream(cap: nat, cb: Callback)
    ensures Split([], cap, [], cb) == NOTHING_YET
  {
  }

  /** The verdict on the end of the stream. */
  function EofCode(o: Outcome): Code { if o.error != Ok then o.error else if o.residue == [] then Ok else ErrTruncated }

  // ---- the framer

  /** `target` and `phase` are what the bytes held so far call for. */
  ghost predicate Awaits(b: Bytes, cap: nat, target: nat, segments: nat, phase: nat)
  {
    && |b| < target <= cap
    && match phase
       case 0 => target == 4
       case 1 => (4 <= |b| && segments == U32At(b, 0) + 1 <= MAX_SEGMENTS && target == TableSize(segments))
       case 2 => (4 <= |b| && segments == U32At(b, 0) + 1 <= MAX_SEGMENTS && TableSize(segments) <= |b|
                  && TableCode(b, segments, cap) == Ok && target == FrameSize(b, segments))
       case _ => false
  }

  lemma AwaitsMore(b: Bytes, cap: nat, target: nat, segments: nat, phase: nat)
    requires Awaits(b, cap, target, segments, phase)
    ensures NextFrame(b, cap).More?
  {
  }

  /** More bytes short of the target leave the framer waiting for the same thing. */
  lemma AwaitsStill(b: Bytes, c: Bytes, cap: nat, target: nat, segments: nat, phase: nat)
    requires Awaits(b, cap, target, segments, phase) && |b + c| < target
    ensures Awaits(b + c, cap, target, segments, phase)
  {
    hide TableSize;
    if phase > 0 { HeaderStable(b, c); }
    if phase == 2 { TotalOfPrefix(b, b + c, TableSize(segments), segments); WordsStable(b, c); }
  }

  /** Reaching the target of phase 0 settles the segment count. */
  lemma CountKnown(b: Bytes, c: Bytes, cap: nat)
    requires |b| == 4 && 16 <= cap
    ensures U32At(b, 0) >= MAX_SEGMENTS || TableSize(U32At(b, 0) + 1) > cap ==>
        NextFrame(b + c, cap) == Bad(ErrLimit, 4)
    ensures U32At(b, 0) < MAX_SEGMENTS && TableSize(U32At(b, 0) + 1) <= cap ==>
              Awaits(b, cap, TableSize(U32At(b, 0) + 1), U32At(b, 0) + 1, 1)
  {
    HeaderStable(b, c);
  }

  /** Reaching the target of phase 1 settles the frame size. */
  lemma TableKnown(b: Bytes, c: Bytes, cap: nat, segments: nat)
    requires 4 <= |b| && segments == U32At(b, 0) + 1 <= MAX_SEGMENTS && |b| == TableSize(segments) <= cap
    ensures TableCode(b, segments, cap) != Ok ==> NextFrame(b + c, cap) == Bad(TableCode(b, segments, cap), |b|)
    ensures TableCode(b, segments, cap) == Ok ==> Awaits(b, cap, FrameSize(b, segments), segments, 2)
  {
    hide TableSize;
    if TableCode(b, segments, cap) != Ok { NextFrameStable(b, c, cap); }
    else { FirstSegment(b, segments); }
  }

  /** Reaching the target of phase 2 completes the frame. */
  lemma FrameKnown(b: Bytes, c: Bytes, cap: nat, segments: nat)
    requires 4 <= |b| && segments == U32At(b, 0) + 1 <= MAX_SEGMENTS && TableSize(segments) <= |b|
    requires TableCode(b, segments, cap) == Ok && |b| == FrameSize(b, segments)
    ensures NextFrame(b + c, cap) == Whole(|b|)
  {
    hide TableSize;
    FirstSegment(b, segments);
    NextFrameStable(b, c, cap);
  }

  /** `done` frames of `size` bytes in all, then an outcome. */
  function After(done: seq<Bytes>, size: nat, o: Outcome): Outcome
  {
    Outcome(done + o.frames, size + o.consumed, o.error, o.residue)
  }

  class Framer {
    var buffer: array<Byte>
    var capacity: nat
    var used: nat
    var target: nat
    var segments: nat
    var phase: nat
    var error: Code
    var delivered: seq<Bytes>  // every frame handed to the callback, whose verdict may depend on them all

    /** Bytes of the frame being assembled. */
    ghost function Held(): Bytes
      reads this, buffer
      requires used <= buffer.Length
    {
      buffer[..used]
    }

    ghost predicate Valid()
      reads this, buffer
    {
      && 16 <= capacity <= MESSAGE_MAX && capacity <= buffer.Length && used <= capacity
      && (error == Ok ==> Awaits(Held(), capacity, target, segments, phase))
    }

    constructor (buffer: array<Byte>, cap: nat)
      requires 16 <= cap <= MESSAGE_MAX && cap <= buffer.Length
      ensures Valid() && this.buffer == buffer && capacity == cap
      ensures error == Ok && Held() == [] && delivered == []
    {
      this.buffer, capacity, delivered := buffer, cap, [];
      used, target, segments, phase, error := 0, 4, 0, 0, Ok;
    }

    method Reset()
      requires 16 <= capacity <= MESSAGE_MAX && capacity <= buffer.Length
      modifies `used, `target, `segments, `phase, `error
      ensures Valid() && error == Ok && Held() == []
    {
      used, target, segments, phase, error := 0, 4, 0, 0, Ok;
    }

    /** Copies as many bytes as the current target still lacks. */
    method Fill(input: Bytes, consumed: nat) returns (n: nat)
      requires used < target <= buffer.Length && consumed < |input|
      modifies `used, buffer
      ensures n == Min(target - old(used), |input| - consumed) && used == old(used) + n
      ensures Held() == old(Held()) + input[consumed..consumed + n]
    {
      n := Min(target - used, |input| - consumed);
      forall k | 0 <= k < n { buffer[used + k] := input[consumed + k]; }
      used := used + n;
    }

    /** Everything the framer decides when the bytes held reach the target; `added` is the frame delivered, if any. */
    method Decide(cb: Callback, ghost rest: Bytes) returns (ghost added: seq<Bytes>)
      requires 16 <= capacity <= MESSAGE_MAX && capacity <= buffer.Length && used <= capacity && error == Ok
      requires AtTarget(Held(), capacity, segments, phase)
      modifies this
      ensures Valid() && buffer == old(buffer) && capacity == old(capacity) && used <= old(used)
      ensures delivered == old(delivered) + added
      ensures Split(old(Held()) + rest, capacity, old(delivered), cb)
           == if error != Ok then Outcome(added, old(used), error, Held())
              else After(added, old(used) - used, Split(Held() + rest, capacity, delivered, cb))
    {
      hide NextFrame, Split, TableSize, TableCode, FrameSize, U32At;
      added := [];
      ghost var held := Held();
      NoFramesBefore(Split(held + rest, capacity, delivered, cb));
      BadSplit(held, rest, capacity, delivered, cb);
      if phase == 0 {
        CountKnown(held, rest, capacity);
        var minusOne := U32At(buffer[..used], 0);
        if minusOne >= MAX_SEGMENTS { error := ErrLimit; return; }
        segments := minusOne + 1;
        target := TableSize(segments);
        if target > capacity { error := ErrLimit; return; }
        phase := 1;
      } else if phase == 1 {
        TableKnown(held, rest, capacity, segments);
        var code, total := TotalSize(buffer[..used], segments, capacity);
        if code != Ok { error := code; return; }
        target := total;
        phase := 2;
      } else {
        added := Deliver(cb, rest);
      }
    }

    /** A complete frame goes to the callback, whose refusal ends the stream. */
    method Deliver(cb: Callback, ghost rest: Bytes) returns (ghost added: seq<Bytes>)
      requires 16 <= capacity <= MESSAGE_MAX && capacity <= buffer.Length && used <= capacity && error == Ok
      requires AtTarget(Held(), capacity, segments, phase) && phase == 2
      modifies this
      ensures Valid() && buffer == old(buffer) && capacity == old(capacity) && used <= old(used)
      ensures delivered == old(delivered) + added
      ensures Split(old(Held()) + rest, capacity, old(delivered), cb)
           == if error != Ok then Outcome(added, old(used), error, Held())
              else After(added, old(used) - used, Split(Held() + rest, capacity, delivered, cb))
    {
      hide NextFrame, Split, TableSize, TableCode, FrameSize, U32At;
      ghost var held := Held();
      NoFramesBefore(Split(held + rest, capacity, delivered, cb));
      FrameKnown(held, rest, capacity, segments);
      WholeSplit(held, rest, capacity, delivered, cb, [], 0);
      added := [held];
      delivered := delivered + [buffer[..used]];
      var code := cb(delivered);
      if code != Ok { error := code; return; }
      Reset();
      assert Held() + rest == rest;
    }

    /** Offers bytes; the callback sees each completed frame. A failed framer takes nothing. */
    method Take(input: Bytes, cb: Callback) returns (rc: Code, consumed: nat)
      requires Valid()
      modifies this, buffer
      ensures Valid() && buffer == old(buffer) && capacity == old(capacity)
      ensures rc == error
      ensures old(error) != Ok ==>
                error == old(error) && consumed == 0 && delivered == old(delivered) && used == old(used)
                    && Held() == old(Held())
      ensures old(error) == Ok ==>
                var o := Split(old(Held()) + input, capacity, old(delivered), cb);
                && error == o.error && Held() == o.residue && delivered == old(delivered) + o.frames
                && consumed == o.consumed - old(used)
    {
      hide Awaits, NextFrame, Split, AtTarget, After;
      consumed := 0;
      if error != Ok { return error, 0; }
      ghost var start, seen := Held(), delivered;
      ghost var all := Split(start + input, capacity, seen, cb);
      ghost var done: seq<Bytes>, size: nat := [], 0;
      NoFramesBefore(all);
      assert input[0..] == input;
      while consumed < |input|
        invariant Valid() && buffer == old(buffer) && capacity == old(capacity) && error == Ok
        invariant consumed <= |input| && size + used == |start| + consumed
        invariant delivered == seen + done
        invariant all == After(done, size, Split(Held() + input[consumed..], capacity, delivered, cb))
        decreases |input| - consumed
      {
        ghost var held := Held();
        AwaitsBounds(held, capacity, target, segments, phase);
        var n := Fill(input, consumed);
        ghost var piece, rest := input[consumed..consumed + n], input[consumed + n..];
        assert held + input[consumed..] == Held() + rest;
        consumed := consumed + n;
        if used != target {
          AwaitsStill(held, piece, capacity, target, segments, phase);
          continue;
        }
        Reached(held, piece, capacity, target, segments, phase);
        ghost var full := used;
        ghost var added := Decide(cb, rest);
        AfterAfter(done, size, added, full, used, error, Held(), Split(Held() + rest, capacity, delivered, cb));
        done, size := done + added, size + full - used;
        if error != Ok { return error, consumed; }
      }
      assert Held() + input[consumed..] == Held();
      AwaitsMore(Held(), capacity, target, segments, phase);
      MoreSplit(Held(), capacity, delivered, cb);
      AfterMore(done, size, Held());
      rc := Ok;
    }

    method Eof() returns (rc: Code)
      requires Valid()
      ensures rc == EofCode(Outcome(delivered, used, error, Held()))
    {
      if error != Ok { return error; }
      rc := if used != 0 then ErrTruncated else Ok;
    }
  }

  /** A framer over the caller's buffer, or a refusal of its capacity. */
  method InitFramer(buffer: array<Byte>, cap: nat) returns (rc: Code, f: Framer?)
    requires cap <= buffer.Length
    ensures rc == if 16 <= cap <= MESSAGE_MAX then Ok else ErrArgument
    ensures rc == Ok ==>
        f != null && f.Valid() && f.buffer == buffer && f.capacity == cap && f.Held() == [] && f.error == Ok
        && f.delivered == []
  {
    if cap < 16 || cap > MESSAGE_MAX { return ErrArgument, null; }
    f := new Framer(buffer, cap);
    rc := Ok;
  }

  /**
   * Offers every chunk, then the end of the input: all that is delivered, taken and decided is that of the whole
   * stream.
   */
  method FeedChunks(f: Framer, chunks: seq<Bytes>, cb: Callback) returns (rc: Code, consumed: nat)
    requires f.Valid() && f.error == Ok && f.Held() == [] && f.delivered == []
    modifies f, f.buffer
    ensures f.Valid() && f.buffer == old(f.buffer) && f.capacity == old(f.capacity)
    ensures Outcome(f.delivered, consumed, f.error, f.Held()) == Split(Flatten(chunks), f.capacity, [], cb)
    ensures rc == EofCode(Split(Flatten(chunks), f.capacity, [], cb))
  {
    hide Split, NextFrame, Awaits;
    consumed := 0;
    for i := 0 to |chunks|
      invariant f.Valid() && f.buffer == old(f.buffer) && f.capacity == old(f.capacity)
      invariant Outcome(f.delivered, consumed, f.error, f.Held()) == FeedAll(chunks[..i], f.capacity, cb)
    {
      assert chunks[..i + 1][..i] == chunks[..i];
      assert [] + f.delivered == f.delivered;
      var code, n := f.Take(chunks[i], cb);
      consumed := consumed + n;
    }
    assert chunks[..|chunks|] == chunks;
    ChunkingIsInvisible(chunks, f.capacity, cb);
    rc := f.Eof();
  }

  lemma NoFramesBefore(o: Outcome)
    ensures After([], 0, o) == o
  {
    assert [] + o.frames == o.frames;
  }

  lemma AwaitsBounds(b: Bytes, cap: nat, target: nat, segments: nat, phase: nat)
    requires Awaits(b, cap, target, segments, phase)
    ensures |b| < target <= cap && phase <= 2
  {
  }

  /** The bytes held are exactly what the phase was waiting for. */
  ghost predicate AtTarget(b: Bytes, cap: nat, segments: nat, phase: nat)
  {
    && phase <= 2 && 4 <= |b|
    && (phase == 0 ==> |b| == 4)
    && (phase > 0 ==> segments == U32At(b, 0) + 1 <= MAX_SEGMENTS)
    && (phase == 1 ==> |b| == TableSize(segments) <= cap)
    && (phase == 2 ==> TableSize(segments) <= |b| && TableCode(b, segments, cap) == Ok && |b| == FrameSize(b, segments))
  }

  lemma AfterAfter(done: seq<Bytes>, size: nat, added: seq<Bytes>, full: nat, used: nat, error: Code, held: Bytes,
      o: Outcome)
    requires used <= full
    ensures After(done, size, After(added, full - used, o)) == After(done + added, size + full - used, o)
    ensures After(done, size, Outcome(added, full, error, held)) == Outcome(done + added, size + full, error, held)
  {
    assert done + (added + o.frames) == done + added + o.frames;
  }

  lemma AfterMore(done: seq<Bytes>, size: nat, held: Bytes)
    ensures After(done, size, Outcome([], |held|, Ok, held)) == Outcome(done, size + |held|, Ok, held)
  {
    assert done + [] == done;
  }

  /** Filling up to the target satisfies what the next decision needs. */
  lemma Reached(b: Bytes, c: Bytes, cap: nat, target: nat, segments: nat, phase: nat)
    requires Awaits(b, cap, target, segments, phase) && |b + c| == target
    ensures AtTarget(b + c, cap, segments, phase)
  {
    hide TableSize;
    if phase > 0 { HeaderStable(b, c); }
    if phase == 2 { TotalOfPrefix(b, b + c, TableSize(segments), segments); WordsStable(b, c); }
  }

  lemma MoreSplit(b: Bytes, cap: nat, seen: seq<Bytes>, cb: Callback)
    requires NextFrame(b, cap).More?
    ensures Split(b, cap, seen, cb) == Outcome([], |b|, Ok, b)
  {
  }

  lemma BadSplit(b: Bytes, c: Bytes, cap: nat, seen: seq<Bytes>, cb: Callback)
    ensures NextFrame(b + c, cap).Bad? && NextFrame(b + c, cap).at == |b| ==>
              Split(b + c, cap, seen, cb) == Outcome([], |b|, NextFrame(b + c, cap).code, b)
  {
    assert (b + c)[..|b|] == b;
  }

  lemma WholeSplit(f: Bytes, c: Bytes, cap: nat, seen: seq<Bytes>, cb: Callback, done: seq<Bytes>, size: nat)
    requires NextFrame(f + c, cap) == Whole(|f|)
    ensures cb(seen + [f]) != Ok ==> Split(f + c, cap, seen, cb) == Outcome([f], |f|, cb(seen + [f]), f)
    ensures cb(seen + [f]) == Ok ==>
              After(done, size, Split(f + c, cap, seen, cb))
                  == After(done + [f], size + |f|, Split(c, cap, seen + [f], cb))
  {
    assert (f + c)[..|f|] == f && (f + c)[|f|..] == c;
    var p := Split(c, cap, seen + [f], cb);
    assert done + ([f] + p.frames) == done + [f] + p.frames;
  }
}
