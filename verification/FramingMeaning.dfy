/**
 * Messages assembled from segments (section "Serialization Over a Stream" of the encoding), and their way through the
 * framer.
 */
module FramingMeaning {
  import opened Core
  import opened Framing
  import CapnpTree

  /** One to eight segments of whole words, the first with room for a root pointer. */
  predicate Segments(segs: seq<Bytes>)
  {
    segs != [] && |segs| <= 8 && segs[0] != [] && forall i :: 0 <= i < |segs| ==> |segs[i]| % 8 == 0 && |segs[i]| < U32
  }

  function Lengths(segs: seq<Bytes>): (b: Bytes)
    ensures |b| == 4 * |segs|
  {
    if segs == [] then [] else Lengths(segs[..|segs| - 1]) + ToLe(4, |segs[|segs| - 1]| / 8)
  }

  function Contents(segs: seq<Bytes>): Bytes
  {
    if segs == [] then [] else Contents(segs[..|segs| - 1]) + segs[|segs| - 1]
  }

  /** The number of segments less one, their lengths in words, and padding to a word. */
  function Table(segs: seq<Bytes>): Bytes
    requires segs != []
  {
    ToLe(4, |segs| - 1) + Lengths(segs) + if |segs| % 2 == 0 then ToLe(4, 0) else []
  }

  function Assembled(segs: seq<Bytes>): Bytes
    requires segs != []
  {
    Table(segs) + Contents(segs)
  }

  lemma {:induction false} LengthAt(segs: seq<Bytes>, i: nat)
    requires i < |segs|
    ensures Lengths(segs)[4 * i..4 * i + 4] == ToLe(4, |segs[i]| / 8)
  {
    hide ToLe;
    var n := |segs| - 1;
    if i < n {
      LengthAt(segs[..n], i);
      assert Lengths(segs)[4 * i..4 * i + 4] == Lengths(segs[..n])[4 * i..4 * i + 4];
    }
  }

  lemma {:induction false} ContentAt(segs: seq<Bytes>, i: nat)
    requires i < |segs|
    ensures |Contents(segs[..i])| + |segs[i]| == |Contents(segs[..i + 1])| <= |Contents(segs)|
    ensures Contents(segs)[|Contents(segs[..i])|..|Contents(segs[..i + 1])|] == segs[i]
  {
    var n := |segs| - 1;
    assert segs[..i + 1][..i] == segs[..i];
    if i == n {
      assert segs[..i + 1] == segs;
    } else {
      ContentAt(segs[..n], i);
      assert segs[..n][..i] == segs[..i] && segs[..n][..i + 1] == segs[..i + 1];
    }
  }

  lemma TableFills(segs: seq<Bytes>)
    requires segs != []
    ensures |Table(segs)| == TableSize(|segs|)
  {
    hide ToLe;
    var h, r := |segs| / 2, |segs| % 2;
    assert |segs| == 2 * h + r;
    assert (|segs| + 2) / 2 == h + 1;
  }

  /** The front of p is the table. */
  predicate Fronts(p: Bytes, segs: seq<Bytes>)
  {
    segs != [] && |Table(segs)| <= |p| && p[..|Table(segs)|] == Table(segs)
  }

  lemma TableReads(p: Bytes, segs: seq<Bytes>, i: nat)
    requires Segments(segs) && Fronts(p, segs) && i < |segs|
    ensures U32At(p, 0) == |segs| - 1 && 8 + 4 * i <= |p| && SegmentWords(p, i) == |segs[i]| / 8
  {
    hide ToLe, U32At;
    TableFills(segs);
    var t := Table(segs);
    assert p[0..4] == t[0..4] == ToLe(4, |segs| - 1);
    CapnpTree.WordOf(p, 0, |segs| - 1);
    LengthAt(segs, i);
    assert t[4 + 4 * i..8 + 4 * i] == Lengths(segs)[4 * i..4 * i + 4];
    assert p[4 + 4 * i..8 + 4 * i] == t[4 + 4 * i..8 + 4 * i];
    CapnpTree.WordOf(p, 4 + 4 * i, |segs[i]| / 8);
  }

  lemma {:induction false} TotalReads(p: Bytes, segs: seq<Bytes>, i: nat)
    requires Segments(segs) && Fronts(p, segs) && i <= |segs|
    ensures 4 + 4 * i <= |p| && TotalTo(p, TableSize(|segs|), i) == TableSize(|segs|) + |Contents(segs[..i])|
  {
    hide U32At, Table, TableSize;
    TableFills(segs);
    if i > 0 {
      TotalReads(p, segs, i - 1);
      TableReads(p, segs, i - 1);
      ContentAt(segs, i - 1);
    }
  }

  /** An assembled message is recognised at the front of any stream, exactly when it fits the buffer. */
  lemma AssembledIsWhole(segs: seq<Bytes>, rest: Bytes, cap: nat)
    requires Segments(segs) && cap <= 16384
    ensures |Assembled(segs)| <= cap ==> NextFrame(Assembled(segs) + rest, cap) == Whole(|Assembled(segs)|)
    ensures |Assembled(segs)| > cap ==>
              NextFrame(Assembled(segs) + rest, cap).Bad? && NextFrame(Assembled(segs) + rest, cap).code == ErrLimit
  {
    hide U32At, Table, TableSize, Contents;
    var p := Assembled(segs) + rest;
    TableFills(segs);
    assert p[..|Table(segs)|] == Table(segs);
    TableReads(p, segs, 0);
    TotalReads(p, segs, |segs|);
    assert segs[..|segs|] == segs;
  }

  /** It is well framed, and its segments read back. */
  lemma AssembledReadsBack(segs: seq<Bytes>, i: nat)
    requires Segments(segs) && |Assembled(segs)| <= 16384 && i < |segs|
    ensures WellFramed(Assembled(segs)) && U32At(Assembled(segs), 0) == |segs| - 1
    ensures SegmentCode(Assembled(segs), i) == Ok && SegmentBytes(Assembled(segs), i) == segs[i]
  {
    hide U32At, Table, TableSize, Contents;
    var p := Assembled(segs);
    TableFills(segs);
    assert p[..|Table(segs)|] == Table(segs);
    TableReads(p, segs, 0);
    TotalReads(p, segs, |segs|);
    TotalReads(p, segs, i);
    TotalReads(p, segs, i + 1);
    assert segs[..|segs|] == segs;
    ContentAt(segs, i);
    var lo, hi := |Contents(segs[..i])|, |Contents(segs[..i + 1])|;
    assert p[TableSize(|segs|) + lo..TableSize(|segs|) + hi] == Contents(segs)[lo..hi];
  }

  /** A stream of messages. */
  function Streamed(messages: seq<seq<Bytes>>): Bytes
    requires forall i :: 0 <= i < |messages| ==> Segments(messages[i])
  {
    if messages == [] then [] else
      assert Segments(messages[0]);
      Assembled(messages[0]) + Streamed(messages[1..])
  }

  function Frames(messages: seq<seq<Bytes>>): seq<Bytes>
    requires forall i :: 0 <= i < |messages| ==> Segments(messages[i])
  {
    if messages == [] then [] else
      assert Segments(messages[0]);
      [Assembled(messages[0])] + Frames(messages[1..])
  }

  /** A stream of messages that fit the buffer splits into exactly them, as long as the callback accepts. */
  lemma {:induction false} StreamSplits(messages: seq<seq<Bytes>>, cap: nat, seen: seq<Bytes>, cb: Callback)
    requires forall i :: 0 <= i < |messages| ==> Segments(messages[i]) && |Assembled(messages[i])| <= cap
    requires cap <= 16384 && forall frames :: cb(frames) == Ok
    ensures Split(Streamed(messages), cap, seen, cb) == Outcome(Frames(messages), |Streamed(messages)|, Ok, [])
    decreases |messages|
  {
    hide NextFrame, Assembled;
    if messages == [] {
      NothingToSplit(cap, seen, cb);
    } else {
      var first, rest := Assembled(messages[0]), Streamed(messages[1..]);
      AssembledIsWhole(messages[0], rest, cap);
      assert (first + rest)[..|first|] == first && (first + rest)[|first|..] == rest;
      StreamSplits(messages[1..], cap, seen + [first], cb);
    }
  }

  lemma NothingToSplit(cap: nat, seen: seq<Bytes>, cb: Callback)
    ensures Split([], cap, seen, cb) == Outcome([], 0, Ok, [])
  {
  }
}
