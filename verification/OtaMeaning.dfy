/** Uploads that succeed: what a client must do, and what it then gets. */
module OtaMeaning {
  import opened Core
  import opened Ota

  /** The platform does its part throughout. */
  predicate Willing(s: StartEnv, w: WriteEnv, f: FinishEnv)
  {
    && s.available && s.hashReady && w.imageOk && w.beginOk && w.writeOk && w.hashOk && f.hashOk && f.endOk
        && f.selectOk
  }

  /** An image cut into chunks of 1 to 1408 bytes, the first of which holds the descriptor. */
  predicate Sendable(chunks: seq<Bytes>)
  {
    chunks != [] && |chunks[0]| >= 288 && forall i :: 0 <= i < |chunks| ==> 1 <= |chunks[i]| <= 1408
  }

  /** The requests of an upload: a start, then each chunk where the last one ended. */
  function Requests(size: nat, text: string, chunks: seq<Bytes>, s: StartEnv, w: WriteEnv): seq<Op>
  {
    if chunks == [] then [OpStart(size, text, s)]
    else
      var n := |chunks| - 1;
      Requests(size, text, chunks[..n], s, w) + [OpWrite(Printed(s.random), |Flat(chunks[..n])|, chunks[n], w)]
  }

  /** A session in progress after these chunks. */
  predicate InProgress(u: Upload, chunks: seq<Bytes>, size: nat, text: string, s: StartEnv, now: nat)
    requires IsDigestText(text)
  {
    && u.active && !u.ready && u.id == Printed(s.random) && u.expected == DigestOf(text) && u.total == size
        && u.activityMs == now
    && u.received == |Flat(chunks)| && u.hashed == Flat(chunks) && u.open == (chunks != [])
    && (u.open ==> u.slot == Flat(chunks))
  }

  lemma {:induction false} PrefixFits(chunks: seq<Bytes>, i: nat)
    requires i <= |chunks|
    ensures |Flat(chunks[..i])| <= |Flat(chunks)|
    decreases |chunks| - i
  {
    if i == |chunks| {
      assert chunks[..i] == chunks;
    } else {
      PrefixFits(chunks, i + 1);
      assert chunks[..i + 1][..i] == chunks[..i];
    }
  }

  lemma AfterSnoc(sha: Digest, ops: seq<Op>, op: Op)
    ensures After(sha, ops + [op]) == Apply(sha, After(sha, ops), op).u
  {
    hide Apply;
    assert (ops + [op])[..|ops|] == ops;
  }

  /** Chunk after chunk is taken. */
  lemma {:induction false} UploadProceeds(sha: Digest, size: nat, text: string, chunks: seq<Bytes>, s: StartEnv,
      w: WriteEnv, f: FinishEnv)
    requires Willing(s, w, f) && IsDigestText(text) && 288 <= size <= s.capacity && size <= SIZE_MAX
    requires (chunks == [] || Sendable(chunks)) && |Flat(chunks)| <= size
    ensures InProgress(After(sha, Requests(size, text, chunks, s, w)), chunks, size, text, s,
                       if chunks == [] then s.now else w.now)
  {
    hide Apply, Printed, DigestOf, IsDigestText, Flat, After;
    if chunks == [] {
      StartsFresh(sha, size, text, s, w);
    } else {
      var n := |chunks| - 1;
      var before := Requests(size, text, chunks[..n], s, w);
      PrefixFits(chunks, n);
      UploadProceeds(sha, size, text, chunks[..n], s, w, f);
      var op := OpWrite(Printed(s.random), |Flat(chunks[..n])|, chunks[n], w);
      AfterSnoc(sha, before, op);
      FlatMore(chunks[..n], chunks[n]);
      assert chunks[..n] + [chunks[n]] == chunks;
      FlatNone();
      ChunkIsTaken(sha, After(sha, before), chunks[..n], chunks[n], size, text, s, if n == 0 then s.now else w.now, w);
    }
  }

  lemma FlatNone()
    ensures Flat([]) == []
  {
  }

  lemma StartsFresh(sha: Digest, size: nat, text: string, s: StartEnv, w: WriteEnv)
    requires s.available && s.hashReady && IsDigestText(text) && 288 <= size <= s.capacity
    ensures InProgress(After(sha, Requests(size, text, [], s, w)), [], size, text, s, s.now)
  {
    hide Printed, DigestOf, IsDigestText;
    var op := OpStart(size, text, s);
    assert [op][..0] == [];
    assert After(sha, []) == INITIAL;
    assert After(sha, [op]) == Apply(sha, INITIAL, op).u;
  }

  lemma ChunkIsTaken(sha: Digest, u: Upload, chunks: seq<Bytes>, bytes: Bytes, size: nat, text: string, s: StartEnv,
      now: nat, w: WriteEnv)
    requires IsDigestText(text) && InProgress(u, chunks, size, text, s, now) && size <= SIZE_MAX
    requires w.imageOk && w.beginOk && w.writeOk && w.hashOk
    requires 1 <= |bytes| <= 1408 && |Flat(chunks)| + |bytes| <= size && (chunks == [] ==> |bytes| >= 288)
    requires Flat(chunks + [bytes]) == Flat(chunks) + bytes && (chunks == [] ==> Flat(chunks) == [])
    ensures InProgress(Apply(sha, u, OpWrite(Printed(s.random), |Flat(chunks)|, bytes, w)).u, chunks + [bytes], size,
        text, s, w.now)
  {
    hide Printed, DigestOf, IsDigestText, Flat;
    assert Left(size, |Flat(chunks)|) == size - |Flat(chunks)|;
  }

  /**
   * A whole upload on a willing platform is made ready for boot exactly when the image has the announced size and
   * digest; the slot then holds that image. Otherwise nothing is selected.
   */
  lemma UploadCompletes(sha: Digest, size: nat, text: string, chunks: seq<Bytes>, s: StartEnv, w: WriteEnv,
      f: FinishEnv)
    requires Willing(s, w, f) && IsDigestText(text) && 288 <= size <= s.capacity && size <= SIZE_MAX
    requires Sendable(chunks) && |Flat(chunks)| <= size
    ensures var image := Flat(chunks);
            var u := After(sha, Requests(size, text, chunks, s, w) + [OpFinish(Printed(s.random), f)]);
            && (u.ready <==> |image| == size && sha(image) == DigestOf(text))
            && (u.ready ==> u.slot == image && !u.active)
  {
    hide Printed, DigestOf, IsDigestText, Flat, After, Sendable, Requests;
    var ops := Requests(size, text, chunks, s, w);
    assert chunks != [] by { NotEmpty(chunks); }
    UploadProceeds(sha, size, text, chunks, s, w, f);
    AfterSnoc(sha, ops, OpFinish(Printed(s.random), f));
  }

  lemma NotEmpty(chunks: seq<Bytes>)
    requires Sendable(chunks)
    ensures chunks != []
  {
  }

  /** A chunk that was taken restarts the minute: the session survives ticks up to 60 s later, and no longer. */
  lemma ChunkRestartsTheMinute(sha: Digest, u: Upload, op: Op, now: nat)
    requires op.OpWrite? && Apply(sha, u, op).ok && op.write.now <= now < op.write.now + U64
    ensures var v := Apply(sha, u, op).u;
            && v.active && v.id == u.id && v.received == u.received + |op.bytes|
            && (Tick(v, now).active <==> now - op.write.now <= 60000)
            && (now - op.write.now <= 60000 ==> Tick(v, now) == v)
  {
    hide IsDigestText, DigestOf, Printed, Left;
  }

  // ---- who may do what

  /** Figures and letters of either case are digits in their order; nothing else is one. */
  lemma HexValues(c: char)
    ensures '0' <= c <= '9' ==> HexDigit(c) == c as int - '0' as int
    ensures 'a' <= c <= 'f' ==> HexDigit(c) == 10 + c as int - 'a' as int
    ensures 'A' <= c <= 'F' ==> HexDigit(c) == 10 + c as int - 'A' as int
    ensures HexDigit(c) < 0 <==> !('0' <= c <= '9' || 'a' <= c <= 'f' || 'A' <= c <= 'F')
  {
  }

  /** An upload starts exactly when none is running or ready, for an image that fits the slot, and a full digest. */
  lemma StartsExactly(u: Upload, size: nat, text: string, s: StartEnv)
    ensures Start(u, size, text, s).ok <==>
              && !u.active && !u.ready && s.available && 288 <= size <= s.capacity && s.hashReady
              && |text| == 64 && forall i :: 0 <= i < 64 ==> HexDigit(text[i]) >= 0
    ensures Start(u, size, text, s).ok ==>
        Start(u, size, text, s).u.id == Printed(s.random) && Start(u, size, text, s).u.total == size
  {
    hide Printed, DigestOf;
  }

  /** A request under any other id fails and changes nothing. */
  lemma OtherIdsChangeNothing(sha: Digest, u: Upload, id: string, offset: nat, bytes: Bytes, w: WriteEnv, f: FinishEnv)
    requires id != u.id || !u.active
    ensures Write(u, id, offset, bytes, w) == Outcome(u, false)
    ensures Finish(sha, u, id, f) == Outcome(u, false)
    ensures Abort(u, id) == Outcome(u, false)
  {
  }

  /** The session's own abort ends it. */
  lemma AbortEnds(u: Upload)
    requires u.active && |u.id| == 32
    ensures Abort(u, u.id).ok && !Abort(u, u.id).u.active && !Abort(u, u.id).u.open
    ensures Abort(u, u.id).u.selections == u.selections
  {
  }
}
