/** The firmware upload: one session at a time, one chunk after another, one verified selection at the end. */
module Ota {
  import opened Core

  const CHUNK: nat := 1408
  /** The image header, the first segment header and the application descriptor that the first chunk must hold. */
  const PREFIX: nat := 24 + 8
  const DESCRIPTOR: nat := 256
  const IDLE_MS: nat := 60000

  // ---- hexadecimal text

  function HexDigit(c: char): (v: int)
    ensures -1 <= v < 16
  {
    if '0' <= c <= '9' then (c - '0') as int
    else if 'a' <= c <= 'f' then (c - 'a') as int + 10
    else if 'A' <= c <= 'F' then (c - 'A') as int + 10
    else -1
  }

  /** The digest a text of 64 hexadecimal digits names. */
  ghost predicate Names(text: string, digest: Bytes)
  {
    && |text| == 64 && |digest| == 32
    && forall i :: 0 <= i < 32 ==>
         HexDigit(text[2 * i]) >= 0 && HexDigit(text[2 * i + 1]) >= 0
         && digest[i] == 16 * HexDigit(text[2 * i]) + HexDigit(text[2 * i + 1])
  }

  predicate IsDigestText(text: string)
  {
    |text| == 64 && forall i :: 0 <= i < 64 ==> HexDigit(text[i]) >= 0
  }

  /** Every digest text names exactly one digest, and nothing else names one. */
  lemma NamesIsAFunction(text: string)
    ensures IsDigestText(text) <==> exists d: Bytes :: Names(text, d)
    ensures forall d, e: Bytes :: Names(text, d) && Names(text, e) ==> d == e
  {
    if IsDigestText(text) {
      var d: Bytes := DigestOf(text);
      assert Names(text, d);
    }
    forall d: Bytes | Names(text, d) ensures IsDigestText(text) {
      forall i | 0 <= i < 64 ensures HexDigit(text[i]) >= 0 {
        assert HexDigit(text[2 * (i / 2)]) >= 0 && HexDigit(text[2 * (i / 2) + 1]) >= 0;
      }
    }
  }

  function DigestOf(text: string): (d: Bytes)
    requires IsDigestText(text)
    ensures Names(text, d)
  {
    seq(32, i requires 0 <= i < 32 => 16 * HexDigit(text[2 * i]) + HexDigit(text[2 * i + 1]))
  }

  function LowerHex(v: int): (c: char)
    requires 0 <= v < 16
    ensures HexDigit(c) == v && c != '\0'
  {
    if v < 10 then '0' + v as char else 'a' + (v - 10) as char
  }

  /** The session id printed from the random bytes. */
  function Printed(random: Bytes): (s: string)
    ensures |s| == 2 * |random|
  {
    if random == [] then [] else [LowerHex(random[0] / 16), LowerHex(random[0] % 16)] + Printed(random[1..])
  }

  /** Reading the printed id as hexadecimal gives the random bytes back, so distinct draws give distinct ids. */
  lemma {:induction false} PrintedReadsBack(random: Bytes, i: nat)
    requires i < |random|
    ensures random[i] == 16 * HexDigit(Printed(random)[2 * i]) + HexDigit(Printed(random)[2 * i + 1])
  {
    if i > 0 { PrintedReadsBack(random[1..], i - 1); }
  }

  lemma IdsAreDistinct(a: Bytes, b: Bytes)
    requires |a| == |b| && Printed(a) == Printed(b)
    ensures a == b
  {
    forall i | 0 <= i < |a| ensures a[i] == b[i] {
      PrintedReadsBack(a, i);
      PrintedReadsBack(b, i);
    }
  }

  // ---- the session and the hardware behind it

  /** One request to boot from the written slot. */
  datatype Selection = Selection(image: Bytes, total: nat, expected: Bytes)

  datatype Upload = Upload(
    active: bool, ready: bool, open: bool, received: nat, total: nat, id: string, expected: Bytes, activityMs: nat,
    partitionSize: nat, hashed: Bytes, slot: Bytes, handles: int, selections: seq<Selection>)

  /** The wiped id and digest, 32 zeros each. */
  function Wiped<T>(zero: T, n: nat): (s: seq<T>) ensures |s| == n
  {
    if n == 0 then [] else [zero] + Wiped(zero, n - 1)
  }

  const NO_ID: string := Wiped('\0', 32)
  const NO_DIGEST: Bytes := Wiped(0, 32)
  const INITIAL := Upload(false, false, false, 0, 0, NO_ID, NO_DIGEST, 0, 0, [], [], 0, [])

  type Digest = Bytes -> Bytes

  datatype Outcome = Outcome(u: Upload, ok: bool)

  function Released(u: Upload): Upload
  {
    u.(handles := if u.open then u.handles - 1 else u.handles, open := false, active := false, hashed := [],
       id := NO_ID, expected := NO_DIGEST)
  }

  predicate Matches(u: Upload, id: string) { u.active && |id| == 32 && id == u.id }

  /** Sixteen random bytes. */
  type Draw = b: Bytes | |b| == 16 witness Wiped(0, 16)

  /** What the platform answers while an upload starts. */
  datatype StartEnv = StartEnv(available: bool, capacity: nat, random: Draw, now: nat, hashReady: bool)

  predicate MayStart(u: Upload, size: nat, text: string, env: StartEnv)
  {
    && !u.active && !u.ready && env.available && PREFIX + DESCRIPTOR <= size <= env.capacity
    && IsDigestText(text)
  }

  function Start(u: Upload, size: nat, text: string, env: StartEnv): Outcome
  {
    if !MayStart(u, size, text, env) then Outcome(u, false)
    else if env.hashReady then Outcome(Opened(u, size, text, env), true)
    else Outcome(Released(Opened(u, size, text, env)), false)
  }

  function Opened(u: Upload, size: nat, text: string, env: StartEnv): Upload
    requires IsDigestText(text)
  {
    Upload(true, false, false, 0, size, Printed(env.random), DigestOf(text), env.now, env.capacity, [],
           u.slot, u.handles, u.selections)
  }

  /** What the platform answers to a chunk; `landed` is how much of a failed write reached the slot. */
  datatype WriteEnv = WriteEnv(imageOk: bool, beginOk: bool, writeOk: bool, landed: nat, hashOk: bool, now: nat)

  /** What is still to come, in `size_t` arithmetic. */
  function Left(total: nat, received: nat): (n: nat)
    ensures received <= total ==> n <= total - received
  {
    (total - received) % (SIZE_MAX + 1)
  }

  predicate MayWrite(u: Upload, id: string, offset: nat, bytes: Bytes)
  {
    && Matches(u, id) && offset == u.received && bytes != [] && |bytes| <= CHUNK && |bytes| <= Left(u.total, u.received)
    && (u.open || |bytes| >= PREFIX + DESCRIPTOR)
  }

  function Write(u: Upload, id: string, offset: nat, bytes: Bytes, env: WriteEnv): Outcome
  {
    if !MayWrite(u, id, offset, bytes) then Outcome(u, false)
    else if !u.open && !(env.imageOk && env.beginOk) then Outcome(Released(u), false)
    else
      var v := if u.open then u else u.(open := true, handles := u.handles + 1, slot := []);
      if !env.writeOk then Outcome(Released(v.(slot := v.slot + bytes[..Min(env.landed, |bytes|)])), false)
      else
        var w := v.(slot := v.slot + bytes);
        if !env.hashOk then Outcome(Released(w), false)
        else Outcome(w.(hashed := w.hashed + bytes, received := w.received + |bytes|, activityMs := env.now), true)
  }

  datatype FinishEnv = FinishEnv(hashOk: bool, endOk: bool, selectOk: bool)

  predicate MayFinish(u: Upload, id: string) { Matches(u, id) && u.open && u.received == u.total }

  function Finish(sha: Digest, u: Upload, id: string, env: FinishEnv): Outcome
  {
    if !MayFinish(u, id) then Outcome(u, false)
    else if !env.hashOk || |sha(u.hashed)| != 32 || sha(u.hashed) != u.expected then Outcome(Released(u), false)
    else
      var v := u.(open := false, handles := u.handles - 1);
      if !env.endOk then Outcome(Released(v), false)
      else
        var w := Released(v.(selections := v.selections + [Selection(v.slot, v.total, v.expected)]));
        if env.selectOk then Outcome(w.(ready := true), true) else Outcome(w, false)
  }

  function Abort(u: Upload, id: string): Outcome
  {
    if Matches(u, id) then Outcome(Released(u), true) else Outcome(u, false)
  }

  predicate Expired(u: Upload, now: nat) { u.active && (now - u.activityMs) % U64 > IDLE_MS }

  function Tick(u: Upload, now: nat): Upload { if Expired(u, now) then Released(u) else u }

  // ---- runs

  datatype Op =
    | OpStart(size: nat, text: string, start: StartEnv)
    | OpWrite(id: string, offset: nat, bytes: Bytes, write: WriteEnv)
    | OpFinish(id: string, finish: FinishEnv)
    | OpAbort(id: string)
    | OpTick(now: nat)

  function Apply(sha: Digest, u: Upload, op: Op): Outcome
  {
    match op
    case OpStart(size, text, env) => Start(u, size, text, env)
    case OpWrite(id, offset, bytes, env) => Write(u, id, offset, bytes, env)
    case OpFinish(id, env) => Finish(sha, u, id, env)
    case OpAbort(id) => Abort(u, id)
    case OpTick(now) => Outcome(Tick(u, now), true)
  }

  function After(sha: Digest, ops: seq<Op>): Upload
  {
    if ops == [] then INITIAL else Apply(sha, After(sha, ops[..|ops| - 1]), ops[|ops| - 1]).u
  }

  /** What the client did: the size and digest text of the last accepted start, and the chunks accepted since. */
  datatype History = History(size: nat, text: string, chunks: seq<Bytes>)

  function Note(h: History, op: Op, ok: bool): History
  {
    if !ok then h
    else match op
      case OpStart(size, text, _) => History(size, text, [])
      case OpWrite(_, _, bytes, _) => h.(chunks := h.chunks + [bytes])
      case _ => h
  }

  function Recall(sha: Digest, ops: seq<Op>): History
  {
    if ops == [] then History(0, [], [])
    else
      var front, op := ops[..|ops| - 1], ops[|ops| - 1];
      Note(Recall(sha, front), op, Apply(sha, After(sha, front), op).ok)
  }

  function Flat(chunks: seq<Bytes>): Bytes
  {
    if chunks == [] then [] else Flat(chunks[..|chunks| - 1]) + chunks[|chunks| - 1]
  }

  lemma FlatMore(chunks: seq<Bytes>, bytes: Bytes)
    ensures Flat(chunks + [bytes]) == Flat(chunks) + bytes
  {
    assert (chunks + [bytes])[..|chunks|] == chunks;
  }

  /** A running session has written, hashed and counted exactly the accepted chunks. */
  ghost predicate Tracks(u: Upload, h: History)
  {
    && u.hashed == Flat(h.chunks)
    && |u.hashed| == u.received <= u.total == h.size <= u.partitionSize
    && (u.open ==> u.slot == u.hashed)
    && (!u.open ==> u.hashed == [])
    && Names(h.text, u.expected)
  }

  /** The image is the whole upload, and its digest is the one the client gave. */
  ghost predicate Verified(sha: Digest, image: Bytes, h: History)
  {
    image == Flat(h.chunks) && |image| == h.size && Names(h.text, sha(image))
  }

  ghost predicate Safe(sha: Digest, u: Upload, h: History)
  {
    && u.handles == (if u.open then 1 else 0)
    && (u.open ==> u.active)
    && (u.active ==> !u.ready && |u.id| == 32 && Tracks(u, h))
    && (u.ready ==> Verified(sha, u.slot, h))
    && (u.ready ==> u.selections != [] && u.selections[|u.selections| - 1].image == u.slot)
    && forall i :: 0 <= i < |u.selections| ==> Sound(sha, u.selections[i])
  }

  predicate Sound(sha: Digest, s: Selection) { |s.image| == s.total && sha(s.image) == s.expected }

  lemma StartSafe(sha: Digest, u: Upload, h: History, op: Op)
    requires Safe(sha, u, h) && op.OpStart?
    ensures Safe(sha, Apply(sha, u, op).u, Note(h, op, Apply(sha, u, op).ok))
  {
    hide Names, Sound;
  }

  lemma WriteSafe(sha: Digest, u: Upload, h: History, op: Op)
    requires Safe(sha, u, h) && op.OpWrite?
    ensures Safe(sha, Apply(sha, u, op).u, Note(h, op, Apply(sha, u, op).ok))
    ensures Apply(sha, u, op).ok ==> op.offset == |Flat(h.chunks)|
  {
    hide Names, Sound, Flat;
    FlatMore(h.chunks, op.bytes);
  }

  lemma FinishSafe(sha: Digest, u: Upload, h: History, op: Op)
    requires Safe(sha, u, h) && op.OpFinish?
    ensures Safe(sha, Apply(sha, u, op).u, Note(h, op, Apply(sha, u, op).ok))
    ensures Apply(sha, u, op).u.selections != u.selections ==> Verified(sha, u.slot, h)
    ensures Apply(sha, u, op).u.selections != u.selections ==>
              Apply(sha, u, op).u.selections == u.selections + [Selection(Flat(h.chunks), h.size, sha(Flat(h.chunks)))]
  {
    hide Names, Flat;
  }

  lemma StepSafe(sha: Digest, u: Upload, h: History, op: Op)
    requires Safe(sha, u, h)
    ensures Safe(sha, Apply(sha, u, op).u, Note(h, op, Apply(sha, u, op).ok))
  {
    hide Names, Sound, Flat, Start, Write, Finish;
    match op
    case OpStart(_, _, _) => StartSafe(sha, u, h, op);
    case OpWrite(_, _, _, _) => WriteSafe(sha, u, h, op);
    case OpFinish(_, _) => FinishSafe(sha, u, h, op);
    case _ =>
  }

  /** Every run keeps the bookkeeping, and everything ever selected or made ready was verified. */
  lemma {:induction false} EveryRunIsSafe(sha: Digest, ops: seq<Op>)
    ensures Safe(sha, After(sha, ops), Recall(sha, ops))
  {
    hide Safe, Apply;
    if ops == [] {
      InitiallySafe(sha);
    } else {
      var front := ops[..|ops| - 1];
      EveryRunIsSafe(sha, front);
      StepSafe(sha, After(sha, front), Recall(sha, front), ops[|ops| - 1]);
    }
  }

  lemma InitiallySafe(sha: Digest)
    ensures Safe(sha, INITIAL, History(0, [], []))
  {
  }

  lemma OnlyFinishSelects(sha: Digest, u: Upload, op: Op)
    requires !op.OpFinish?
    ensures Apply(sha, u, op).u.selections == u.selections
  {
    hide Left, IsDigestText, DigestOf, Printed;
  }

  /**
   * Over a whole run, only a finish selects, and only the complete image whose digest is the one given at the start.
   */
  lemma OnlyVerifiedImagesAreSelected(sha: Digest, ops: seq<Op>, op: Op)
    requires Apply(sha, After(sha, ops), op).u.selections != After(sha, ops).selections
    ensures op.OpFinish? && Verified(sha, After(sha, ops).slot, Recall(sha, ops))
  {
    hide After, Recall, Verified, Safe, Apply;
    EveryRunIsSafe(sha, ops);
    if op.OpFinish? {
      FinishSafe(sha, After(sha, ops), Recall(sha, ops), op);
    } else {
      OnlyFinishSelects(sha, After(sha, ops), op);
    }
  }

  /** Once an image is ready, nothing but a restart changes anything. */
  lemma ReadyIsFinal(sha: Digest, u: Upload, h: History, op: Op)
    requires Safe(sha, u, h) && u.ready
    ensures Apply(sha, u, op).u == u
  {
  }

  // ---- which failures release the session

  /** The request passed every check made before the hardware is touched. */
  predicate Committed(u: Upload, op: Op)
  {
    match op
    case OpStart(size, text, env) => MayStart(u, size, text, env)
    case OpWrite(id, offset, bytes, _) => MayWrite(u, id, offset, bytes)
    case OpFinish(id, _) => MayFinish(u, id)
    case OpAbort(id) => Matches(u, id)
    case OpTick(now) => Expired(u, now)
  }

  /**
   * A failed request ends the session, so that no id matches any more, exactly when it was committed;
   * every other failure changes nothing at all.
   */
  lemma FailureReleasesExactlyWhenCommitted(sha: Digest, u: Upload, op: Op)
    requires !Apply(sha, u, op).ok
    ensures Committed(u, op) ==> forall id :: !Matches(Apply(sha, u, op).u, id)
    ensures !Committed(u, op) ==> Apply(sha, u, op).u == u
    ensures u.active ==> (!Apply(sha, u, op).u.active <==> Committed(u, op))
  {
    hide IsDigestText, DigestOf, Printed;
  }

  /** A successful abort and an expiry always release; nothing else but a finish does. */
  lemma SuccessReleases(sha: Digest, u: Upload, op: Op)
    requires u.active && Apply(sha, u, op).ok
    ensures !Apply(sha, u, op).u.active <==>
              op.OpAbort? || op.OpFinish? || (op.OpTick? && Expired(u, op.now))
  {
    hide IsDigestText, DigestOf, Printed;
  }

  /** A chunk at the wrong offset is refused and the session lives on under the same id. */
  lemma AFailureThatDoesNotRelease(sha: Digest, u: Upload, bytes: Bytes, env: WriteEnv)
    requires u.active && |u.id| == 32
    ensures var r := Apply(sha, u, OpWrite(u.id, u.received + 1, bytes, env)); !r.ok && Matches(r.u, u.id)
  {
  }

  // ---- the upload record

  /** Digit pairs into digest bytes; None at the first character that is no digit. */
  method ReadDigest(text: string) returns (digest: Option<Bytes>)
    requires |text| == 64
    ensures digest.Some? <==> IsDigestText(text)
    ensures digest.Some? ==> digest.value == DigestOf(text)
  {
    var out: Bytes := [];
    for i := 0 to 32
      invariant |out| == i
      invariant forall k :: 0 <= k < 2 * i ==> HexDigit(text[k]) >= 0
      invariant forall k :: 0 <= k < i ==> out[k] == 16 * HexDigit(text[2 * k]) + HexDigit(text[2 * k + 1])
    {
      var a, b := HexDigit(text[2 * i]), HexDigit(text[2 * i + 1]);
      if a < 0 || b < 0 { return None; }
      out := out + [16 * a + b];
    }
    assert out == DigestOf(text);
    return Some(out);
  }

  lemma PrintedMore(random: Bytes, i: nat)
    requires i < |random|
    ensures Printed(random[..i + 1]) == Printed(random[..i]) + [LowerHex(random[i] / 16), LowerHex(random[i] % 16)]
    decreases i
  {
    if i == 0 {
      assert random[..1] == [random[0]] && random[..0] == [] && [random[0]][1..] == [];
      assert Printed([]) == [];
    } else {
      PrintedMore(random[1..], i - 1);
      assert random[..i + 1][1..] == random[1..][..i] && random[..i][1..] == random[1..][..i - 1];
    }
  }

  method PrintId(random: Bytes) returns (id: string)
    ensures id == Printed(random)
  {
    id := "";
    for i := 0 to |random|
      invariant id == Printed(random[..i])
    {
      PrintedMore(random, i);
      id := id + [LowerHex(random[i] / 16), LowerHex(random[i] % 16)];
    }
    assert random[..|random|] == random;
  }

  datatype Status = Status(active: bool, ready: bool, received: nat, total: nat)

  /** The platform: the digest in progress, the inactive slot, open handles and boot selections. */
  datatype Device = Device(hashed: Bytes, slot: Bytes, handles: int, selections: seq<Selection>)

  class UploadRecord {
    const Sha: Digest
    var status: Status
    var isOpen: bool
    var id: string
    var expected: Bytes
    var activityMs: nat
    var partitionSize: nat
    var device: Device

    ghost function Value(): Upload
      reads this
    {
      Upload(status.active, status.ready, isOpen, status.received, status.total, id, expected, activityMs,
             partitionSize, device.hashed, device.slot, device.handles, device.selections)
    }

    constructor (sha: Digest)
      ensures Value() == INITIAL && Sha == sha
    {
      Sha := sha;
      status, isOpen, id, expected := Status(false, false, 0, 0), false, NO_ID, NO_DIGEST;
      activityMs, partitionSize, device := 0, 0, Device([], [], 0, []);
    }

    method Release()
      modifies this
      ensures Value() == Released(old(Value()))
    {
      hide Wiped;
      if isOpen { device := device.(handles := device.handles - 1); }
      isOpen := false;
      status := status.(active := false);
      device := device.(hashed := []);
      id := NO_ID;
      expected := NO_DIGEST;
    }

    method StartUpload(size: nat, text: string, env: StartEnv) returns (ok: bool)
      modifies this
      ensures Outcome(Value(), ok) == Start(old(Value()), size, text, env)
    {
      hide Printed, DigestOf, IsDigestText, Names, Wiped, HexDigit, LowerHex, Opened;
      if status.active || status.ready { return false; }
      if !env.available { return false; }
      if size < PREFIX + DESCRIPTOR || size > env.capacity { return false; }
      if |text| != 64 { NotDigestText(text); return false; }
      var digest := ReadDigest(text);
      if digest.None? { return false; }
      Reopen(size, text, digest.value, env);
      if !env.hashReady { Release(); return false; }
      return true;
    }

    method Reopen(size: nat, text: string, digest: Bytes, env: StartEnv)
      requires IsDigestText(text) && digest == DigestOf(text)
      modifies this
      ensures Value() == Opened(old(Value()), size, text, env)
    {
      hide Printed, DigestOf, IsDigestText, Names, HexDigit, LowerHex, Wiped;
      var name := PrintId(env.random);
      status, isOpen := Status(true, false, 0, size), false;
      partitionSize, expected, id, activityMs := env.capacity, digest, name, env.now;
      device := device.(hashed := []);
    }

    method WriteChunk(session: string, offset: nat, bytes: Bytes, env: WriteEnv) returns (ok: bool)
      modifies this
      ensures Outcome(Value(), ok) == Write(old(Value()), session, offset, bytes, env)
    {
      hide Left, Wiped;
      if !(status.active && |session| == 32 && session == id) { return false; }
      if offset != status.received || |bytes| == 0 || |bytes| > CHUNK || |bytes| > Left(status.total, status.received) {
        return false;
      }
      if !isOpen {
        if |bytes| < PREFIX + DESCRIPTOR { return false; }
        if !env.imageOk { Release(); return false; }
        if !env.beginOk { Release(); return false; }
        device := device.(handles := device.handles + 1, slot := []);
        isOpen := true;
      }
      if !env.writeOk {
        device := device.(slot := device.slot + bytes[..Min(env.landed, |bytes|)]);
        Release();
        return false;
      }
      device := device.(slot := device.slot + bytes);
      if !env.hashOk { Release(); return false; }
      device := device.(hashed := device.hashed + bytes);
      status := status.(received := status.received + |bytes|);
      activityMs := env.now;
      return true;
    }

    method FinishUpload(session: string, env: FinishEnv) returns (ok: bool)
      modifies this
      ensures Outcome(Value(), ok) == Finish(Sha, old(Value()), session, env)
    {
      if !(status.active && |session| == 32 && session == id) || !isOpen || status.received != status.total {
        return false;
      }
      var actual := Sha(device.hashed);
      if !env.hashOk || |actual| != 32 || actual != expected { Release(); return false; }
      device := device.(handles := device.handles - 1);
      isOpen := false;
      if !env.endOk { Release(); return false; }
      device := device.(selections := device.selections + [Selection(device.slot, status.total, expected)]);
      Release();
      if !env.selectOk { return false; }
      status := status.(ready := true);
      return true;
    }

    method AbortUpload(session: string) returns (ok: bool)
      modifies this
      ensures Outcome(Value(), ok) == Abort(old(Value()), session)
    {
      if !(status.active && |session| == 32 && session == id) { return false; }
      Release();
      return true;
    }

    method TickAt(now: nat)
      modifies this
      ensures Value() == Tick(old(Value()), now)
    {
      if status.active && (now - activityMs) % U64 > IDLE_MS { Release(); }
    }
  }

  lemma NotDigestText(text: string)
    requires |text| != 64
    ensures !IsDigestText(text)
  {
  }
}
