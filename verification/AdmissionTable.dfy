/** The admission layer as the session object runs it, tied step by step to the specification. */
module AdmissionTable {
  import opened Core
  import opened Admission
  import HeaderCodec

  class H2Session {
    const streams: array<Slot>
    const serialized: array<Byte>
    const appLimit: nat
    var activeStreams: int
    var rejectedStreams: nat
    var headers: seq<Header>
    var headerUsed: int
    var headerStream: int
    var error: Code
    var nowMs: nat
    var peer: Peer
    var halted: bool  // a callback has returned failure
    ghost var last: int
    ghost var log: seq<Event>

    ghost predicate Valid()
      reads this
    {
      streams.Length == SLOTS && serialized.Length == HeaderCodec.WIRE_MAX
    }

    ghost function Value(): Session
      reads this, streams
    {
      Session(appLimit, streams[..], activeStreams, rejectedStreams, headers, headerUsed, headerStream, error, nowMs,
              peer, halted, last, log)
    }

    constructor (limit: nat)
      ensures Valid() && fresh(streams) && fresh(serialized) && Value() == Fresh(limit)
    {
      streams := new Slot[SLOTS](_ => FREE);
      serialized := new Byte[HeaderCodec.WIRE_MAX];
      appLimit := limit;
      activeStreams, rejectedStreams, headers, headerUsed, headerStream := 0, 0, [], 0, 0;
      error, nowMs, peer, halted, last, log := Ok, 0, QUIET, false, 0, [];
      new;
      assert streams[..] == [FREE, FREE, FREE, FREE, FREE, FREE];
    }

    /** The index of the stream's slot, or the number of slots. */
    method FindStream(id: int) returns (i: nat)
      requires Valid()
      ensures i <= SLOTS
      ensures Find(streams[..], id) == if i < SLOTS then Some(i) else None
    {
      i := 0;
      while i < SLOTS
        invariant i <= SLOTS
        invariant Find(streams[..], id) == FindFrom(streams[..], id, i)
      {
        if streams[i].id == id { return; }
        i := i + 1;
      }
    }

    method ResetStream(id: int, submitOk: bool) returns (code: Code)
      requires Valid()
      modifies this, streams
      ensures Valid() && Done(Value(), code) == Reset(old(Value()), id, submitOk)
    {
      hide Find;
      var i := FindStream(id);
      if i < SLOTS && streams[i].reset { return Ok; }
      if !Submits(id, submitOk) {
        error := ErrMemory;
        return error;
      }
      if i < SLOTS { streams[i] := streams[i].(reset := true); }
      rejectedStreams := Next32(rejectedStreams);
      return Ok;
    }

    method RefuseStream(id: int, submitOk: bool)
      requires Valid()
      modifies this, streams
      ensures Valid() && Value() == Refuse(old(Value()), id, submitOk)
    {
      hide Reset;
      var code := ResetStream(id, submitOk);
      if code != Ok { halted := true; }
    }

    /** Serializes the headers and looks for a second content length. */
    method CheckFields(fields: seq<HeaderCodec.Header>) returns (code: Code)
      requires Valid()
      modifies serialized
      ensures code == FieldsCode(fields)
    {
      hide HeaderCodec.EncodeCode, HeaderCodec.Wire;
      var n;
      code, n := HeaderCodec.Encode(fields, serialized);
      if code != Ok { return; }
      var found := false;
      for i := 0 to |fields|
        invariant LengthFields(fields[..i]) == if found then 1 else 0
      {
        assert fields[..i + 1][..i] == fields[..i];
        if fields[i].name == LENGTH_NAMES[0] || fields[i].name == LENGTH_NAMES[1] {
          if found {
            MoreLengths(fields, i + 1);
            return ErrFormat;
          }
          found := true;
        }
      }
      assert fields[..|fields|] == fields;
    }

    method RespondTo(id: int, status: nat, fields: seq<HeaderCodec.Header>, submitOk: bool) returns (code: Code)
      requires Valid()
      modifies this, streams, serialized
      ensures Valid() && Done(Value(), code) == Respond(old(Value()), id, status, fields, submitOk)
    {
      hide Find, FieldsCode;
      if status < 200 || status > 599 { return ErrArgument; }
      var i := FindStream(id);
      if i == SLOTS || !streams[i].done || streams[i].response || streams[i].reset { return ErrState; }
      code := CheckFields(fields);
      if code != Ok { return; }
      if !submitOk { return ErrMemory; }
      log := log + [Event(streams[i].id, Responded)];
      streams[i] := streams[i].(response := true);
      return Ok;
    }

    /** What the application does while one of its callbacks runs. */
    method RunCalls(calls: seq<Call>)
      requires Valid()
      modifies this, streams, serialized
      ensures Valid() && Value() == MakeAll(old(Value()), calls)
    {
      hide Reset, Respond;
      for n := 0 to |calls|
        invariant Valid() && Value() == MakeAll(old(Value()), calls[..n])
      {
        assert calls[..n + 1][..n] == calls[..n];
        match calls[n]
        case CallReset(id, ok) => var _ := ResetStream(id, ok);
        case CallRespond(id, status, fields, ok) => var _ := RespondTo(id, status, fields, ok);
      }
      assert calls[..|calls|] == calls;
    }

    method OnBeginHeaders(id: int, request: bool, submitOk: bool)
      requires Valid()
      modifies this, streams
      ensures Valid() && Value() == BeginHeaders(old(Value()), id, request, submitOk)
    {
      hide Find, Refuse, Occupy;
      headerStream := 0;
      last := if request then id else last;
      if !request {
        RefuseStream(id, submitOk);
        return;
      }
      var i := FindStream(0);
      if i == SLOTS {
        RefuseStream(id, submitOk);
        return;
      }
      TakeSlot(i, id);
    }

    method TakeSlot(i: nat, id: int)
      requires Valid() && i < SLOTS
      modifies this, streams
      ensures Valid() && Value() == Occupy(old(Value()), i, id)
    {
      streams[i] := Slot(id, Http, false, false, false, nowMs);
      activeStreams := activeStreams + 1;
      headerStream := id;
      headers, headerUsed := [], 0;
      log := log + [Event(id, Opened)];
    }

    method IsStored(name: string) returns (found: bool)
      ensures found == HasName(headers, name)
    {
      for i := 0 to |headers|
        invariant forall j :: 0 <= j < i ==> headers[j].name != name
      {
        if headers[i].name == name { return true; }
      }
      return false;
    }

    method OnHeaderField(id: int, name: string, value: string, submitOk: bool)
      requires Valid()
      modifies this, streams
      ensures Valid() && Value() == OnHeader(old(Value()), id, name, value, submitOk)
    {
      hide Refuse, HasName;
      if headerStream != id { return; }
      var reject := |headers| == HEADER_MAX || |name| > HEADER_BYTES - headerUsed
          || |value| > HEADER_BYTES - headerUsed - |name|;
      if !reject && Decides(name) { reject := IsStored(name); }
      if reject {
        headerStream := 0;
        RefuseStream(id, submitOk);
        return;
      }
      headers := headers + [Header(name, value)];
      headerUsed := headerUsed + |name| + |value|;
    }

    method HeaderValue(name: string) returns (value: string)
      ensures value == Lookup(headers, name)
    {
      for i := 0 to |headers|
        invariant Lookup(headers, name) == Lookup(headers[i..], name)
      {
        assert headers[i..][1..] == headers[i + 1..];
        if headers[i].name == name { return headers[i].value; }
      }
      return [];
    }

    method CountAdmitted(kind: Kind) returns (n: nat)
      requires Valid()
      ensures n == Count(streams[..], Admitted(kind))
    {
      n := 0;
      for i := 0 to SLOTS
        invariant n == Count(streams[..i], Admitted(kind))
      {
        assert streams[..i + 1][..i] == streams[..i];
        if streams[i].id != 0 && streams[i].done && !streams[i].reset && streams[i].kind == kind { n := n + 1; }
      }
      assert streams[..SLOTS] == streams[..];
    }

    method OnFrame(id: int, t: FrameType, end: bool, env: Weather)
      requires Valid()
      modifies this, streams, serialized
      ensures Valid() && Value() == ReceivedFrame(old(Value()), id, t, end, env)
    {
      hide OnStream, Noted;
      peer := Noted(peer, t);
      OnStreamFrame(id, t, end, env);
    }

    method OnStreamFrame(id: int, t: FrameType, end: bool, env: Weather)
      requires Valid()
      modifies this, streams, serialized
      ensures Valid() && Value() == OnStream(old(Value()), id, t, end, env)
    {
      hide Find, Refuse, MakeAll, Lookup, Count, Ending, Limit, Blanks;
      var i := FindStream(id);
      if i == SLOTS || streams[i].reset { return; }
      if t == HeadersFrame && headerStream == id {
        var upgrade := HeaderValue(UPGRADE);
        var kind := Http;
        if upgrade == "control-stream" {
          kind := Control;
        } else if upgrade == "update-configuration" {
          kind := Config;
        } else if |upgrade| > 0 {
          RefuseStream(id, env.refuseOk);
          return;
        }
        assert KindOf(old(headers)) == Some(kind);
        var passed := Hand(i, kind, env);
        if !passed { return; }
      }
      EndStream(id, t, end, env);
    }

    /** Admits the stream in slot i if its kind has room, and hands it to the application. */
    method Hand(i: nat, kind: Kind, env: Weather) returns (passed: bool)
      requires Valid() && i < SLOTS
      modifies this, streams, serialized
      ensures Valid()
      ensures var v := WithKind(old(Value()), i, kind);
              var id := v.slots[i].id;
              var u := MakeAll(Admit(v, i), env.request.calls);
              if Count(v.slots, Admitted(kind)) >= Limit(appLimit, kind) then !passed
                  && Value() == Refuse(v, id, env.refuseOk)
              else passed == env.request.ok && Value() == if passed then Wiped(u) else Refuse(u, id, env.refuseOk)
    {
      hide Refuse, MakeAll, Count, Limit, Blanks;
      var id := streams[i].id;
      streams[i] := streams[i].(kind := kind);
      assert Value() == WithKind(old(Value()), i, kind);
      var count := CountAdmitted(kind);
      if count >= Limit(appLimit, kind) {
        RefuseStream(id, env.refuseOk);
        return false;
      }
      log := log + [Event(id, Requested)];
      streams[i] := streams[i].(done := true);
      assert Value() == Admit(WithKind(old(Value()), i, kind), i);
      RunCalls(env.request.calls);
      if !env.request.ok {
        RefuseStream(id, env.refuseOk);
        return false;
      }
      headers := Blanks(headers);
      headerStream := 0;
      return true;
    }

    method EndStream(id: int, t: FrameType, end: bool, env: Weather)
      requires Valid()
      modifies this, streams, serialized
      ensures Valid() && Value() == Ending(old(Value()), id, t, end, env)
    {
      hide Refuse, MakeAll;
      if (t.HeadersFrame? || t.DataFrame?) && end {
        RunCalls(env.data.calls);
        if !env.data.ok { RefuseStream(id, env.cancelOk); }
      }
    }

    /** The payload goes to the application in pieces of at most CHUNK bytes, `answers` holding its reply to each. */
    method DeliverPieces(id: int, len: nat, answers: seq<Answer>, cancelOk: bool)
      requires Valid() && |answers| == Pieces(len)
      modifies this, streams, serialized
      ensures Valid() && Value() == Deliver(old(Value()), id, answers, cancelOk)
    {
      hide Refuse, MakeAll;
      var offset := 0;
      ghost var k := 0;
      while offset < len
        invariant Valid() && offset <= len && k <= |answers| && k == Pieces(offset)
            && (offset < len ==> offset == k * CHUNK)
        invariant Deliver(old(Value()), id, answers, cancelOk) == Deliver(Value(), id, answers[k..], cancelOk)
      {
        var n := len - offset;
        if n > CHUNK { n := CHUNK; }
        var answer := answers[offset / CHUNK];
        assert answers[k..][0] == answer && answers[k..][1..] == answers[k + 1..];
        RunCalls(answer.calls);
        if !answer.ok {
          RefuseStream(id, cancelOk);
          return;
        }
        offset := offset + n;
        k := k + 1;
      }
      assert answers[k..] == [];
    }

    method OnData(id: int, len: nat, answers: seq<Answer>, cancelOk: bool, consumeOk: bool)
      requires Valid() && |answers| == Pieces(len) && !halted
      modifies this, streams, serialized
      ensures Valid() && Value() == ReceivedData(old(Value()), id, answers, cancelOk, consumeOk)
    {
      hide Find, Deliver, Pieces;
      var i := FindStream(id);
      if i == SLOTS || streams[i].reset {
        halted := !consumeOk;
        return;
      }
      DeliverPieces(id, len, answers, cancelOk);
      if halted { return; }
      streams[i] := streams[i].(progress := nowMs);
      halted := !consumeOk;
    }

    method OnClosed(id: int, calls: seq<Call>)
      requires Valid()
      modifies this, streams, serialized
      ensures Valid() && Value() == ClosedStream(old(Value()), id, calls)
    {
      hide Find, MakeAll;
      var i := FindStream(id);
      if i < SLOTS {
        RunCalls(calls);
        log := log + [Event(streams[i].id, Closed)];
        streams[i] := FREE;
        activeStreams := activeStreams - 1;
      }
    }

    method TickAt(now: nat, submits: nat -> bool)
      requires Valid()
      modifies this, streams
      ensures Valid() && Value() == Tick(old(Value()), now, submits)
    {
      hide Reset;
      nowMs := now;
      for i := 0 to SLOTS
        invariant Valid() && nowMs == now
        invariant Tick(old(Value()), now, submits) == TickFrom(Value(), i, submits)
      {
        ghost var before := Value();
        var s := streams[i];
        if s.id != 0 && !s.reset && (!s.done || s.kind != Control) && now >= s.progress && now - s.progress > IDLE_MS {
          var _ := ResetStream(s.id, submits(i));
          ResetKeepsClock(before, s.id, submits(i));
        }
      }
    }

    /** Reports every stream that is still open as closed. */
    method Finish()
      requires Valid()
      modifies this
      ensures log == Destroy(old(Value())) && streams[..] == old(streams[..])
    {
      for i := 0 to SLOTS
        invariant Valid() && log == old(log) + Farewells(streams[..i]) && streams[..] == old(streams[..])
      {
        assert streams[..i + 1][..i] == streams[..i];
        if streams[i].id != 0 { log := log + [Event(streams[i].id, Closed)]; }
      }
      assert streams[..SLOTS] == streams[..];
    }
  }

  lemma ResetKeepsClock(w: Session, id: int, submitOk: bool)
    ensures Reset(w, id, submitOk).w.now == w.now
  {
  }

  lemma {:induction false} MoreLengths(fields: seq<HeaderCodec.Header>, i: nat)
    requires i <= |fields|
    ensures LengthFields(fields[..i]) <= LengthFields(fields)
    decreases |fields| - i
  {
    if i == |fields| {
      assert fields[..i] == fields;
    } else {
      MoreLengths(fields, i + 1);
      assert fields[..i + 1][..i] == fields[..i];
    }
  }
}
