/** The RPC client object: decoders over the pointer reader, writers over the builder. */
module RpcClient {
  import opened Core
  import opened CapnpReader
  import opened RpcMessages
  import opened RpcWriter
  import opened Rpc

  /** The messages of a step may be framed. */
  lemma Writable(c: Client, d: Done)
    requires Typed(c) && AllWellTyped(d.sent)
    ensures d.sent == [] ==> Frames(d.sent) == []
    ensures |d.sent| == 1 ==> Frames(d.sent) == Frame(d.sent[0])
    ensures |d.sent| == 2 ==> Frames(d.sent) == Frame(d.sent[0]) + Frame(d.sent[1])
  {
    hide Frame, WellTyped;
    if |d.sent| == 1 {
      OneFrame(d.sent[0]);
      assert d.sent == [d.sent[0]];
    } else if |d.sent| == 2 {
      OneFrame(d.sent[0]);
      assert d.sent[..1] == [d.sent[0]];
    }
  }

  lemma OneFrame(m: Msg)
    requires WellTyped(m)
    ensures Frames([m]) == Frame(m)
  {
    hide Frame, WellTyped;
    assert [m][..0] == [] && Frames([m][..0]) == [];
    assert [] + Frame(m) == Frame(m);
  }

  /** The client has done d, and the first n bytes of the buffer are its messages. */
  ghost predicate Wrote(d: Done, c: Client, rc: Code, out: Bytes, n: nat)
  {
    c == d.c && rc == d.code && AllWellTyped(d.sent) && n <= |out| && out[..n] == Frames(d.sent)
  }

  class RpcConnection {
    var state: State
    var capability: nat
    var haveCapability: bool
    var remotelyManaged: bool
    var shouldRetry: bool
    var retryAfterMs: nat
    var connectionId: Bytes
    var location: Bytes
    var error: Code

    ghost function Value(): Client
      reads this
    {
      Client(state, capability, haveCapability, remotelyManaged, shouldRetry, retryAfterMs, connectionId, location,
          error)
    }

    constructor ()
      ensures Value() == FRESH
    {
      state, capability, haveCapability, remotelyManaged, shouldRetry := Idle, 0, false, false, false;
      retryAfterMs, connectionId, location, error := 0, FRESH.connectionId, [], Ok;
    }

    method BeginRpc(out: array<Byte>) returns (rc: Code, n: nat)
      requires Typed(Value())
      modifies this, out
      ensures out.Length < TX_MAX ==> rc == ErrArgument && n == 0 && Value() == old(Value())
      ensures out.Length >= TX_MAX ==> Wrote(Begin(old(Value())), Value(), rc, out[..], n)
    {
      hide Frames, Frame;
      if out.Length < TX_MAX { return ErrArgument, 0; }
      ghost var d := Begin(Value());
      Writable(Value(), d);
      if state != Idle { return ErrState, 0; }
      rc, n := WriteBootstrap(out);
      if rc == Ok { state := Bootstrapping; }
      ArraySlice(out, 0, n);
    }

    method RegisterRpc(cred: Credentials, opt: Options, out: array<Byte>) returns (rc: Code, n: nat)
      requires Typed(Value())
      modifies this, out
      ensures out.Length < TX_MAX ==> rc == ErrArgument && n == 0 && Value() == old(Value())
      ensures out.Length >= TX_MAX ==> Wrote(Register(old(Value()), cred, opt), Value(), rc, out[..], n)
    {
      hide Frames, Frame, Registrable;
      if out.Length < TX_MAX { return ErrArgument, 0; }
      ghost var d := Register(Value(), cred, opt);
      Writable(Value(), d);
      if state != ReadyToRegister || !haveCapability { return ErrState, 0; }
      if !Registrable(cred, opt) { return ErrArgument, 0; }
      rc, n := WriteRegister(capability, cred, opt, out);
      if rc == Ok { state := Registering; }
      ArraySlice(out, 0, n);
    }

    method UnregisterRpc(out: array<Byte>) returns (rc: Code, n: nat)
      requires Typed(Value())
      modifies this, out
      ensures out.Length < TX_MAX ==> rc == ErrArgument && n == 0 && Value() == old(Value())
      ensures out.Length >= TX_MAX ==> Wrote(Unregister(old(Value())), Value(), rc, out[..], n)
    {
      hide Frames, Frame;
      if out.Length < TX_MAX { return ErrArgument, 0; }
      ghost var d := Unregister(Value());
      Writable(Value(), d);
      if state != Registered || !haveCapability { return ErrState, 0; }
      rc, n := WriteUnregister(capability, out);
      if rc == Ok { state := Unregistering; }
      ArraySlice(out, 0, n);
    }

    method FailRpc(code: Code, abort: bool, out: array<Byte>) returns (rc: Code, n: nat)
      requires out.Length >= TX_MAX && Typed(Value())
      modifies this`state, this`error, out
      ensures Wrote(GiveUp(old(Value()), code, abort), Value(), rc, out[..], n)
    {
      hide Frames, Frame;
      Writable(Value(), GiveUp(Value(), code, abort));
      error, state := code, Failed;
      rc, n := code, 0;
      if abort {
        var written;
        written, n := WriteAbort(out);
        ArraySlice(out, 0, n);
      }
    }

    method RequiredStruct(rd: PointerReader, v: CapnpReader.Value)
      modifies rd`error
      ensures Got(rd.State(), v) == Need(Got(old(rd.State()), v))
    {
      if !v.StructValue? && rd.error == Ok { rd.error := ErrFormat; }
    }

    method DecodeBootstrap(rd: PointerReader, payload: CapnpReader.Value) returns (code: Code)
      requires Typed(Value())
      modifies rd, this
      ensures Decoded(Value(), code, rd.State()) == BootstrapResult(old(Value()), old(rd.State()), payload)
    {
      hide Field, At, UInt;
      var content := rd.FieldOf(payload, 0);
      var caps := rd.FieldOf(payload, 1);
      if !content.CapValue? || !caps.ListValue? || caps.elementSize != 7 || caps.count != 1 || content.cap != 0 {
        return ErrUnsupported;
      }
      var desc := rd.ElementAt(caps, 0);
      var kind := rd.ReadUInt(desc, 0, 2);
      if kind != 1 { return ErrUnsupported; }
      var cap := rd.ReadUInt(desc, 4, 4);
      capability := cap % U32;
      if rd.error != Ok { return rd.error; }
      haveCapability, state := true, ReadyToRegister;
      return Ok;
    }

    method DecodeRejection(rd: PointerReader, details: CapnpReader.Value) returns (code: Code)
      modifies rd, this
      ensures Decoded(Value(), code, rd.State()) == RejectionResult(old(Value()), old(rd.State()), details)
    {
      hide Field, UInt, Data;
      var ns := rd.ReadUInt(details, 0, 8);
      var cause := rd.FieldOf(details, 0);
      var text := rd.ReadData(cause, true);  // validated, never kept
      var retry := rd.ReadUInt(details, 8, 1);
      shouldRetry := retry % 2 == 1;
      retryAfterMs := RetryMs(ns);
      if rd.error != Ok { return rd.error; }
      state := Rejected;
      return Ok;
    }

    method DecodeAcceptance(rd: PointerReader, details: CapnpReader.Value) returns (code: Code)
      modifies rd, this
      ensures Decoded(Value(), code, rd.State()) == AcceptanceResult(old(Value()), old(rd.State()), details)
    {
      hide Field, UInt, Data, Ascii;
      var i := rd.FieldOf(details, 0);
      var id := rd.ReadData(i, false);
      var l := rd.FieldOf(details, 1);
      var place := rd.ReadData(l, true);
      var managed := rd.ReadUInt(details, 0, 1);
      remotelyManaged := managed % 2 == 1;
      if rd.error != Ok { return rd.error; }
      if |id| != 16 || !Ascii(place, LOCATION_MAX) { return ErrFormat; }
      if !remotelyManaged { return ErrUnsupported; }
      connectionId, location, state := id, place, Registered;
      return Ok;
    }

    method DecodeRegistration(rd: PointerReader, payload: CapnpReader.Value) returns (code: Code)
      modifies rd, this
      ensures Decoded(Value(), code, rd.State()) == RegistrationResult(old(Value()), old(rd.State()), payload)
    {
      hide Field, UInt, RejectionResult, AcceptanceResult;
      var results := rd.FieldOf(payload, 0);
      RequiredStruct(rd, results);
      var response := rd.FieldOf(results, 0);
      RequiredStruct(rd, response);
      var kind := rd.ReadUInt(response, 0, 2);
      var details := rd.FieldOf(response, 0);
      RequiredStruct(rd, details);
      if rd.error != Ok { return rd.error; }
      if kind == 0 {
        code := DecodeRejection(rd, details);
        return;
      }
      if kind != 1 { return ErrUnsupported; }
      code := DecodeAcceptance(rd, details);
    }

    method DecodeResults(rd: PointerReader, payload: CapnpReader.Value) returns (code: Code)
      requires Typed(Value()) && Awaiting(state)
      modifies rd, this
      ensures Decoded(Value(), code, rd.State()) == DecodePayload(old(Value()), Got(old(rd.State()), payload))
    {
      hide Field, BootstrapResult, RegistrationResult;
      if state == Bootstrapping {
        code := DecodeBootstrap(rd, payload);
        return;
      }
      var caps := rd.FieldOf(payload, 1);
      if !caps.NullValue? && (!caps.ListValue? || caps.elementSize != 7 || caps.count != 0) {
        code := ErrUnsupported;
      } else if state == Registering {
        code := DecodeRegistration(rd, payload);
      } else {
        var content := rd.FieldOf(payload, 0);
        code := if content.NullValue? || content.StructValue? then Ok else ErrFormat;
        state := Closed;
      }
    }

    /** Results in hand: fail, or finish the question and on closing release the capability. */
    method ConcludeRpc(ghost c: Client, ghost d: Decoded, code: Code, rd: PointerReader, answer: nat, boot: bool,
        out: array<Byte>)
      returns (rc: Code, n: nat)
      requires out.Length >= TX_MAX && Typed(c) && Awaiting(c.state) && DecodedWell(c, d)
      requires Value() == d.c && code == d.code && rd.State() == d.r && answer == Question(c.state)
          && boot == (c.state == Bootstrapping)
      modifies this`state, this`error, this`haveCapability, out
      ensures Wrote(Conclude(c, d), Value(), rc, out[..], n)
    {
      hide Frames, Frame, DecodedWell;
      assert Typed(d.c) by { DecodedTyped(c, d); }
      ghost var e := Conclude(c, d);
      rc := if rd.error != Ok then rd.error else code;
      if rc != Ok {
        rc, n := FailRpc(rc, true, out);
        return;
      }
      Writable(d.c, e);
      rc, n := WriteFinish(answer, !boot, out, 0, TX_MAX);
      ghost var first := out[0..n];
      if state == Closed {
        var extra;
        rc, extra := WriteRelease(capability, out, n, TX_MAX - n);
        assert out[0..n] == first;
        Adjacent(out[..], 0, n, n + extra);
        ArraySlice(out, 0, n);
        ArraySlice(out, n, n + extra);
        n := n + extra;
        haveCapability := false;
      } else {
        ArraySlice(out, 0, n);
      }
    }

    method ReceiveReturn(rd: PointerReader, ret: CapnpReader.Value, out: array<Byte>) returns (rc: Code, n: nat)
      requires out.Length >= TX_MAX && Typed(Value()) && Awaiting(state)
      modifies this, rd, out
      ensures Wrote(HandleReturn(old(Value()), old(rd.State()), ret), Value(), rc, out[..], n)
    {
      hide Field, UInt, Data, Frames, Frame, DecodePayload, Conclude, GiveUp, DecodedWell, Wrote, RaiseRemote,
          WellTyped;
      ghost var c := Value();
      var boot, expected := state == Bootstrapping, Question(state);
      var answer := rd.ReadUInt(ret, 0, 4);
      answer := answer % U32;
      var kind := rd.ReadUInt(ret, 6, 2);
      if rd.error != Ok {
        rc, n := FailRpc(rd.error, true, out);
      } else if answer != expected {
        rc, n := FailRpc(ErrState, true, out);
      } else if kind == 1 {
        rc, n := ReceiveException(rd, ret, answer, out);
      } else if kind != 0 {
        rc, n := FailRpc(ErrUnsupported, true, out);
      } else {
        rc, n := ReceiveResults(rd, ret, answer, boot, out);
      }
    }

    /** The results of the outstanding question are decoded and answered. */
    method ReceiveResults(rd: PointerReader, ret: CapnpReader.Value, answer: nat, boot: bool, out: array<Byte>)
      returns (rc: Code, n: nat)
      requires out.Length >= TX_MAX && Typed(Value()) && Awaiting(state) && answer == Question(state)
      requires boot == (state == Bootstrapping)
      modifies this, rd, out
      ensures var c := old(Value());
              Wrote(Conclude(c, DecodePayload(c, Need(Field(old(rd.State()), ret, 0)))), Value(), rc, out[..], n)
    {
      hide Field, UInt, Data, Frames, Frame, DecodePayload, Conclude, DecodedWell, Wrote, WellTyped;
      ghost var c := Value();
      var payload := rd.FieldOf(ret, 0);
      RequiredStruct(rd, payload);
      DecodeEdges(c, Got(rd.State(), payload));
      ghost var d := DecodePayload(c, Got(rd.State(), payload));
      var code := DecodeResults(rd, payload);
      rc, n := ConcludeRpc(c, d, code, rd, answer, boot, out);
    }

    /** A remote exception is not an authentication rejection. */
    method ReceiveException(rd: PointerReader, ret: CapnpReader.Value, answer: nat, out: array<Byte>)
        returns (rc: Code, n: nat)
      requires out.Length >= TX_MAX && Typed(Value()) && answer < U32
      modifies this`state, this`error, rd, out
      ensures Wrote(RaiseRemote(old(Value()), old(rd.State()), ret, answer), Value(), rc, out[..], n)
    {
      hide Field, Data, Frames, Frame;
      Writable(Value(), RaiseRemote(Value(), rd.State(), ret, answer));
      var ex := rd.FieldOf(ret, 0);
      RequiredStruct(rd, ex);
      var reason := rd.FieldOf(ex, 0);
      var text := rd.ReadData(reason, true);
      rc, n := WriteFinish(answer, true, out, 0, TX_MAX);
      ArraySlice(out, 0, n);
      state := Failed;
      error := if rd.error == Ok then ErrState else rd.error;
      rc := error;
    }

    method ReceiveRpc(frame: Bytes, out: array<Byte>) returns (rc: Code, n: nat)
      requires Typed(Value())
      modifies this, out
      ensures out.Length < TX_MAX ==> rc == ErrArgument && n == 0 && Value() == old(Value())
      ensures out.Length >= TX_MAX ==> Wrote(Receive(old(Value()), frame), Value(), rc, out[..], n)
    {
      hide Field, UInt, Data, Frames, Frame, Init, Root, GiveUp, HandleReturn, Wrote;
      if out.Length < TX_MAX { return ErrArgument, 0; }
      if state == Idle || state == Failed || state == Closed || state == Rejected {
        WroteNothing(Value(), ErrState, out[..]);
        return ErrState, 0;
      }
      var rd := new PointerReader(frame);
      if rd.error != Ok {
        rc, n := FailRpc(rd.error, true, out);
        return;
      }
      assert Root(rd.State()) == Follow(rd.State(), 0, 0, 1) by { RootIs(rd.State()); }
      var root := rd.FollowSlot(0, 0, 1);
      RequiredStruct(rd, root);
      var kind := rd.ReadUInt(root, 0, 2);
      var body := rd.FieldOf(root, 0);
      RequiredStruct(rd, body);
      if rd.error != Ok {
        rc, n := FailRpc(rd.error, true, out);
      } else if kind == 1 {
        var reason := rd.FieldOf(body, 0);
        var text := rd.ReadData(reason, true);
        rc, n := FailRpc(if rd.error == Ok then ErrState else rd.error, false, out);
      } else if kind != 3 {
        rc, n := FailRpc(ErrUnsupported, true, out);
      } else if state != Bootstrapping && state != Registering && state != Unregistering {
        rc, n := FailRpc(ErrState, true, out);
      } else {
        rc, n := ReceiveReturn(rd, body, out);
      }
    }
  }

  lemma RootIs(r: Reader)
    ensures Root(r) == Follow(r, 0, 0, 1)
  {
  }

  lemma DecodedTyped(c: Client, d: Decoded)
    requires DecodedWell(c, d)
    ensures Typed(d.c)
  {
  }

  lemma WroteNothing(c: Client, code: Code, out: Bytes)
    ensures Wrote(Done(c, code, []), c, code, out, 0)
  {
  }
}
