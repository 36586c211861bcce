/** The converse of RpcReplies: the client advances on no message but the ones that mean it. */
module RpcOutcomes {
  import opened Core
  import opened CapnpReader
  import opened CapnpObjects
  import opened Rpc
  import opened RpcMessages
  import opened RpcReplies
  import CapnpSafety
  import Lifecycle

  // ---- what goes wrong stays wrong

  lemma Stuck(r: Reader, v: Value, i: nat, byte: nat, width: nat, text: bool)
    requires r.error != Ok
    ensures Field(r, v, i) == Got(r, NullValue) && At(r, v, i) == Got(r, NullValue)
    ensures UInt(r, v, byte, width) == GotNumber(r, 0) && Data(r, v, text) == GotBytes(r, [])
  {
  }

  lemma DecodeStuck(c: Client, g: Got)
    requires g.r.error != Ok
    ensures DecodePayload(c, g).r.error != Ok
  {
    hide RetryMs, Ascii;
  }

  /** A value that is needed but not shown by a record ends the reading. */
  lemma NeedsRecord(segments: seq<Bytes>, g: Got, o: Obj)
    requires Shows(segments, g.v, o)
    ensures Need(g).v == g.v && (o.Record? || Need(g).r.error != Ok)
  {
    hide InSlot, BytesAt, CapnpSafety.Inside;
  }

  /** Bytes are read from nothing or from a blob, and text from one that ends in a zero. */
  lemma ReadsBytesOnly(r: Reader, v: Value, o: Obj, text: bool)
    requires r.error == Ok && Shows(r.segments, v, o) && Data(r, v, text).r.error == Ok
    ensures Data(r, v, text).r == r && (o.Nil? || o.Blob?)
    ensures o.Nil? ==> Data(r, v, text).b == []
    ensures o.Blob? && !text ==> Data(r, v, text).b == o.bytes
    ensures o.Blob? && text ==> IsText(o, Data(r, v, text).b)
  {
    hide InSlot, CapnpSafety.Inside;
    if o.Blob? {
      CapnpSafety.DataInside(r, v);
      if text { assert o.bytes == o.bytes[..|o.bytes| - 1] + [0]; }
    }
  }

  // ---- a Return, or failure

  /** If the client does not fail, the message is a Return with results for the outstanding question. */
  lemma ReturnOrFailure(c: Client, frame: Bytes, o: Obj)
    requires Awaiting(c.state) && Carries(frame, o) && Readable(o) && Receive(c, frame).c.state != Failed
    ensures IsReturn(o, Question(c.state))
  {
    hide Init, Root, Field, UInt, Data, Shows, Own, Weight, CapnpSafety.Sound, DecodePayload, Conclude, RaiseRemote,
        HandleAbort;
    CapnpSafety.InitIsSound(frame);
    SlotWeights(o, 0, 1);
    WeightIsOwn(o);
    ReadRoot(frame, o);
    var root := Need(Root(Init(frame)));
    NeedsRecord(Init(frame).segments, Root(Init(frame)), o);
    FailsAlways(c, frame);
    if root.r.error != Ok {
      Stuck(root.r, root.v, 0, 0, 2, false);
    } else {
      ReadNum(root.r, root.v, o, 0, 2);
      var kind := UInt(root.r, root.v, 0, 2);
      WeightIsOwn(Slot(o, 0));
      ReadField(kind.r, root.v, o, 0);
      NeedsRecord(Init(frame).segments, Field(kind.r, root.v, 0), Slot(o, 0));
      var body := Need(Field(kind.r, root.v, 0));
      if body.r.error == Ok && kind.n == 3 {
        SlotWeights(Slot(o, 0), 0, 1);
        WeightIsOwn(Payload(o));
        RecordsAreStructs(body.r.segments, body.v, Slot(o, 0));
        RecordsAreStructs(root.r.segments, root.v, o);
        ReturnBody(c, frame, o, body);
      }
    }
  }

  /** Aborts and exceptions fail the client. */
  lemma FailsAlways(c: Client, frame: Bytes)
    ensures forall r, body :: HandleAbort(c, r, body).c.state == Failed
    ensures forall r, ret, answer :: RaiseRemote(c, r, ret, answer).c.state == Failed
  {
    hide Field, Data;
  }

  lemma ReturnBody(c: Client, frame: Bytes, o: Obj, body: Got)
    requires Awaiting(c.state) && HandleReturn(c, body.r, body.v).c.state != Failed && o.Record? && Slot(o, 0).Record?
    requires Num(o, 0, 2) == 3 && Ready(body.r, Own(Slot(Slot(o, 0), 0)) + 2) && body.v.StructValue?
        && body.v.depth < DEPTH_MAX
    requires Shows(body.r.segments, body.v, Slot(o, 0))
    ensures IsReturn(o, Question(c.state))
  {
    hide Init, Root, Field, UInt, Data, Shows, Own, Weight, CapnpSafety.Sound, DecodePayload, RaiseRemote, Num;
    var ret := Slot(o, 0);
    ReadNum(body.r, body.v, ret, 0, 4);
    var answer := UInt(body.r, body.v, 0, 4);
    NumFits(ret, 0);
    ReadNum(answer.r, body.v, ret, 6, 2);
    var kind := UInt(answer.r, body.v, 6, 2);
    FailsAlways(c, []);
    ReadField(kind.r, body.v, ret, 0);
    var g := Field(kind.r, body.v, 0);
    NeedsRecord(g.r.segments, g, Payload(o));
    if Need(g).r.error != Ok { DecodeStuck(c, Need(g)); }
  }

  // ---- the bootstrap

  /** A client becomes ready exactly on a bootstrap answer, and then holds the capability it names. */
  lemma ReadyExactlyOnBootstrap(c: Client, frame: Bytes, o: Obj)
    requires c.state == Bootstrapping && Carries(frame, o) && Readable(o)
    ensures var d := Receive(c, frame);
            && (d.c.state == ReadyToRegister <==> exists capability :: IsBootstrap(o, capability))
            && (d.c.state == ReadyToRegister ==> IsBootstrap(o, d.c.capability))
            && (d.c.state == ReadyToRegister || d.c.state == Failed)
  {
    hide Receive, Readable, Carries, IsBootstrap;
    forall capability | IsBootstrap(o, capability) ensures Receive(c, frame).c.state == ReadyToRegister {
      BootstrapImports(c, frame, o, capability);
    }
    if Receive(c, frame).c.state != Failed { BootstrapOrFailure(c, frame, o); }
  }

  lemma BootstrapOrFailure(c: Client, frame: Bytes, o: Obj)
    requires c.state == Bootstrapping && Carries(frame, o) && Readable(o) && Receive(c, frame).c.state != Failed
    ensures Receive(c, frame).c.state == ReadyToRegister && IsBootstrap(o, Receive(c, frame).c.capability)
  {
    hide Init, Root, Field, At, UInt, Shows, Own, Weight, CapnpSafety.Sound, Receive;
    ReturnOrFailure(c, frame, o);
    var g := ReachesPayload(c, frame, o);
    var payload := Payload(o);
    SlotWeights(payload, 0, 1);
    WeightIsOwn(Slot(payload, 0));
    WeightIsOwn(Slot(payload, 1));
    ReadField(g.r, g.v, payload, 0);
    var content := Field(g.r, g.v, 0);
    RecordsAreStructs(content.r.segments, content.v, Slot(payload, 0));
    ReadField(content.r, g.v, payload, 1);
    var caps := Field(content.r, g.v, 1);
    ListsAreTables(caps.r.segments, caps.v, Slot(payload, 1));
    if Slot(payload, 1).Table? && |Slot(payload, 1).items| == 1 {
      ReadItem(caps.r, caps.v, Slot(payload, 1), 0);
      var desc := At(caps.r, caps.v, 0);
      RecordsAreStructs(desc.r.segments, desc.v, Slot(payload, 1).items[0]);
      ReadNum(desc.r, desc.v, Slot(payload, 1).items[0], 0, 2);
      var kind := UInt(desc.r, desc.v, 0, 2);
      ReadNum(kind.r, desc.v, Slot(payload, 1).items[0], 4, 4);
      NumFits(Slot(payload, 1).items[0], 4);
    }
  }

  lemma ListsAreTables(segments: seq<Bytes>, v: Value, o: Obj)
    requires Shows(segments, v, o)
    ensures o.Table? <==> v.ListValue? && v.elementSize == 7
    ensures o.Table? ==> v.count == |o.items|
    ensures o.Nil? <==> v.NullValue?
  {
    hide InSlot, BytesAt, CapnpSafety.Inside;
  }

  // ---- the registration

  /** The results of a registration reply that does not fail the client are an acceptance or a rejection. */
  lemma ReplyOrFailure(c: Client, frame: Bytes, o: Obj)
    requires c.state == Registering && Carries(frame, o) && Readable(o) && Receive(c, frame).c.state != Failed
    ensures IsRegistrationReply(o, 0) || IsRegistrationReply(o, 1)
  {
    hide Init, Root, Field, UInt, Shows, Own, Weight, CapnpSafety.Sound, Receive, RejectionResult, AcceptanceResult;
    ReturnOrFailure(c, frame, o);
    var p := ReachesPayload(c, frame, o);
    var payload := Payload(o);
    var results := Slot(payload, 0);
    SlotWeights(payload, 0, 1);
    WeightIsOwn(Slot(payload, 1));
    WeightIsOwn(results);
    ReadField(p.r, p.v, payload, 1);
    var caps := Field(p.r, p.v, 1);
    ListsAreTables(caps.r.segments, caps.v, Slot(payload, 1));
    assert NoCaps(o);
    ReadField(caps.r, p.v, payload, 0);
    var a := Field(caps.r, p.v, 0);
    NeedsRecord(a.r.segments, a, results);
    if Need(a).r.error == Ok {
      ResponseOrFailure(c, o, caps.r, p.v, a);
    } else {
      RegistrationStuck(c, caps.r, p.v);
    }
  }

  /** An unusable result leaves the reader in error to the end. */
  lemma RegistrationStuck(c: Client, r: Reader, payload: Value)
    requires Need(Field(r, payload, 0)).r.error != Ok
    ensures RegistrationResult(c, r, payload).r.error != Ok
  {
    hide RejectionResult, AcceptanceResult;
    var a := Need(Field(r, payload, 0));
    Stuck(a.r, a.v, 0, 0, 2, false);
    var b := Need(Field(a.r, a.v, 0));
    Stuck(b.r, b.v, 0, 0, 2, false);
  }

  lemma ResponseOrFailure(c: Client, o: Obj, r: Reader, payload: Value, a: Got)
    requires IsReturn(o, 1) && NoCaps(o) && Slot(Payload(o), 0).Record?
    requires a == Field(r, payload, 0) && Need(a) == a && a.v.StructValue? && a.v.depth == 4
    requires Shows(a.r.segments, a.v, Slot(Payload(o), 0))
    requires Ready(a.r, Weight(Slot(Payload(o), 0)) - Own(Slot(Payload(o), 0)) + 8)
    requires Conclude(c, RegistrationResult(c, r, payload)).c.state != Failed
    ensures IsRegistrationReply(o, 0) || IsRegistrationReply(o, 1)
  {
    hide Init, Root, Field, UInt, Shows, Own, Weight, CapnpSafety.Sound, RejectionResult, AcceptanceResult;
    var results := Slot(Payload(o), 0);
    SlotWeights(results, 0, 1);
    SlotWeights(Response(o), 0, 1);
    WeightIsOwn(Response(o));
    WeightIsOwn(Details(o));
    ReadField(a.r, a.v, results, 0);
    var b := Field(a.r, a.v, 0);
    NeedsRecord(b.r.segments, b, Response(o));
    if Need(b).r.error != Ok {
      Stuck(Need(b).r, b.v, 0, 0, 2, false);
    } else {
      ReadNum(b.r, b.v, Response(o), 0, 2);
      var kind := UInt(b.r, b.v, 0, 2);
      ReadField(kind.r, b.v, Response(o), 0);
      NeedsRecord(kind.r.segments, Field(kind.r, b.v, 0), Details(o));
    }
  }

  /** A client is registered exactly on an acceptance, and rejected exactly on a rejection; else it fails. */
  lemma RegisteredExactlyOnAcceptance(c: Client, frame: Bytes, o: Obj)
    requires c.state == Registering && Carries(frame, o) && Readable(o)
    ensures var d := Receive(c, frame);
            && (d.c.state == Registered <==> exists id, location :: IsAcceptance(o, id, location))
            && (d.c.state == Registered ==> IsAcceptance(o, d.c.connectionId, d.c.location))
            && (d.c.state == Rejected <==> exists ns, retry :: IsRejection(o, ns, retry))
            && (d.c.state == Registered || d.c.state == Rejected || d.c.state == Failed)
  {
    hide Receive, Readable, Carries, IsAcceptance, IsRejection;
    forall id, location | IsAcceptance(o, id, location) ensures Receive(c, frame).c.state == Registered {
      AcceptanceRegisters(c, frame, o, id, location);
    }
    forall ns: nat, retry | IsRejection(o, ns, retry) ensures Receive(c, frame).c.state == Rejected {
      RejectionRejects(c, frame, o, ns, retry);
    }
    if Receive(c, frame).c.state != Failed { AcceptedOrRejected(c, frame, o); }
  }

  lemma AcceptedOrRejected(c: Client, frame: Bytes, o: Obj)
    requires c.state == Registering && Carries(frame, o) && Readable(o) && Receive(c, frame).c.state != Failed
    ensures var d := Receive(c, frame).c;
            || (d.state == Registered && IsAcceptance(o, d.connectionId, d.location))
            || (d.state == Rejected && exists ns, retry :: IsRejection(o, ns, retry))
  {
    hide Init, Root, Field, UInt, Data, Shows, Own, Weight, CapnpSafety.Sound, Receive, IsRegistrationReply,
        AcceptanceResult, RejectionResult, Readable, Carries;
    ReplyOrFailure(c, frame, o);
    if IsRegistrationReply(o, 1) {
      var g := ReachesDetails(c, frame, o, 1);
      AcceptanceOrFailure(c, g.r, g.v, o);
    } else {
      var g := ReachesDetails(c, frame, o, 0);
      RejectionOrFailure(c, g.r, g.v, o);
    }
  }

  lemma AcceptanceOrFailure(c: Client, r: Reader, v: Value, o: Obj)
    requires IsRegistrationReply(o, 1) && Ready(r, Weight(Details(o)) - Own(Details(o)) + 8)
    requires Shows(r.segments, v, Details(o)) && v.StructValue? && v.depth == 6
    requires Conclude(c, AcceptanceResult(c, r, v)).c.state != Failed
    ensures var d := Conclude(c, AcceptanceResult(c, r, v)).c;
            d.state == Registered && IsAcceptance(o, d.connectionId, d.location)
  {
    hide Init, Root, Field, UInt, Data, Shows, Own, Weight, CapnpSafety.Sound;
    var d := Details(o);
    SlotWeights(d, 0, 1);
    WeightIsOwn(Slot(d, 0));
    WeightIsOwn(Slot(d, 1));
    ReadField(r, v, d, 0);
    var i := Field(r, v, 0);
    var id := Data(i.r, i.v, false);
    if id.r.error != Ok {
      Stuck(id.r, v, 1, 0, 1, true);
      Stuck(id.r, NullValue, 1, 0, 1, true);
    } else {
      ReadsBytesOnly(i.r, i.v, Slot(d, 0), false);
      ReadField(i.r, v, d, 1);
      var l := Field(i.r, v, 1);
      var location := Data(l.r, l.v, true);
      if location.r.error != Ok {
        Stuck(location.r, v, 1, 0, 1, true);
      } else {
        ReadsBytesOnly(l.r, l.v, Slot(d, 1), true);
        ReadNum(l.r, v, d, 0, 1);
      }
    }
  }

  lemma RejectionOrFailure(c: Client, r: Reader, v: Value, o: Obj)
    requires IsRegistrationReply(o, 0) && Ready(r, Weight(Details(o)) - Own(Details(o)) + 8)
    requires Shows(r.segments, v, Details(o)) && v.StructValue? && v.depth == 6
    requires Conclude(c, RejectionResult(c, r, v)).c.state != Failed
    ensures Conclude(c, RejectionResult(c, r, v)).c.state == Rejected
    ensures IsRejection(o, Num(Details(o), 0, 8), Num(Details(o), 8, 1) % 2 == 1)
  {
    hide Init, Root, Field, UInt, Data, Shows, Own, Weight, CapnpSafety.Sound, RetryMs;
    var d := Details(o);
    SlotWeights(d, 0, 1);
    WeightIsOwn(Slot(d, 0));
    ReadNum(r, v, d, 0, 8);
    var ns := UInt(r, v, 0, 8);
    ReadField(ns.r, v, d, 0);
    var cause := Field(ns.r, v, 0);
    var text := Data(cause.r, cause.v, true);
    if text.r.error != Ok {
      Stuck(text.r, v, 0, 8, 1, true);
    } else {
      ReadsBytesOnly(cause.r, cause.v, Slot(d, 0), true);
    }
  }

  // ---- the end

  /** A client closes exactly on the answer to its unregistration. */
  lemma ClosedExactlyOnUnregistered(c: Client, frame: Bytes, o: Obj)
    requires c.state == Unregistering && Carries(frame, o) && Readable(o)
    ensures Receive(c, frame).c.state == Closed <==> IsUnregistered(o)
    ensures Receive(c, frame).c.state == Closed || Receive(c, frame).c.state == Failed
  {
    hide Receive, Readable, Carries, IsUnregistered;
    if IsUnregistered(o) { UnregisteredCloses(c, frame, o); }
    if Receive(c, frame).c.state != Failed { UnregisteredOrFailure(c, frame, o); }
  }

  lemma UnregisteredOrFailure(c: Client, frame: Bytes, o: Obj)
    requires c.state == Unregistering && Carries(frame, o) && Readable(o) && Receive(c, frame).c.state != Failed
    ensures Receive(c, frame).c.state == Closed && IsUnregistered(o)
  {
    hide Init, Root, Field, UInt, Shows, Own, Weight, CapnpSafety.Sound, Receive;
    ReturnOrFailure(c, frame, o);
    var g := ReachesPayload(c, frame, o);
    var payload := Payload(o);
    SlotWeights(payload, 0, 1);
    WeightIsOwn(Slot(payload, 0));
    WeightIsOwn(Slot(payload, 1));
    ReadField(g.r, g.v, payload, 1);
    var caps := Field(g.r, g.v, 1);
    ListsAreTables(caps.r.segments, caps.v, Slot(payload, 1));
    ReadField(caps.r, g.v, payload, 0);
    var content := Field(caps.r, g.v, 0);
    RecordsAreStructs(content.r.segments, content.v, Slot(payload, 0));
  }
}
