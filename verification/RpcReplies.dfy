/**
 * What each message of the server means to the client, by the schema of rpc.capnp and the registration interface,
 * however its objects are spread over the frame.
 */
module RpcReplies {
  import opened Core
  import opened CapnpReader
  import opened CapnpObjects
  import opened Rpc
  import opened RpcMessages
  import CapnpSafety
  import Lifecycle

  // ---- messages as objects

  /** A message whose pointer is a record. */
  predicate IsMessage(o: Obj, kind: nat) { o.Record? && Num(o, 0, 2) == kind && Slot(o, 0).Record? }

  /** A Return that answers the question with results. */
  predicate IsReturn(o: Obj, question: nat)
  {
    IsMessage(o, 3) && Num(Slot(o, 0), 0, 4) == question && Num(Slot(o, 0), 6, 2) == 0 && Payload(o).Record?
  }

  function Payload(o: Obj): Obj { Slot(Slot(o, 0), 0) }

  /** Results that export no capability. */
  predicate NoCaps(o: Obj)
  {
    Slot(Payload(o), 1).Nil? || (Slot(Payload(o), 1).Table? && Slot(Payload(o), 1).items == [])
  }

  function Response(o: Obj): Obj { Slot(Slot(Payload(o), 0), 0) }

  function Details(o: Obj): Obj { Slot(Response(o), 0) }

  /** A reply to the registration: a union whose tag says whether it failed (0) or succeeded (1). */
  predicate IsRegistrationReply(o: Obj, tag: nat)
  {
    && IsReturn(o, 1) && NoCaps(o) && Slot(Payload(o), 0).Record? && Response(o).Record? && Details(o).Record?
    && Num(Response(o), 0, 2) == tag
  }

  /** Text ends in a zero that is not part of it. */
  predicate IsText(o: Obj, text: Bytes) { o == Blob(text + [0]) }

  /** The registration succeeded: a connection id, a location, and remote management. */
  predicate IsAcceptance(o: Obj, id: Bytes, location: Bytes)
  {
    && IsRegistrationReply(o, 1) && Slot(Details(o), 0) == Blob(id) && |id| == 16
    && IsText(Slot(Details(o), 1), location) && 1 <= |location| <= 31
    && (forall i :: 0 <= i < |location| ==> 32 <= location[i] <= 126)
    && Num(Details(o), 0, 1) % 2 == 1
  }

  /** The registration failed: a delay in nanoseconds, whether to retry, and perhaps a cause. */
  ghost predicate IsRejection(o: Obj, nanoseconds: nat, retry: bool)
  {
    && IsRegistrationReply(o, 0) && Num(Details(o), 0, 8) == nanoseconds && (Num(Details(o), 8, 1) % 2 == 1) == retry
    && (Slot(Details(o), 0).Nil? || exists cause :: IsText(Slot(Details(o), 0), cause))
  }

  /** The bootstrap answer: capability 0 of a table of one, hosted by the sender under this number. */
  predicate IsBootstrap(o: Obj, capability: nat)
  {
    && IsReturn(o, 0) && Slot(Payload(o), 0) == Cap(0)
    && Slot(Payload(o), 1).Table? && |Slot(Payload(o), 1).items| == 1
    && var desc := Slot(Payload(o), 1).items[0]; desc.Record? && Num(desc, 0, 2) == 1 && Num(desc, 4, 4) == capability
  }

  predicate IsUnregistered(o: Obj)
  {
    IsReturn(o, 2) && NoCaps(o) && (Slot(Payload(o), 0).Nil? || Slot(Payload(o), 0).Record?)
  }

  /** The message and a few numbers can be read within the traversal budget. */
  predicate Readable(o: Obj) { Weight(o) + 20 <= 4096 }

  // ---- on the way to the payload

  lemma NeedsNothing(g: Got)
    requires g.v.StructValue? || g.r.error != Ok
    ensures Need(g) == g
  {
  }

  lemma RecordsAreStructs(segments: seq<Bytes>, v: Value, o: Obj)
    requires Shows(segments, v, o)
    ensures o.Record? <==> v.StructValue?
    ensures o.Nil? <==> v.NullValue?
    ensures o.Cap? <==> v.CapValue?
    ensures o.Cap? ==> v.cap == o.index
    ensures o.Table? ==> v.ListValue? && v.elementSize == 7 && v.count == |o.items|
  {
    hide InSlot, BytesAt, CapnpSafety.Inside;
  }

  /** A reader in the middle of a message: what is left of the budget covers k. */
  ghost predicate On(r: Reader, frame: Bytes, v: Value, o: Obj, depth: nat, k: nat)
  {
    Ready(r, k) && r.segments == Init(frame).segments && Shows(r.segments, v, o) && v.StructValue? && v.depth == depth
  }

  lemma ReachesBody(frame: Bytes, o: Obj, kind: nat) returns (g: Got)
    requires Carries(frame, o) && IsMessage(o, kind) && Readable(o)
    ensures var root := Need(Root(Init(frame)));
            var k := UInt(root.r, root.v, 0, 2);
            k.n == kind && Need(Field(k.r, root.v, 0)) == g
    ensures On(g.r, frame, g.v, Slot(o, 0), 2, Weight(Slot(o, 0)) - Own(Slot(o, 0)) + 18)
  {
    hide Init, Root, Field, UInt, Shows, Own, Weight, CapnpSafety.Sound;
    CapnpSafety.InitIsSound(frame);
    SlotWeights(o, 0, 1);
    WeightIsOwn(o);
    WeightIsOwn(Slot(o, 0));
    ReadRoot(frame, o);
    var root := Root(Init(frame));
    RecordsAreStructs(root.r.segments, root.v, o);
    NeedsNothing(root);
    ReadNum(root.r, root.v, o, 0, 2);
    var k := UInt(root.r, root.v, 0, 2);
    ReadField(k.r, root.v, o, 0);
    g := Field(k.r, root.v, 0);
    RecordsAreStructs(g.r.segments, g.v, Slot(o, 0));
    NeedsNothing(g);
  }

  lemma WeightIsOwn(o: Obj)
    ensures Weight(o) >= Own(o) >= 1
  {
  }

  /** The payload of a Return that answers the outstanding question. */
  lemma ReachesPayload(c: Client, frame: Bytes, o: Obj) returns (g: Got)
    requires Awaiting(c.state) && Carries(frame, o) && IsReturn(o, Question(c.state)) && Readable(o)
    ensures Receive(c, frame) == Conclude(c, DecodePayload(c, g))
    ensures On(g.r, frame, g.v, Payload(o), 3, Weight(Payload(o)) - Own(Payload(o)) + 15)
  {
    hide Init, Root, Field, UInt, Shows, Own, Weight, CapnpSafety.Sound, Conclude, DecodePayload;
    var body := ReachesBody(frame, o, 3);
    var ret := Slot(o, 0);
    SlotWeights(ret, 0, 1);
    WeightIsOwn(Payload(o));
    ReadNum(body.r, body.v, ret, 0, 4);
    var answer := UInt(body.r, body.v, 0, 4);
    ReadNum(answer.r, body.v, ret, 6, 2);
    var kind := UInt(answer.r, body.v, 6, 2);
    ReadField(kind.r, body.v, ret, 0);
    g := Field(kind.r, body.v, 0);
    RecordsAreStructs(g.r.segments, g.v, Payload(o));
    NeedsNothing(g);
    assert HandleReturn(c, body.r, body.v) == Conclude(c, DecodePayload(c, g));
  }

  // ---- the bootstrap answer

  /** A bootstrap answer imports exactly the capability it names. */
  lemma BootstrapImports(c: Client, frame: Bytes, o: Obj, capability: nat)
    requires c.state == Bootstrapping && Carries(frame, o) && IsBootstrap(o, capability) && Readable(o)
    ensures Receive(c, frame) ==
              Done(c.(state := ReadyToRegister, capability := capability, haveCapability := true), Ok,
                  [Finish(0, false)])
  {
    hide Init, Root, Field, At, UInt, Shows, Own, Weight, CapnpSafety.Sound, Receive;
    var g := ReachesPayload(c, frame, o);
    var payload := Payload(o);
    SlotWeights(payload, 0, 1);
    WeightIsOwn(Slot(payload, 0));
    WeightIsOwn(Slot(payload, 1));
    ReadField(g.r, g.v, payload, 0);
    var content := Field(g.r, g.v, 0);
    RecordsAreStructs(content.r.segments, content.v, Slot(payload, 0));
    ReadField(content.r, g.v, payload, 1);
    var caps := Field(content.r, g.v, 1);
    RecordsAreStructs(caps.r.segments, caps.v, Slot(payload, 1));
    ReadItem(caps.r, caps.v, Slot(payload, 1), 0);
    var desc := At(caps.r, caps.v, 0);
    ReadNum(desc.r, desc.v, Slot(payload, 1).items[0], 0, 2);
    var kind := UInt(desc.r, desc.v, 0, 2);
    ReadNum(kind.r, desc.v, Slot(payload, 1).items[0], 4, 4);
    NumFits(Slot(payload, 1).items[0], 4);
  }

  // ---- the registration reply

  /** Past the capability table, down to the details of the response. */
  lemma ReachesDetails(c: Client, frame: Bytes, o: Obj, tag: nat) returns (g: Got)
    requires c.state == Registering && Carries(frame, o) && IsRegistrationReply(o, tag) && Readable(o) && tag <= 1
    ensures Receive(c, frame) ==
              Conclude(c, if tag == 0 then RejectionResult(c, g.r, g.v) else AcceptanceResult(c, g.r, g.v))
    ensures On(g.r, frame, g.v, Details(o), 6, Weight(Details(o)) - Own(Details(o)) + 8)
  {
    hide Init, Root, Field, UInt, Shows, Own, Weight, CapnpSafety.Sound, Receive, RejectionResult, AcceptanceResult,
        Conclude;
    var p := ReachesPayload(c, frame, o);
    var payload := Payload(o);
    var results := Slot(payload, 0);
    SlotWeights(payload, 0, 1);
    SlotWeights(results, 0, 1);
    SlotWeights(Response(o), 0, 1);
    WeightIsOwn(Slot(payload, 1));
    WeightIsOwn(results);
    WeightIsOwn(Response(o));
    WeightIsOwn(Details(o));
    ReadField(p.r, p.v, payload, 1);
    var caps := Field(p.r, p.v, 1);
    RecordsAreStructs(caps.r.segments, caps.v, Slot(payload, 1));
    ReadField(caps.r, p.v, payload, 0);
    var a := Field(caps.r, p.v, 0);
    RecordsAreStructs(a.r.segments, a.v, results);
    NeedsNothing(a);
    ReadField(a.r, a.v, results, 0);
    var b := Field(a.r, a.v, 0);
    RecordsAreStructs(b.r.segments, b.v, Response(o));
    NeedsNothing(b);
    ReadNum(b.r, b.v, Response(o), 0, 2);
    var kind := UInt(b.r, b.v, 0, 2);
    ReadField(kind.r, b.v, Response(o), 0);
    g := Field(kind.r, b.v, 0);
    RecordsAreStructs(g.r.segments, g.v, Details(o));
    NeedsNothing(g);
  }

  /** An acceptance registers the connection under its id and location. */
  lemma AcceptanceRegisters(c: Client, frame: Bytes, o: Obj, id: Bytes, location: Bytes)
    requires c.state == Registering && Carries(frame, o) && IsAcceptance(o, id, location) && Readable(o)
    ensures Receive(c, frame) ==
              Done(c.(state := Registered, connectionId := id, location := location, remotelyManaged := true), Ok,
                   [Finish(1, true)])
  {
    hide Init, Root, Field, UInt, Data, Shows, Own, Weight, CapnpSafety.Sound, Receive;
    var g := ReachesDetails(c, frame, o, 1);
    var d := Details(o);
    SlotWeights(d, 0, 1);
    WeightIsOwn(Slot(d, 0));
    WeightIsOwn(Slot(d, 1));
    ReadField(g.r, g.v, d, 0);
    var i := Field(g.r, g.v, 0);
    ReadBytes(i.r, i.v, Slot(d, 0));
    ReadField(i.r, g.v, d, 1);
    var l := Field(i.r, g.v, 1);
    ReadBytes(l.r, l.v, Slot(d, 1));
    assert (location + [0])[..|location|] == location;
    ReadNum(l.r, g.v, d, 0, 1);
  }

  /** A rejection is kept with its retry bit and its delay, rounded up to milliseconds and never negative. */
  lemma RejectionRejects(c: Client, frame: Bytes, o: Obj, nanoseconds: nat, retry: bool)
    requires c.state == Registering && Carries(frame, o) && IsRejection(o, nanoseconds, retry) && Readable(o)
    ensures nanoseconds < U64
    ensures Receive(c, frame) ==
              Done(c.(state := Rejected, shouldRetry := retry, retryAfterMs := Lifecycle.CeilMs(nanoseconds)), Ok,
                   [Finish(1, true)])
  {
    hide Init, Root, Field, UInt, Data, Shows, Own, Weight, CapnpSafety.Sound, Receive, RetryMs, Lifecycle.CeilMs;
    var g := ReachesDetails(c, frame, o, 0);
    var d := Details(o);
    SlotWeights(d, 0, 1);
    WeightIsOwn(Slot(d, 0));
    ReadNum(g.r, g.v, d, 0, 8);
    Lifecycle.NanosecondsFit(g.r, g.v);
    Lifecycle.RetryMsIsCeiling(nanoseconds);
    var ns := UInt(g.r, g.v, 0, 8);
    ReadField(ns.r, g.v, d, 0);
    var cause := Field(ns.r, g.v, 0);
    ReadBytes(cause.r, cause.v, Slot(d, 0));
    ReadNum(cause.r, g.v, d, 8, 1);
  }

  /** From the wire to the lifecycle: a rejection that asks for a retry delays the next attempt as it says. */
  lemma RejectionDelaysTheRetry(c: Client, frame: Bytes, o: Obj, nanoseconds: nat, l: Lifecycle.Life, now: nat,
      random: nat)
    requires c.state == Registering && Carries(frame, o) && IsRejection(o, nanoseconds, true) && Readable(o)
    requires Lifecycle.MayRetry(l.state) && now <= Lifecycle.U64_MAX - Lifecycle.U32_MAX - 60000
    ensures var after := Lifecycle.AfterFailure(Receive(c, frame).c, l, now, random).l;
            && after.state == Lifecycle.Backoff
            && after.retryAtMs >= now + Min(Lifecycle.CeilMs(nanoseconds), Lifecycle.U32_MAX)
  {
    hide Receive, Lifecycle.Delay, Lifecycle.CeilMs, Readable, IsRejection, Carries;
    RejectionRejects(c, frame, o, nanoseconds, true);
  }

  // ---- the end of a conversation

  /** The answer to the unregistration closes the client and releases the capability. */
  lemma UnregisteredCloses(c: Client, frame: Bytes, o: Obj)
    requires c.state == Unregistering && Carries(frame, o) && IsUnregistered(o) && Readable(o)
    ensures Receive(c, frame) ==
              Done(c.(state := Closed, haveCapability := false), Ok, [Finish(2, true), ReleaseCap(c.capability)])
  {
    hide Init, Root, Field, UInt, Shows, Own, Weight, CapnpSafety.Sound, Receive;
    var g := ReachesPayload(c, frame, o);
    var payload := Payload(o);
    SlotWeights(payload, 0, 1);
    WeightIsOwn(Slot(payload, 0));
    WeightIsOwn(Slot(payload, 1));
    ReadField(g.r, g.v, payload, 1);
    var caps := Field(g.r, g.v, 1);
    RecordsAreStructs(caps.r.segments, caps.v, Slot(payload, 1));
    ReadField(caps.r, g.v, payload, 0);
    var content := Field(caps.r, g.v, 0);
    RecordsAreStructs(content.r.segments, content.v, Slot(payload, 0));
  }

  /** A Return with an exception finishes the question and fails the client; it is no rejection. */
  lemma ExceptionFails(c: Client, frame: Bytes, o: Obj)
    requires Awaiting(c.state) && Carries(frame, o) && Readable(o)
    requires IsMessage(o, 3) && Num(Slot(o, 0), 0, 4) == Question(c.state) && Num(Slot(o, 0), 6, 2) == 1
    ensures Receive(c, frame).c.state == Failed && Receive(c, frame).sent == [Finish(Question(c.state), true)]
  {
    hide Init, Root, Field, UInt, Data, Shows, Own, Weight, CapnpSafety.Sound;
    var body := ReachesBody(frame, o, 3);
    WeightIsOwn(Slot(o, 0));
    ReadNum(body.r, body.v, Slot(o, 0), 0, 4);
    var answer := UInt(body.r, body.v, 0, 4);
    ReadNum(answer.r, body.v, Slot(o, 0), 6, 2);
  }

  /** A Return for another question fails the client, and the peer is told. */
  lemma WrongAnswerFails(c: Client, frame: Bytes, o: Obj)
    requires Awaiting(c.state) && Carries(frame, o) && Readable(o)
    requires IsMessage(o, 3) && Num(Slot(o, 0), 0, 4) != Question(c.state)
    ensures Receive(c, frame) == Done(c.(state := Failed, error := ErrState), ErrState, [AbortPeer])
  {
    hide Init, Root, Field, UInt, Data, Shows, Own, Weight, CapnpSafety.Sound;
    var body := ReachesBody(frame, o, 3);
    WeightIsOwn(Slot(o, 0));
    ReadNum(body.r, body.v, Slot(o, 0), 0, 4);
    var answer := UInt(body.r, body.v, 0, 4);
    ReadNum(answer.r, body.v, Slot(o, 0), 6, 2);
    NumFits(Slot(o, 0), 0);
  }

  lemma NumFits(o: Obj, byte: nat)
    ensures Num(o, byte, 4) < U32
  {
    if o.Record? && byte + 4 <= |o.data| {
      LeBound(o.data[byte..byte + 4]);
      Pow256Values();
    }
  }

  /** An Abort of the peer fails the client, and nothing is sent. */
  lemma AbortFails(c: Client, frame: Bytes, o: Obj)
    requires !Inactive(c.state) && Carries(frame, o) && Readable(o) && IsMessage(o, 1)
    ensures Receive(c, frame).c.state == Failed && Receive(c, frame).sent == []
  {
    hide Init, Root, Field, UInt, Data, Shows, Own, Weight, CapnpSafety.Sound;
    var body := ReachesBody(frame, o, 1);
  }
}
