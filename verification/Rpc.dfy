/** The registration RPC client: what each operation does to its state and which messages it sends. */
module Rpc {
  import opened Core
  import opened CapnpReader
  import opened RpcMessages

  datatype State = Idle | Bootstrapping | ReadyToRegister | Registering | Registered | Unregistering | Closed
                 | Rejected | Failed

  datatype Client = Client(state: State, capability: nat, haveCapability: bool, remotelyManaged: bool,
                           shouldRetry: bool, retryAfterMs: nat, connectionId: Bytes, location: Bytes, error: Code)

  const FRESH := Client(Idle, 0, false, false, false, 0, [0, 0, 0, 0, 0, 0, 0, 0, 0, 0, 0, 0, 0, 0, 0, 0], [], Ok)
  const LOCATION_MAX := 31

  /** The client afterwards, the code returned and the messages written. */
  datatype Done = Done(c: Client, code: Code, sent: seq<Msg>)

  predicate Inactive(s: State) { s == Idle || s == Failed || s == Closed || s == Rejected }

  predicate Typed(c: Client) { c.capability < U32 }

  // ---- operations

  function Begin(c: Client): Done
  {
    if c.state != Idle then Done(c, ErrState, []) else Done(c.(state := Bootstrapping), Ok, [Bootstrap])
  }

  function Register(c: Client, cred: Credentials, opt: Options): Done
  {
    if c.state != ReadyToRegister || !c.haveCapability then Done(c, ErrState, [])
    else if !Registrable(cred, opt) then Done(c, ErrArgument, [])
    else Done(c.(state := Registering), Ok, [CallRegister(c.capability, cred, opt)])
  }

  function Unregister(c: Client): Done
  {
    if c.state != Registered || !c.haveCapability then Done(c, ErrState, [])
    else Done(c.(state := Unregistering), Ok, [CallUnregister(c.capability)])
  }

  /** Gives up; the peer is told unless it aborted first. */
  function GiveUp(c: Client, code: Code, abort: bool): Done
  {
    Done(c.(state := Failed, error := code), code, if abort then [AbortPeer] else [])
  }

  // ---- decoding a return

  /** A value that must be a struct. */
  function Need(g: Got): Got
  {
    if !g.v.StructValue? && g.r.error == Ok then Got(Fail(g.r, ErrFormat), g.v) else g
  }

  /** A decoder's verdict: the client it leaves, its own code, and the reader. */
  datatype Decoded = Decoded(c: Client, code: Code, r: Reader)

  function BootstrapResult(c: Client, r: Reader, payload: Value): Decoded
  {
    var content := Field(r, payload, 0);
    var caps := Field(content.r, payload, 1);
    if !(content.v.CapValue? && caps.v.ListValue? && caps.v.elementSize == 7 && caps.v.count == 1
        && content.v.cap == 0) then
      Decoded(c, ErrUnsupported, caps.r)
    else
      var desc := At(caps.r, caps.v, 0);
      var kind := UInt(desc.r, desc.v, 0, 2);
      if kind.n != 1 then Decoded(c, ErrUnsupported, kind.r) else
        var cap := UInt(kind.r, desc.v, 4, 4);
        var d := c.(capability := cap.n % U32);
        if cap.r.error != Ok then Decoded(d, cap.r.error, cap.r)
        else Decoded(d.(haveCapability := true, state := ReadyToRegister), Ok, cap.r)
  }

  /** Signed nanoseconds to whole milliseconds, rounded up; negative means no delay. */
  function RetryMs(ns: nat): nat
  {
    if ns / 0x8000_0000_0000_0000 != 0 then 0 else ns / 1000000 + if ns % 1000000 != 0 then 1 else 0
  }

  function RejectionResult(c: Client, r: Reader, details: Value): Decoded
  {
    var ns := UInt(r, details, 0, 8);
    var cause := Field(ns.r, details, 0);
    var text := Data(cause.r, cause.v, true);
    var retry := UInt(text.r, details, 8, 1);
    var d := c.(shouldRetry := retry.n % 2 == 1, retryAfterMs := RetryMs(ns.n));
    if retry.r.error != Ok then Decoded(d, retry.r.error, retry.r) else Decoded(d.(state := Rejected), Ok, retry.r)
  }

  function AcceptanceResult(c: Client, r: Reader, details: Value): Decoded
  {
    var i := Field(r, details, 0);
    var id := Data(i.r, i.v, false);
    var l := Field(id.r, details, 1);
    var location := Data(l.r, l.v, true);
    var managed := UInt(location.r, details, 0, 1);
    var d := c.(remotelyManaged := managed.n % 2 == 1);
    if managed.r.error != Ok then Decoded(d, managed.r.error, managed.r)
    else if |id.b| != 16 || !Ascii(location.b, LOCATION_MAX) then Decoded(d, ErrFormat, managed.r)
    else if !d.remotelyManaged then Decoded(d, ErrUnsupported, managed.r)
    else Decoded(d.(connectionId := id.b, location := location.b, state := Registered), Ok, managed.r)
  }

  function RegistrationResult(c: Client, r: Reader, payload: Value): Decoded
  {
    var results := Need(Field(r, payload, 0));
    var response := Need(Field(results.r, results.v, 0));
    var kind := UInt(response.r, response.v, 0, 2);
    var details := Need(Field(kind.r, response.v, 0));
    if details.r.error != Ok then Decoded(c, details.r.error, details.r)
    else if kind.n == 0 then RejectionResult(c, details.r, details.v)
    else if kind.n != 1 then Decoded(c, ErrUnsupported, details.r)
    else AcceptanceResult(c, details.r, details.v)
  }

  function UnregistrationResult(c: Client, r: Reader, payload: Value): Decoded
  {
    var content := Field(r, payload, 0);
    Decoded(c.(state := Closed), if content.v.NullValue? || content.v.StructValue? then Ok else ErrFormat, content.r)
  }

  function Question(s: State): nat { if s == Bootstrapping then 0 else if s == Registering then 1 else 2 }

  predicate Awaiting(s: State) { s == Bootstrapping || s == Registering || s == Unregistering }

  function DecodePayload(c: Client, payload: Got): Decoded
  {
    if c.state == Bootstrapping then BootstrapResult(c, payload.r, payload.v) else
      var caps := Field(payload.r, payload.v, 1);
      if !caps.v.NullValue? && !(caps.v.ListValue? && caps.v.elementSize == 7 && caps.v.count == 0) then
        Decoded(c, ErrUnsupported, caps.r)
      else if c.state == Registering then RegistrationResult(c, caps.r, payload.v)
      else UnregistrationResult(c, caps.r, payload.v)
  }

  /** The results of the outstanding question: the next state and a Finish, or failure. */
  function Conclude(c: Client, d: Decoded): Done
  {
    var code := if d.r.error != Ok then d.r.error else d.code;
    if code != Ok then GiveUp(d.c, code, true)
    else if d.c.state == Closed then
      Done(d.c.(haveCapability := false), Ok,
          [Finish(Question(c.state), c.state != Bootstrapping), ReleaseCap(d.c.capability)])
    else Done(d.c, Ok, [Finish(Question(c.state), c.state != Bootstrapping)])
  }

  /** A remote exception: the question is finished, the client fails. */
  function RaiseRemote(c: Client, r: Reader, ret: Value, answer: nat): Done
  {
    var ex := Need(Field(r, ret, 0));
    var reason := Field(ex.r, ex.v, 0);
    var text := Data(reason.r, reason.v, true);
    var code := if text.r.error == Ok then ErrState else text.r.error;
    Done(c.(state := Failed, error := code), code, [Finish(answer, true)])
  }

  function HandleReturn(c: Client, r: Reader, ret: Value): Done
  {
    var answer := UInt(r, ret, 0, 4);
    var kind := UInt(answer.r, ret, 6, 2);
    if kind.r.error != Ok then GiveUp(c, kind.r.error, true)
    else if answer.n % U32 != Question(c.state) then GiveUp(c, ErrState, true)
    else if kind.n == 1 then RaiseRemote(c, kind.r, ret, answer.n % U32)
    else if kind.n != 0 then GiveUp(c, ErrUnsupported, true)
    else Conclude(c, DecodePayload(c, Need(Field(kind.r, ret, 0))))
  }

  function HandleAbort(c: Client, r: Reader, body: Value): Done
  {
    var reason := Field(r, body, 0);
    var text := Data(reason.r, reason.v, true);
    GiveUp(c, if text.r.error == Ok then ErrState else text.r.error, false)
  }

  function Receive(c: Client, frame: Bytes): Done
  {
    if Inactive(c.state) then Done(c, ErrState, [])
    else if Init(frame).error != Ok then GiveUp(c, Init(frame).error, true)
    else
      var root := Need(Root(Init(frame)));
      var kind := UInt(root.r, root.v, 0, 2);
      var body := Need(Field(kind.r, root.v, 0));
      if body.r.error != Ok then GiveUp(c, body.r.error, true)
      else if kind.n == 1 then HandleAbort(c, body.r, body.v)
      else if kind.n != 3 then GiveUp(c, ErrUnsupported, true)
      else if !Awaiting(c.state) then GiveUp(c, ErrState, true)
      else HandleReturn(c, body.r, body.v)
  }

  // ---- one operation

  /** The legal edges of a successful receive. */
  predicate LegalEdge(before: State, after: State)
  {
    || (before == Bootstrapping && after == ReadyToRegister)
    || (before == Registering && (after == Registered || after == Rejected))
    || (before == Unregistering && after == Closed)
  }

  /** What a decoder may do to a client that awaits an answer. */
  predicate DecodedWell(c: Client, d: Decoded)
  {
    && Typed(d.c) && (d.code == Ok ==> LegalEdge(c.state, d.c.state))
    && (d.c.haveCapability <==> c.haveCapability || d.c.state == ReadyToRegister)
    && (d.c.state == ReadyToRegister ==> d.code == Ok && d.r.error == Ok)
    && (c.state != Bootstrapping ==> d.c.capability == c.capability)
  }

  lemma DecodeEdges(c: Client, payload: Got)
    requires Awaiting(c.state) && Typed(c)
    ensures DecodedWell(c, DecodePayload(c, payload))
  {
    hide Field, At, UInt, Data, Ascii, RetryMs, Need;
  }

  /** OK along a legal edge, with exactly its Finish and, on closing, the Release. */
  predicate Succeeded(c: Client, d: Done)
  {
    && d.code == Ok && Awaiting(c.state) && LegalEdge(c.state, d.c.state)
    && d.sent == [Finish(Question(c.state), c.state != Bootstrapping)]
                 + (if d.c.state == Closed then [ReleaseCap(c.capability)] else [])
    && (d.c.haveCapability <==> (c.haveCapability || c.state == Bootstrapping) && d.c.state != Closed)
    && (c.state != Bootstrapping ==> d.c.capability == c.capability)
  }

  /** FAILED, having sent nothing, one Abort, or one Finish for a remote exception. */
  predicate FailedOnce(c: Client, d: Done)
  {
    && d.code != Ok && d.c.state == Failed && d.c.error == d.code && d.c.haveCapability == c.haveCapability
    && (d.sent == [] || d.sent == [AbortPeer] || (Awaiting(c.state) && d.sent == [Finish(Question(c.state), true)]))
    && (c.state != Bootstrapping ==> d.c.capability == c.capability)
  }

  lemma ConcludeEdges(c: Client, d: Decoded)
    requires Awaiting(c.state) && Typed(c) && DecodedWell(c, d)
    ensures Typed(Conclude(c, d).c) && (Succeeded(c, Conclude(c, d)) || FailedOnce(c, Conclude(c, d)))
  {
    var e := Conclude(c, d);
    if e.code == Ok && e.c.state != Closed { assert e.sent + [] == e.sent; }
  }

  lemma ReturnEdges(c: Client, r: Reader, ret: Value)
    requires Typed(c) && Awaiting(c.state)
    ensures Typed(HandleReturn(c, r, ret).c)
    ensures Succeeded(c, HandleReturn(c, r, ret)) || FailedOnce(c, HandleReturn(c, r, ret))
  {
    hide Field, At, UInt, Data, Need, DecodePayload, Succeeded, FailedOnce, Conclude, DecodedWell, GiveUp, RaiseRemote,
        Typed;
    var answer := UInt(r, ret, 0, 4);
    var kind := UInt(answer.r, ret, 6, 2);
    var payload := Need(Field(kind.r, ret, 0));
    if kind.r.error != Ok {
      GiveUpFails(c, kind.r.error, true);
    } else if answer.n % U32 != Question(c.state) {
      GiveUpFails(c, ErrState, true);
    } else if kind.n == 1 {
      RaiseFails(c, kind.r, ret);
    } else if kind.n != 0 {
      GiveUpFails(c, ErrUnsupported, true);
    } else {
      DecodeEdges(c, payload);
      ConcludeEdges(c, DecodePayload(c, payload));
    }
  }

  lemma GiveUpFails(c: Client, code: Code, abort: bool)
    requires code != Ok && Typed(c)
    ensures Typed(GiveUp(c, code, abort).c) && FailedOnce(c, GiveUp(c, code, abort))
  {
  }

  lemma RaiseFails(c: Client, r: Reader, ret: Value)
    requires Typed(c) && Awaiting(c.state)
    ensures Typed(RaiseRemote(c, r, ret, Question(c.state)).c)
        && FailedOnce(c, RaiseRemote(c, r, ret, Question(c.state)))
  {
    hide Field, Data, Need;
  }

  /** An inactive client refuses; an active one returns OK along a legal edge or ends in FAILED. */
  lemma ReceiveEdges(c: Client, frame: Bytes)
    requires Typed(c)
    ensures Typed(Receive(c, frame).c)
    ensures Inactive(c.state) ==> Receive(c, frame) == Done(c, ErrState, [])
    ensures !Inactive(c.state) ==> Succeeded(c, Receive(c, frame)) || FailedOnce(c, Receive(c, frame))
  {
    hide Field, At, UInt, Data, Need, Root, Init, HandleReturn, Succeeded;
    if !Inactive(c.state) && Init(frame).error == Ok {
      var root := Need(Root(Init(frame)));
      var kind := UInt(root.r, root.v, 0, 2);
      var body := Need(Field(kind.r, root.v, 0));
      if body.r.error == Ok && kind.n == 3 && Awaiting(c.state) {
        ReturnEdges(c, body.r, body.v);
      }
    }
  }

  // ---- whole runs

  datatype Op = OpBegin | OpRegister(cred: Credentials, opt: Options) | OpUnregister | OpReceive(frame: Bytes)

  function Apply(c: Client, op: Op): Done
  {
    match op
    case OpBegin => Begin(c)
    case OpRegister(cred, opt) => Register(c, cred, opt)
    case OpUnregister => Unregister(c)
    case OpReceive(frame) => Receive(c, frame)
  }

  /** A client and everything it has sent. */
  datatype Run = Run(c: Client, sent: seq<Msg>)

  function RunOf(ops: seq<Op>): Run
  {
    if ops == [] then Run(FRESH, []) else
      var before := RunOf(ops[..|ops| - 1]);
      var d := Apply(before.c, ops[|ops| - 1]);
      Run(d.c, before.sent + d.sent)
  }

  function Labels(ms: seq<Msg>): (l: seq<Label>)
    ensures |l| == |ms|
  {
    seq(|ms|, i requires 0 <= i < |ms| => LabelOf(ms[i]))
  }

  /** The whole conversation. */
  const SCRIPT := [LBootstrap, LFinish(0), LCall(1), LFinish(1), LCall(2), LFinish(2), LRelease]

  /** How much of the script a state has behind it. */
  function Stage(s: State): (k: nat)
    ensures k <= |SCRIPT|
  {
    match s
    case Idle => 0
    case Bootstrapping => 1
    case ReadyToRegister => 2
    case Registering => 3
    case Registered => 4
    case Rejected => 4
    case Unregistering => 5
    case Closed => 7
    case Failed => 0
  }

  /** Every call and the release name the capability that was imported. */
  predicate Names(c: Client, m: Msg)
  {
    match m
    case CallRegister(cap, cred, opt) => cap == c.capability && Registrable(cred, opt)
    case CallUnregister(cap) => cap == c.capability
    case ReleaseCap(cap) => cap == c.capability
    case _ => true
  }

  predicate NamesAll(c: Client, ms: seq<Msg>) { forall i :: 0 <= i < |ms| ==> Names(c, ms[i]) }

  /** k messages of the script, then at most one message that ends the conversation early. */
  predicate CutShort(l: seq<Label>, k: nat)
  {
    k <= 5 && (l == SCRIPT[..k] || l == SCRIPT[..k] + [LAbort]
        || (k in [1, 3, 5] && l == SCRIPT[..k] + [LFinish((k - 1) / 2)]))
  }

  /** What every reachable run satisfies. */
  ghost predicate OnScript(run: Run)
  {
    && Typed(run.c) && NamesAll(run.c, run.sent)
    && (run.c.state != Failed ==>
          Labels(run.sent) == SCRIPT[..Stage(run.c.state)] && (run.c.haveCapability <==> 2 <= Stage(run.c.state) < 7))
    && (run.c.state == Failed ==>
          exists k: nat :: CutShort(Labels(run.sent), k) && (run.c.haveCapability <==> 2 <= k))
  }

  lemma LabelsAppend(a: seq<Msg>, b: seq<Msg>)
    ensures Labels(a + b) == Labels(a) + Labels(b)
  {
  }

  lemma NextLabels(k: nat)
    requires k < |SCRIPT|
    ensures SCRIPT[..k + 1] == SCRIPT[..k] + [SCRIPT[k]]
  {
  }

  lemma BootstrapOnly(sent: seq<Msg>)
    requires Labels(sent) == SCRIPT[..1]
    ensures sent == [Bootstrap]
  {
    assert |sent| == 1 && LabelOf(sent[0]) == Labels(sent)[0] == LBootstrap;
  }

  /** A step along the script: the messages of the step carry the next labels. */
  lemma Onward(run: Run, c: Client, more: seq<Msg>)
    requires OnScript(run) && run.c.state != Failed && c.state != Failed && Typed(c)
    requires Stage(run.c.state) + |more| == Stage(c.state) && Labels(more) == SCRIPT[Stage(run.c.state)..Stage(c.state)]
    requires NamesAll(c, more) && (c.capability == run.c.capability || run.sent == [Bootstrap])
    requires c.haveCapability <==> 2 <= Stage(c.state) < 7
    ensures OnScript(Run(c, run.sent + more))
  {
    LabelsAppend(run.sent, more);
    Adjacent(SCRIPT, 0, Stage(run.c.state), Stage(c.state));
    forall i | 0 <= i < |run.sent + more| ensures Names(c, (run.sent + more)[i]) {
      if i < |run.sent| {
        assert Names(run.c, run.sent[i]);
      } else {
        assert Names(c, more[i - |run.sent|]);
      }
    }
  }

  lemma SucceededLabels(c: Client, d: Done)
    requires Succeeded(c, d)
    ensures Stage(c.state) + |d.sent| == Stage(d.c.state) && Labels(d.sent) == SCRIPT[Stage(c.state)..Stage(d.c.state)]
    ensures NamesAll(d.c, d.sent)
  {
    if c.state == Bootstrapping {
      assert SCRIPT[1..2] == [LFinish(0)];
    } else if c.state == Registering {
      assert SCRIPT[3..4] == [LFinish(1)];
    } else {
      assert SCRIPT[5..7] == [LFinish(2), LRelease];
      assert d.sent == [Finish(2, true), ReleaseCap(c.capability)];
    }
  }

  lemma ReceiveOnward(run: Run, frame: Bytes)
    requires OnScript(run) && !Inactive(run.c.state) && Succeeded(run.c, Receive(run.c, frame))
        && Typed(Receive(run.c, frame).c)
    ensures OnScript(Run(Receive(run.c, frame).c, run.sent + Receive(run.c, frame).sent))
  {
    hide Receive, OnScript, Labels, NamesAll;
    var d := Receive(run.c, frame);
    Script(run);
    if run.c.state == Bootstrapping { BootstrapOnly(run.sent); }
    SucceededLabels(run.c, d);
    Onward(run, d.c, d.sent);
  }

  lemma Script(run: Run)
    requires OnScript(run) && run.c.state != Failed
    ensures Labels(run.sent) == SCRIPT[..Stage(run.c.state)] && (run.c.haveCapability <==> 2 <= Stage(run.c.state) < 7)
  {
  }

  lemma ReceiveFailed(run: Run, frame: Bytes)
    requires OnScript(run) && !Inactive(run.c.state) && FailedOnce(run.c, Receive(run.c, frame))
        && Typed(Receive(run.c, frame).c)
    ensures OnScript(Run(Receive(run.c, frame).c, run.sent + Receive(run.c, frame).sent))
  {
    hide Receive, OnScript, NamesAll, CutShort;
    var d, k := Receive(run.c, frame), Stage(run.c.state);
    Script(run);
    NamesAfter(run, d.c, d.sent);
    LabelsAppend(run.sent, d.sent);
    assert d.sent == [] ==> SCRIPT[..k] + [] == SCRIPT[..k];
    CutHere(Labels(run.sent + d.sent), run.c.state);
    FailedOnScript(Run(d.c, run.sent + d.sent), k);
  }

  lemma NamesAfter(run: Run, c: Client, more: seq<Msg>)
    requires OnScript(run) && run.c.state != Failed
        && (c.capability == run.c.capability || run.c.state == Bootstrapping)
    requires more == [] || more == [AbortPeer] || (|more| == 1 && more[0].Finish?)
    ensures NamesAll(c, run.sent + more)
  {
    if run.c.state == Bootstrapping { BootstrapOnly(run.sent); }
    forall i | 0 <= i < |run.sent + more| ensures Names(c, (run.sent + more)[i]) {
      if i < |run.sent| { assert Names(run.c, run.sent[i]); }
    }
  }

  lemma CutHere(l: seq<Label>, s: State)
    requires !Inactive(s)
    requires l == SCRIPT[..Stage(s)] || l == SCRIPT[..Stage(s)] + [LAbort]
             || (Awaiting(s) && l == SCRIPT[..Stage(s)] + [LFinish(Question(s))])
    ensures CutShort(l, Stage(s))
  {
  }

  lemma FailedOnScript(run: Run, k: nat)
    requires Typed(run.c) && NamesAll(run.c, run.sent) && run.c.state == Failed
    requires CutShort(Labels(run.sent), k) && (run.c.haveCapability <==> 2 <= k)
    ensures OnScript(run)
  {
  }

  lemma Unchanged(run: Run)
    requires OnScript(run)
    ensures OnScript(Run(run.c, run.sent + []))
  {
    assert run.sent + [] == run.sent;
  }

  lemma StepOnScript(run: Run, op: Op)
    requires OnScript(run)
    ensures OnScript(Run(Apply(run.c, op).c, run.sent + Apply(run.c, op).sent))
  {
    hide OnScript, Receive, Registrable, Succeeded, FailedOnce;
    Unchanged(run);
    assert Typed(run.c) by { OnScriptTyped(run); }
    match op {
      case OpReceive(frame) =>
        ReceiveEdges(run.c, frame);
        if !Inactive(run.c.state) {
          if Succeeded(run.c, Receive(run.c, frame)) { ReceiveOnward(run, frame); } else { ReceiveFailed(run, frame); }
        }
      case OpBegin =>
        if run.c.state == Idle { Script(run); Onward(run, Begin(run.c).c, [Bootstrap]); }
      case OpRegister(cred, opt) =>
        var d := Register(run.c, cred, opt);
        if d.code == Ok { Script(run); Onward(run, d.c, d.sent); }
      case OpUnregister =>
        var d := Unregister(run.c);
        if d.code == Ok { Script(run); Onward(run, d.c, d.sent); }
    }
  }

  lemma OnScriptTyped(run: Run)
    requires OnScript(run)
    ensures Typed(run.c)
  {
  }

  /** Over any operations and any incoming frames, what is sent follows the script, cut short at most once. */
  lemma {:induction false} EveryRunIsOnScript(ops: seq<Op>)
    ensures OnScript(RunOf(ops))
  {
    hide Apply;
    if ops != [] {
      EveryRunIsOnScript(ops[..|ops| - 1]);
      StepOnScript(RunOf(ops[..|ops| - 1]), ops[|ops| - 1]);
    }
  }

  predicate Final(s: State) { s == Failed || s == Rejected || s == Closed }

  /** FAILED, REJECTED and CLOSED are never left, and nothing is sent from them. */
  lemma FinalIsAbsorbing(c: Client, op: Op)
    requires Final(c.state)
    ensures Apply(c, op).c == c && Apply(c, op).sent == [] && Apply(c, op).code == ErrState
  {
  }
}
