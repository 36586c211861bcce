/** The HTTP/2 admission layer: a fixed slot table driven by the engine's callbacks and the application's calls. */
module Admission {
  import opened Core
  import HeaderCodec

  const APPLICATION_MAX: nat := 4
  const SLOTS: nat := APPLICATION_MAX + 2
  const HEADER_MAX: nat := 48
  const HEADER_BYTES: nat := 8192
  const IDLE_MS: nat := 15000

  datatype Kind = Http | Control | Config

  /** One stream slot; id 0 is a free slot. */
  datatype Slot = Slot(id: int, kind: Kind, done: bool, response: bool, reset: bool, progress: nat)

  const FREE := Slot(0, Http, false, false, false, 0)

  datatype Header = Header(name: string, value: string)

  /** What the application sees of a stream, or does to it. */
  datatype What = Opened | Requested | Responded | Closed
  datatype Event = Event(id: int, what: What)

  /**
   * The session. `halted` means a callback reported failure, after which the engine calls none;
   * `last` is the greatest request stream the peer has opened, and `log` the history of events.
   */
  datatype Session = Session(
    limit: nat, slots: seq<Slot>, active: int, rejected: nat, headers: seq<Header>, used: int, headerStream: int,
    error: Code, now: nat, peer: Peer, halted: bool, last: int, log: seq<Event>)

  /** What the peer has told about the connection as a whole. */
  datatype Peer = Peer(settings: bool, goaway: bool, goawayError: nat, peerError: nat, peerLast: int)

  const QUIET := Peer(false, false, 0, 0, 0)

  function Fresh(limit: nat): Session
  {
    Session(limit, [FREE, FREE, FREE, FREE, FREE, FREE], 0, 0, [], 0, 0, Ok, 0, QUIET, false, 0, [])
  }

  // ---- the slot table

  function FindFrom(slots: seq<Slot>, id: int, i: nat): (r: Option<nat>)
    requires i <= |slots|
    ensures r.Some? ==> i <= r.value < |slots| && slots[r.value].id == id
    ensures r.Some? ==> forall j :: i <= j < r.value ==> slots[j].id != id
    ensures r.None? ==> forall j :: i <= j < |slots| ==> slots[j].id != id
    decreases |slots| - i
  {
    if i == |slots| then None else if slots[i].id == id then Some(i) else FindFrom(slots, id, i + 1)
  }

  /** The slot of a stream, or a free slot for id 0. */
  function Find(slots: seq<Slot>, id: int): (r: Option<nat>)
    ensures r.Some? ==> r.value < |slots| && slots[r.value].id == id
    ensures r.None? ==> forall j :: 0 <= j < |slots| ==> slots[j].id != id
  {
    FindFrom(slots, id, 0)
  }

  /** What is counted: every occupied slot, or the admitted streams of a kind that were not reset. */
  datatype Group = Occupied | Admitted(kind: Kind)

  predicate In(s: Slot, g: Group)
  {
    s.id != 0 && (g.Occupied? || (s.done && !s.reset && s.kind == g.kind))
  }

  function Count(slots: seq<Slot>, g: Group): (n: nat)
    ensures n <= |slots|
  {
    if slots == [] then 0 else Count(slots[..|slots| - 1], g) + if In(slots[|slots| - 1], g) then 1 else 0
  }

  function Limit(applications: nat, k: Kind): nat { if k == Http then applications else 1 }

  lemma {:induction false} CountUpdate(slots: seq<Slot>, i: nat, s: Slot, g: Group)
    requires i < |slots|
    ensures Count(slots[i := s], g) == Count(slots, g) - (if In(slots[i], g) then 1 else 0)
        + (if In(s, g) then 1 else 0)
  {
    var n := |slots| - 1;
    if i == n {
      assert slots[i := s][..n] == slots[..n];
    } else {
      CountUpdate(slots[..n], i, s, g);
      assert slots[i := s][..n] == slots[..n][i := s];
    }
  }

  // ---- operations the application may call

  datatype Done = Done(w: Session, code: Code)

  /** Whether the engine takes a reset frame; it refuses stream 0. */
  predicate Submits(id: int, submitOk: bool) { submitOk && id != 0 }

  function Next32(n: nat): nat { (n + 1) % U32 }

  function Reset(w: Session, id: int, submitOk: bool): (r: Done)
    ensures |r.w.slots| == |w.slots|
  {
    var at := Find(w.slots, id);
    if at.Some? && w.slots[at.value].reset then Done(w, Ok)
    else if !Submits(id, submitOk) then Done(w.(error := ErrMemory), ErrMemory)
    else
      Done(w.(rejected := Next32(w.rejected),
              slots := if at.Some? then w.slots[at.value := w.slots[at.value].(reset := true)] else w.slots), Ok)
  }

  /** "content-length" and "Content-Length". */
  const LENGTH_NAMES: seq<Bytes> := [
    [99, 111, 110, 116, 101, 110, 116, 45, 108, 101, 110, 103, 116, 104],
    [67, 111, 110, 116, 101, 110, 116, 45, 76, 101, 110, 103, 116, 104]]

  /** How many headers give the length of the content. */
  function LengthFields(fields: seq<HeaderCodec.Header>): nat
  {
    if fields == [] then 0
    else LengthFields(fields[..|fields| - 1]) + if fields[|fields| - 1].name in LENGTH_NAMES then 1 else 0
  }

  /** The verdict on response headers: they must serialize, and give at most one content length. */
  function FieldsCode(fields: seq<HeaderCodec.Header>): Code
  {
    var code := HeaderCodec.EncodeCode(fields, HeaderCodec.WIRE_MAX);
    if code != Ok then code else if LengthFields(fields) > 1 then ErrFormat else Ok
  }

  function Respond(w: Session, id: int, status: nat, fields: seq<HeaderCodec.Header>, submitOk: bool): (r: Done)
    ensures |r.w.slots| == |w.slots|
  {
    var at := Find(w.slots, id);
    if status < 200 || status > 599 then Done(w, ErrArgument)
    else if at.None? || !MayRespond(w.slots[at.value]) then Done(w, ErrState)
    else if FieldsCode(fields) != Ok then Done(w, FieldsCode(fields))
    else if !submitOk then Done(w, ErrMemory)
    else Done(Responds(w, at.value), Ok)
  }

  predicate MayRespond(s: Slot) { s.done && !s.response && !s.reset }

  function Responds(w: Session, i: nat): Session
    requires i < |w.slots|
  {
    w.(slots := w.slots[i := w.slots[i].(response := true)], log := w.log + [Event(w.slots[i].id, Responded)])
  }

  datatype Call =
    | CallReset(id: int, submitOk: bool)
    | CallRespond(id: int, status: nat, fields: seq<HeaderCodec.Header>, submitOk: bool)

  function Make(w: Session, c: Call): (r: Session)
    ensures |r.slots| == |w.slots|
  {
    match c
    case CallReset(id, ok) => Reset(w, id, ok).w
    case CallRespond(id, status, fields, ok) => Respond(w, id, status, fields, ok).w
  }

  /** The calls an application makes while a callback of its own runs. */
  function MakeAll(w: Session, calls: seq<Call>): (r: Session)
    ensures |r.slots| == |w.slots|
  {
    if calls == [] then w else Make(MakeAll(w, calls[..|calls| - 1]), calls[|calls| - 1])
  }

  /** How a callback of the application answers: the calls it makes on the way, and its verdict. */
  datatype Answer = Answer(calls: seq<Call>, ok: bool)

  // ---- callbacks of the engine

  /** Reset from inside a callback: the callback fails when the reset does. */
  function Refuse(w: Session, id: int, submitOk: bool): Session
  {
    var r := Reset(w, id, submitOk);
    if r.code == Ok then r.w else r.w.(halted := true)
  }

  function BeginHeaders(v: Session, id: int, request: bool, submitOk: bool): Session
  {
    var w := v.(headerStream := 0, last := if request then id else v.last);
    if !request then Refuse(w, id, submitOk)
    else
      var at := Find(w.slots, 0);
      if at.None? then Refuse(w, id, submitOk) else Occupy(w, at.value, id)
  }

  function Occupy(w: Session, i: nat, id: int): Session
    requires i < |w.slots|
  {
    w.(slots := w.slots[i := Slot(id, Http, false, false, false, w.now)], active := w.active + 1,
       headerStream := id, headers := [], used := 0, log := w.log + [Event(id, Opened)])
  }

  const UPGRADE: string := "cf-cloudflared-proxy-connection-upgrade"
  const CONTROL_PREFIX: string := "cf-cloudflared-"

  /** A pseudo field or a connector field, which decide routing. */
  predicate Decides(name: string)
  {
    (name != [] && name[0] == ':') || (|name| >= 15 && name[..15] == CONTROL_PREFIX)
  }

  predicate HasName(headers: seq<Header>, name: string) { exists i :: 0 <= i < |headers| && headers[i].name == name }

  predicate Room(w: Session, name: string, value: string)
  {
    |w.headers| != HEADER_MAX && |name| <= HEADER_BYTES - w.used && |value| <= HEADER_BYTES - w.used - |name|
  }

  function OnHeader(w: Session, id: int, name: string, value: string, submitOk: bool): Session
  {
    if w.headerStream != id then w
    else if !Room(w, name, value) || (Decides(name) && HasName(w.headers, name)) then
      Refuse(w.(headerStream := 0), id, submitOk)
    else w.(headers := w.headers + [Header(name, value)], used := w.used + |name| + |value|)
  }

  /** The value of the first header of that name, or nothing. */
  function Lookup(headers: seq<Header>, name: string): string
  {
    if headers == [] then [] else if headers[0].name == name then headers[0].value else Lookup(headers[1..], name)
  }

  function KindOf(headers: seq<Header>): Option<Kind>
  {
    var upgrade := Lookup(headers, UPGRADE);
    if upgrade == "control-stream" then Some(Control)
    else if upgrade == "update-configuration" then Some(Config)
    else if upgrade != [] then None
    else Some(Http)
  }

  datatype FrameType =
    | HeadersFrame
    | DataFrame
    | SettingsFrame(ack: bool)
    | GoawayFrame(error: nat, lastStream: int)
    | OtherFrame

  /** Headers and data belong to a stream. */
  predicate OfStream(t: FrameType) { t.HeadersFrame? || t.DataFrame? }

  /** What a frame says about the connection. */
  function Noted(p: Peer, t: FrameType): Peer
  {
    match t
    case SettingsFrame(ack) => if ack then p else p.(settings := true)
    case GoawayFrame(error, lastStream) =>
      p.(goaway := true, goawayError := error, peerError := error, peerLast := lastStream)
    case _ => p
  }

  /** Everything outside that a received frame meets. */
  datatype Weather = Weather(request: Answer, data: Answer, refuseOk: bool, cancelOk: bool)

  function ReceivedFrame(w: Session, id: int, t: FrameType, end: bool, env: Weather): Session
  {
    OnStream(w.(peer := Noted(w.peer, t)), id, t, end, env)
  }

  function OnStream(w: Session, id: int, t: FrameType, end: bool, env: Weather): Session
  {
    var at := Find(w.slots, id);
    if at.None? || w.slots[at.value].reset then w
    else if t == HeadersFrame && w.headerStream == id then
      match KindOf(w.headers)
      case None => Refuse(w, id, env.refuseOk)
      case Some(kind) =>
        var v := WithKind(w, at.value, kind);
        if Count(v.slots, Admitted(kind)) >= Limit(w.limit, kind) then Refuse(v, id, env.refuseOk)
        else
          var u := MakeAll(Admit(v, at.value), env.request.calls);
          if !env.request.ok then Refuse(u, id, env.refuseOk)
          else Ending(Wiped(u), id, t, end, env)
    else Ending(w, id, t, end, env)
  }

  function WithKind(w: Session, i: nat, kind: Kind): Session
    requires i < |w.slots|
  {
    w.(slots := w.slots[i := w.slots[i].(kind := kind)])
  }

  function Admit(w: Session, i: nat): Session
    requires i < |w.slots|
  {
    w.(slots := w.slots[i := w.slots[i].(done := true)], log := w.log + [Event(w.slots[i].id, Requested)])
  }

  function Blank(s: string): string { if s == [] then [] else ['\0'] + Blank(s[1..]) }

  function Blanks(headers: seq<Header>): (r: seq<Header>)
    ensures |r| == |headers|
  {
    if headers == [] then []
    else
      Blanks(headers[..|headers| - 1])
      + [Header(Blank(headers[|headers| - 1].name), Blank(headers[|headers| - 1].value))]
  }

  /** The scratch area is zeroed once the request callback has seen it. */
  function Wiped(w: Session): Session { w.(headers := Blanks(w.headers), headerStream := 0) }

  /** The end of the stream is delivered as an empty last piece of data. */
  function Ending(w: Session, id: int, t: FrameType, end: bool, env: Weather): Session
  {
    if !OfStream(t) || !end then w
    else
      var u := MakeAll(w, env.data.calls);
      if env.data.ok then u else Refuse(u, id, env.cancelOk)
  }

  /** Data in pieces, each answered by the application; the first refusal cancels the stream and drops the rest. */
  function Deliver(w: Session, id: int, answers: seq<Answer>, cancelOk: bool): Session
    decreases |answers|
  {
    if answers == [] then w
    else
      var u := MakeAll(w, answers[0].calls);
      if answers[0].ok then Deliver(u, id, answers[1..], cancelOk) else Refuse(u, id, cancelOk)
  }

  const CHUNK: nat := 2048

  /** How many pieces a payload is cut into. */
  function Pieces(len: nat): nat { (len + CHUNK - 1) / CHUNK }

  function ReceivedData(w: Session, id: int, answers: seq<Answer>, cancelOk: bool, consumeOk: bool): Session
  {
    var at := Find(w.slots, id);
    if at.None? || w.slots[at.value].reset then w.(halted := !consumeOk || w.halted)
    else
      var u := Deliver(w, id, answers, cancelOk);
      if u.halted then u else Progressed(u, at.value).(halted := !consumeOk)
  }

  function Progressed(w: Session, i: nat): Session
  {
    if i < |w.slots| then w.(slots := w.slots[i := w.slots[i].(progress := w.now)]) else w
  }

  /** The application is told, and may still call; its callback done, the slot is free. */
  function ClosedStream(w: Session, id: int, calls: seq<Call>): Session
  {
    var at := Find(w.slots, id);
    if at.None? then w else Vacate(MakeAll(w, calls), at.value)
  }

  function Vacate(w: Session, i: nat): Session
    requires i < |w.slots|
  {
    w.(slots := w.slots[i := FREE], active := w.active - 1, log := w.log + [Event(w.slots[i].id, Closed)])
  }

  // ---- time and the end

  predicate Idle(s: Slot, now: nat)
  {
    s.id != 0 && !s.reset && (!s.done || s.kind != Control) && now >= s.progress && now - s.progress > IDLE_MS
  }

  function TickFrom(w: Session, i: nat, submits: nat -> bool): Session
    decreases |w.slots| - i
  {
    if i >= |w.slots| then w
    else
      TickFrom(if Idle(w.slots[i], w.now) then Reset(w, w.slots[i].id, submits(i)).w else w, i + 1, submits)
  }

  function Tick(w: Session, now: nat, submits: nat -> bool): Session { TickFrom(w.(now := now), 0, submits) }

  /** Every stream still in a slot is reported closed, in slot order. */
  function Farewells(slots: seq<Slot>): seq<Event>
  {
    if slots == [] then []
    else
      var s := slots[|slots| - 1];
      Farewells(slots[..|slots| - 1]) + if s.id != 0 then [Event(s.id, Closed)] else []
  }

  function Destroy(w: Session): seq<Event> { w.log + Farewells(w.slots) }
}
