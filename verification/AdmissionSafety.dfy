/** What every run of callbacks and calls keeps, whatever the peer, the application and the engine do. */
module AdmissionSafety {
  import opened Core
  import opened Admission
  import HeaderCodec

  // ---- the history of one stream

  function Story(log: seq<Event>, id: int): seq<What>
  {
    if log == [] then []
    else
      var e := log[|log| - 1];
      Story(log[..|log| - 1], id) + if e.id == id then [e.what] else []
  }

  lemma StoryMore(log: seq<Event>, e: Event, id: int)
    ensures Story(log + [e], id) == if e.id == id then Story(log, id) + [e.what] else Story(log, id)
  {
    assert (log + [e])[..|log|] == log;
  }

  /** What an occupied slot says has happened to its stream. */
  function Past(s: Slot): seq<What>
  {
    [Opened] + (if s.done then [Requested] else []) + if s.response then [Responded] else []
  }

  /** Opened, at most one request, at most one response after it, and closed once. */
  predicate Complete(story: seq<What>)
  {
    || story == [Opened, Closed]
    || story == [Opened, Requested, Closed]
    || story == [Opened, Requested, Responded, Closed]
  }

  predicate Absent(slots: seq<Slot>, id: int) { forall i :: 0 <= i < |slots| ==> slots[i].id != id }

  /** Every slot's stream has the past its flags record; every other stream is unknown or over. */
  ghost predicate Told(slots: seq<Slot>, log: seq<Event>, last: int)
  {
    && (forall i :: 0 <= i < |slots| && slots[i].id != 0 ==> Story(log, slots[i].id) == Past(slots[i]))
    && (forall id :: Absent(slots, id) ==> Story(log, id) == [] || Complete(Story(log, id)))
    && (forall id :: id <= 0 || id > last ==> Story(log, id) == [])
  }

  // ---- the invariant

  predicate WellSlot(s: Slot, last: int)
  {
    0 <= s.id <= last && (s.id == 0 ==> s == FREE) && (s.response ==> s.done)
  }

  predicate Distinct(slots: seq<Slot>)
  {
    forall i, j :: 0 <= i < j < |slots| && slots[i].id != 0 ==> slots[i].id != slots[j].id
  }

  predicate Table(slots: seq<Slot>, last: int)
  {
    |slots| == SLOTS && last >= 0 && Distinct(slots) && forall i :: 0 <= i < |slots| ==> WellSlot(slots[i], last)
  }

  predicate Tallied(slots: seq<Slot>, active: int, limit: nat)
  {
    && (limit == 2 || limit == 4)
    && active == Count(slots, Occupied)
    && Count(slots, Admitted(Http)) <= limit && Count(slots, Admitted(Control)) <= 1
        && Count(slots, Admitted(Config)) <= 1
  }

  function Size(headers: seq<Header>): nat
  {
    if headers == [] then 0
    else Size(headers[..|headers| - 1]) + |headers[|headers| - 1].name| + |headers[|headers| - 1].value|
  }

  /** No two stored headers that decide routing share a name. */
  predicate Unambiguous(headers: seq<Header>)
  {
    forall i, j :: 0 <= i < j < |headers| && Decides(headers[i].name) ==> headers[i].name != headers[j].name
  }

  predicate Scratch(headers: seq<Header>, used: int)
  {
    |headers| <= HEADER_MAX && used == Size(headers) <= HEADER_BYTES && Unambiguous(headers)
  }

  /** What application calls keep. */
  ghost predicate Steady(w: Session)
  {
    Table(w.slots, w.last) && Tallied(w.slots, w.active, w.limit) && Told(w.slots, w.log, w.last)
        && Scratch(w.headers, w.used)
  }

  /** The stream whose headers are being collected has not been handed to the application. */
  predicate Collecting(w: Session)
  {
    w.headerStream == 0 || forall i :: 0 <= i < |w.slots| && w.slots[i].id == w.headerStream ==>
        !w.slots[i].done || w.slots[i].reset
  }

  ghost predicate Sound(w: Session) { Steady(w) && (w.halted || Collecting(w)) }

  // ---- one slot changes

  lemma TableUpdate(slots: seq<Slot>, last: int, i: nat, s: Slot, later: int)
    requires Table(slots, last) && i < |slots| && last <= later && WellSlot(s, later)
    requires s.id == slots[i].id || s.id == 0 || s.id > last
    ensures Table(slots[i := s], later)
  {
    var more := slots[i := s];
    forall a, b | 0 <= a < b < |more| && more[a].id != 0 ensures more[a].id != more[b].id {
      assert WellSlot(slots[a], last) && WellSlot(slots[b], last);
    }
    forall a | 0 <= a < |more| ensures WellSlot(more[a], later) {
      assert WellSlot(slots[a], last);
    }
  }

  lemma TallyUpdate(slots: seq<Slot>, active: int, limit: nat, i: nat, s: Slot)
    requires i < |slots| && Tallied(slots, active, limit)
    requires forall k :: In(s, Admitted(k)) && !In(slots[i], Admitted(k)) ==>
        Count(slots, Admitted(k)) < Limit(limit, k)
    ensures Tallied(slots[i := s], active - (if slots[i].id != 0 then 1 else 0) + (if s.id != 0 then 1 else 0), limit)
  {
    hide Count;
    CountUpdate(slots, i, s, Occupied);
    CountUpdate(slots, i, s, Admitted(Http));
    CountUpdate(slots, i, s, Admitted(Control));
    CountUpdate(slots, i, s, Admitted(Config));
  }

  /** A change that tells nothing leaves the story as it was. */
  lemma ToldQuietly(slots: seq<Slot>, log: seq<Event>, last: int, i: nat, s: Slot)
    requires i < |slots| && Told(slots, log, last) && s.id == slots[i].id && Past(s) == Past(slots[i])
    ensures Told(slots[i := s], log, last)
  {
    hide Story, Past, Complete;
    var more := slots[i := s];
    forall id | Absent(more, id) ensures Story(log, id) == [] || Complete(Story(log, id)) {
      forall j | 0 <= j < |slots| ensures slots[j].id != id { assert more[j].id != id; }
      assert Absent(slots, id);
    }
  }

  /** The next event of a stream that stays in its slot. */
  lemma ToldMore(slots: seq<Slot>, log: seq<Event>, last: int, i: nat, s: Slot, what: What)
    requires Table(slots, last) && i < |slots| && Told(slots, log, last) && s.id == slots[i].id != 0
    requires Past(s) == Past(slots[i]) + [what]
    ensures Told(slots[i := s], log + [Event(s.id, what)], last)
  {
    hide Story, Past, Complete;
    var more, e := slots[i := s], Event(s.id, what);
    forall id ensures Story(log + [e], id) == if s.id == id then Story(log, id) + [what] else Story(log, id) {
      StoryMore(log, e, id);
    }
    assert WellSlot(slots[i], last);
    forall id | Absent(more, id) ensures Story(log + [e], id) == [] || Complete(Story(log + [e], id)) {
      assert more[i].id != id;
      forall j | 0 <= j < |slots| ensures slots[j].id != id { assert more[j].id != id; }
      assert Absent(slots, id);
    }
    forall j | 0 <= j < |more| && more[j].id != 0 ensures Story(log + [e], more[j].id) == Past(more[j]) {
      if j != i { assert slots[j].id != slots[i].id; }
    }
  }

  /** A fresh stream enters a free slot. */
  lemma ToldOpened(slots: seq<Slot>, log: seq<Event>, last: int, i: nat, s: Slot)
    requires Table(slots, last) && i < |slots| && Told(slots, log, last) && slots[i].id == 0 && s.id > last
    requires Past(s) == [Opened]
    ensures Told(slots[i := s], log + [Event(s.id, Opened)], s.id)
  {
    hide Story, Past, Complete;
    var more, e := slots[i := s], Event(s.id, Opened);
    forall id ensures Story(log + [e], id) == if s.id == id then Story(log, id) + [Opened] else Story(log, id) {
      StoryMore(log, e, id);
    }
    assert Story(log, s.id) == [];
    forall id | Absent(more, id) ensures Story(log + [e], id) == [] || Complete(Story(log + [e], id)) {
      assert more[i].id != id;
      if id != 0 {
        forall j | 0 <= j < |slots| ensures slots[j].id != id { if j != i { assert more[j].id != id; } }
        assert Absent(slots, id);
      }
    }
    forall j | 0 <= j < |more| && more[j].id != 0 ensures Story(log + [e], more[j].id) == Past(more[j]) {
      if j != i { assert WellSlot(slots[j], last); }
    }
  }

  /** A stream leaves its slot. */
  lemma ToldClosed(slots: seq<Slot>, log: seq<Event>, last: int, i: nat)
    requires Table(slots, last) && i < |slots| && Told(slots, log, last) && slots[i].id != 0
    ensures Told(slots[i := FREE], log + [Event(slots[i].id, Closed)], last)
  {
    hide Story, Past, Complete;
    var more, e := slots[i := FREE], Event(slots[i].id, Closed);
    forall id ensures Story(log + [e], id) == if e.id == id then Story(log, id) + [Closed] else Story(log, id) {
      StoryMore(log, e, id);
    }
    assert WellSlot(slots[i], last);
    PastThenClosed(slots[i]);
    forall id | Absent(more, id) ensures Story(log + [e], id) == [] || Complete(Story(log + [e], id)) {
      if id != slots[i].id {
        forall j | 0 <= j < |slots| ensures slots[j].id != id { if j != i { assert more[j].id != id; } }
        assert Absent(slots, id);
      }
    }
    forall j | 0 <= j < |more| && more[j].id != 0 ensures Story(log + [e], more[j].id) == Past(more[j]) {
      if j < i { assert slots[j].id != slots[i].id; }
      if i < j { assert slots[j].id != slots[i].id; }
    }
  }

  lemma PastThenClosed(s: Slot)
    requires s.response ==> s.done
    ensures Complete(Past(s) + [Closed])
  {
  }

  // ---- application calls

  predicate SameStream(s: Slot, t: Slot)
  {
    t.id == s.id && t.kind == s.kind && t.done == s.done && (s.reset ==> t.reset)
  }

  /** What no application call changes. */
  predicate Frozen(w: Session, u: Session)
  {
    && |u.slots| == |w.slots| && (forall i :: 0 <= i < |w.slots| ==> SameStream(w.slots[i], u.slots[i]))
    && u.headerStream == w.headerStream && u.halted == w.halted && u.last == w.last && u.now == w.now
  }

  /** One slot of a steady session changes, and its log grows by what the slot now records. */
  lemma ResetSteady(w: Session, id: int, submitOk: bool)
    requires Steady(w)
    ensures var r := Reset(w, id, submitOk); Steady(r.w) && Frozen(w, r.w)
    ensures var r := Reset(w, id, submitOk);
            r.code == Ok ==> forall i :: 0 <= i < |w.slots| && w.slots[i].id == id ==> r.w.slots[i].reset
  {
    hide Count, Told, Scratch, Tallied;
    var at := Find(w.slots, id);
    if at.Some? && !w.slots[at.value].reset && Submits(id, submitOk) {
      var i := at.value;
      var s := w.slots[i].(reset := true);
      assert WellSlot(w.slots[i], w.last);
      TableUpdate(w.slots, w.last, i, s, w.last);
      TallyUpdate(w.slots, w.active, w.limit, i, s);
      ToldQuietly(w.slots, w.log, w.last, i, s);
    }
  }

  lemma RespondSteady(w: Session, id: int, status: nat, fields: seq<HeaderCodec.Header>, submitOk: bool)
    requires Steady(w)
    ensures var r := Respond(w, id, status, fields, submitOk); Steady(r.w) && Frozen(w, r.w)
  {
    hide Count, Told, Scratch, Tallied, FieldsCode;
    var at := Find(w.slots, id);
    if at.Some? && MayRespond(w.slots[at.value]) {
      var i := at.value;
      var s := w.slots[i].(response := true);
      assert WellSlot(w.slots[i], w.last);
      TableUpdate(w.slots, w.last, i, s, w.last);
      TallyUpdate(w.slots, w.active, w.limit, i, s);
      assert Past(s) == Past(w.slots[i]) + [Responded];
      ToldMore(w.slots, w.log, w.last, i, s, Responded);
    }
  }

  lemma {:induction false} MakeAllSteady(w: Session, calls: seq<Call>)
    requires Steady(w)
    ensures Steady(MakeAll(w, calls)) && Frozen(w, MakeAll(w, calls))
  {
    hide Steady, Respond, Reset;
    if calls != [] {
      var front := MakeAll(w, calls[..|calls| - 1]);
      MakeAllSteady(w, calls[..|calls| - 1]);
      match calls[|calls| - 1]
      case CallReset(id, ok) => ResetSteady(front, id, ok);
      case CallRespond(id, status, fields, ok) => RespondSteady(front, id, status, fields, ok);
    }
  }

  lemma FrozenCollecting(w: Session, u: Session)
    requires Frozen(w, u) && Collecting(w)
    ensures Collecting(u)
  {
    forall i | 0 <= i < |u.slots| && u.slots[i].id == u.headerStream ensures !u.slots[i].done || u.slots[i].reset
        || u.headerStream == 0 {
      assert SameStream(w.slots[i], u.slots[i]);
    }
  }

  /** A refusal from inside a callback leaves a sound session: the stream is reset, or the engine stops. */
  lemma RefuseSound(w: Session, id: int, submitOk: bool)
    requires Steady(w) && (Collecting(w) || id == w.headerStream)
    ensures Sound(Refuse(w, id, submitOk))
  {
    hide Steady, Reset, Frozen;
    ResetSteady(w, id, submitOk);
    var r := Reset(w, id, submitOk);
    Halting(r.w);
    if Collecting(w) { FrozenCollecting(w, r.w); } else { RefusedCollecting(w, r.w); }
  }

  lemma Halting(w: Session)
    requires Steady(w)
    ensures Steady(w.(halted := true))
  {
    hide Table, Tallied, Told, Scratch;
  }

  lemma RefusedCollecting(w: Session, u: Session)
    requires Frozen(w, u)
    ensures (forall i :: 0 <= i < |w.slots| && w.slots[i].id == w.headerStream ==> u.slots[i].reset) ==> Collecting(u)
  {
    if forall i :: 0 <= i < |w.slots| && w.slots[i].id == w.headerStream ==> u.slots[i].reset {
      forall i | 0 <= i < |u.slots| && u.slots[i].id == u.headerStream ensures u.slots[i].reset {
        assert SameStream(w.slots[i], u.slots[i]);
      }
    }
  }

  // ---- callbacks

  lemma BeginHeadersSound(w: Session, id: int, request: bool, submitOk: bool)
    requires Sound(w) && (request ==> id > w.last)
    ensures Sound(BeginHeaders(w, id, request, submitOk))
  {
    hide Count, Told, Scratch, Tallied, Table, Refuse, Past, Distinct, Unambiguous, Story;
    var v := w.(headerStream := 0, last := if request then id else w.last);
    LaterTable(w.slots, w.last, v.last);
    LaterTold(w.slots, w.log, w.last, v.last);
    var at := Find(v.slots, 0);
    if !request || at.None? {
      RefuseSound(v, id, submitOk);
    } else {
      OccupySteady(w, at.value, id);
      OccupyCollecting(w, v, at.value, id);
    }
  }

  lemma LaterTable(slots: seq<Slot>, last: int, later: int)
    requires Table(slots, last) && last <= later
    ensures Table(slots, later)
  {
    forall i | 0 <= i < |slots| ensures WellSlot(slots[i], later) { assert WellSlot(slots[i], last); }
  }

  lemma LaterTold(slots: seq<Slot>, log: seq<Event>, last: int, later: int)
    requires Told(slots, log, last) && last <= later
    ensures Told(slots, log, later)
  {
  }

  lemma OccupySteady(w: Session, i: nat, id: int)
    requires Steady(w) && i < |w.slots| && w.slots[i].id == 0 && id > w.last
    ensures Steady(Occupy(w.(headerStream := 0, last := id), i, id))
  {
    hide Count, Told, Tallied, Table, Story;
    var s := Slot(id, Http, false, false, false, w.now);
    OccupyWell(w, i, s);
    TableUpdate(w.slots, w.last, i, s, id);
    TallyUpdate(w.slots, w.active, w.limit, i, s);
    ToldOpened(w.slots, w.log, w.last, i, s);
  }

  lemma OccupyWell(w: Session, i: nat, s: Slot)
    requires Table(w.slots, w.last) && s == Slot(s.id, Http, false, false, false, w.now) && s.id > w.last
    ensures WellSlot(s, s.id) && s.id > 0
  {
  }

  lemma OccupyCollecting(w: Session, v: Session, i: nat, id: int)
    requires Steady(w) && i < |w.slots| && id > w.last && v.slots == w.slots
    ensures Collecting(Occupy(v, i, id))
  {
    var more := Occupy(v, i, id).slots;
    forall j | 0 <= j < |more| ensures more[j].id == id ==> !more[j].done {
      assert WellSlot(w.slots[j], w.last);
    }
  }

  lemma UnambiguousMore(headers: seq<Header>, name: string, value: string)
    requires Unambiguous(headers) && !(Decides(name) && HasName(headers, name))
    ensures Unambiguous(headers + [Header(name, value)])
  {
    hide Decides;
    var more := headers + [Header(name, value)];
    forall i, j | 0 <= i < j < |more| && Decides(more[i].name) ensures more[i].name != more[j].name {
      if j == |headers| { assert more[i] == headers[i]; }
    }
  }

  lemma OnHeaderSound(w: Session, id: int, name: string, value: string, submitOk: bool)
    requires Sound(w)
    ensures Sound(OnHeader(w, id, name, value, submitOk))
  {
    hide Told, Tallied, Table, Decides, Refuse, Unambiguous;
    if w.headerStream == id {
      if !Room(w, name, value) || (Decides(name) && HasName(w.headers, name)) {
        RefuseSound(w.(headerStream := 0), id, submitOk);
      } else {
        UnambiguousMore(w.headers, name, value);
        assert (w.headers + [Header(name, value)])[..|w.headers|] == w.headers;
      }
    }
  }

  // ---- a received frame

  lemma WithKindSteady(w: Session, i: nat, kind: Kind)
    requires Steady(w) && i < |w.slots| && w.slots[i].id != 0 && !w.slots[i].done
    ensures Steady(WithKind(w, i, kind))
  {
    hide Count, Told, Scratch, Tallied;
    var s := w.slots[i].(kind := kind);
    assert WellSlot(w.slots[i], w.last);
    TableUpdate(w.slots, w.last, i, s, w.last);
    TallyUpdate(w.slots, w.active, w.limit, i, s);
    ToldQuietly(w.slots, w.log, w.last, i, s);
  }

  lemma AdmitSteady(w: Session, i: nat)
    requires Steady(w) && i < |w.slots| && w.slots[i].id != 0 && !w.slots[i].done
    requires Count(w.slots, Admitted(w.slots[i].kind)) < Limit(w.limit, w.slots[i].kind)
    ensures Steady(Admit(w, i))
  {
    hide Count, Told, Scratch, Tallied;
    var s := w.slots[i].(done := true);
    assert WellSlot(w.slots[i], w.last);
    TableUpdate(w.slots, w.last, i, s, w.last);
    TallyUpdate(w.slots, w.active, w.limit, i, s);
    assert Past(s) == Past(w.slots[i]) + [Requested];
    ToldMore(w.slots, w.log, w.last, i, s, Requested);
  }

  lemma {:induction false} BlankIs(s: string)
    ensures |Blank(s)| == |s| && !Decides(Blank(s))
  {
    if s != [] { BlankIs(s[1..]); }
  }

  lemma {:induction false} BlanksScratch(headers: seq<Header>)
    ensures Size(Blanks(headers)) == Size(headers)
    ensures forall i :: 0 <= i < |headers| ==> !Decides(Blanks(headers)[i].name)
  {
    hide Decides;
    if headers != [] {
      var front, h := headers[..|headers| - 1], headers[|headers| - 1];
      BlanksScratch(front);
      BlankIs(h.name);
      BlankIs(h.value);
      assert Blanks(headers)[..|front|] == Blanks(front);
    }
  }

  lemma WipedSound(w: Session)
    requires Steady(w)
    ensures Sound(Wiped(w))
  {
    hide Table, Tallied, Told, Decides, Size, Blank, Blanks;
    BlanksScratch(w.headers);
  }

  lemma EndingSound(w: Session, id: int, t: FrameType, end: bool, env: Weather)
    requires Sound(w) && !w.halted
    ensures Sound(Ending(w, id, t, end, env))
  {
    hide Steady, MakeAll, Refuse, Collecting, Frozen;
    var u := MakeAll(w, env.data.calls);
    MakeAllSteady(w, env.data.calls);
    FrozenCollecting(w, u);
    RefuseSound(u, id, env.cancelOk);
  }

  /** Handing a stream to the application, whatever it does meanwhile. */
  lemma RequestSound(w: Session, i: nat, kind: Kind, id: int, env: Weather)
    requires Sound(w) && !w.halted && i < |w.slots| && w.slots[i].id == id == w.headerStream && id > 0
        && !w.slots[i].reset
    ensures var v := WithKind(w, i, kind);
            if Count(v.slots, Admitted(kind)) >= Limit(w.limit, kind) then Sound(Refuse(v, id, env.refuseOk))
            else
              var u := MakeAll(Admit(v, i), env.request.calls);
              Sound(Refuse(u, id, env.refuseOk)) && Sound(Wiped(u)) && u.headerStream == id && !u.halted
  {
    hide Steady, Count, MakeAll, Refuse, Wiped, Limit;
    assert !w.slots[i].done;
    var v := WithKind(w, i, kind);
    WithKindSteady(w, i, kind);
    if Count(v.slots, Admitted(kind)) >= Limit(w.limit, kind) {
      RefuseSound(v, id, env.refuseOk);
    } else {
      AdmitSteady(v, i);
      var u := MakeAll(Admit(v, i), env.request.calls);
      MakeAllSteady(Admit(v, i), env.request.calls);
      RefuseSound(u, id, env.refuseOk);
      WipedSound(u);
    }
  }

  lemma ReceivedFrameSound(w: Session, id: int, t: FrameType, end: bool, env: Weather)
    requires Sound(w) && !w.halted && (OfStream(t) ==> id > 0)
    ensures Sound(ReceivedFrame(w, id, t, end, env))
  {
    hide Table, Tallied, Told, Scratch, OnStream;
    OnStreamSound(w.(peer := Noted(w.peer, t)), id, t, end, env);
  }

  lemma OnStreamSound(w: Session, id: int, t: FrameType, end: bool, env: Weather)
    requires Sound(w) && !w.halted && (OfStream(t) ==> id > 0)
    ensures Sound(OnStream(w, id, t, end, env))
  {
    hide Steady, Collecting, Count, MakeAll, Refuse, Wiped, KindOf, Limit, Ending;
    var at := Find(w.slots, id);
    if at.Some? && !w.slots[at.value].reset {
      if t == HeadersFrame && w.headerStream == id {
        if KindOf(w.headers).Some? {
          RequestSound(w, at.value, KindOf(w.headers).value, id, env);
          var u := MakeAll(Admit(WithKind(w, at.value, KindOf(w.headers).value), at.value), env.request.calls);
          WipedEnding(u, id, t, end, env);
        } else {
          RefuseSound(w, id, env.refuseOk);
        }
      } else {
        EndingSound(w, id, t, end, env);
      }
    }
  }

  lemma WipedEnding(u: Session, id: int, t: FrameType, end: bool, env: Weather)
    ensures Sound(Wiped(u)) && !u.halted ==> Sound(Ending(Wiped(u), id, t, end, env))
  {
    hide Steady, Collecting, MakeAll, Ending;
    if Sound(Wiped(u)) && !u.halted { EndingSound(Wiped(u), id, t, end, env); }
  }

  // ---- data, close, time

  lemma FrozenTrans(w: Session, u: Session, v: Session)
    requires Frozen(w, u) && Frozen(u, v)
    ensures Frozen(w, v)
  {
    forall i | 0 <= i < |w.slots| ensures SameStream(w.slots[i], v.slots[i]) {
      assert SameStream(w.slots[i], u.slots[i]) && SameStream(u.slots[i], v.slots[i]);
    }
  }

  lemma {:induction false} DeliverSound(w: Session, id: int, answers: seq<Answer>, cancelOk: bool)
    requires Sound(w) && !w.halted
    ensures Sound(Deliver(w, id, answers, cancelOk))
    ensures var u := Deliver(w, id, answers, cancelOk); u.halted || Frozen(w, u)
    decreases |answers|
  {
    hide Steady, MakeAll, Collecting, Reset;
    if answers != [] {
      var u := MakeAll(w, answers[0].calls);
      MakeAllSteady(w, answers[0].calls);
      FrozenCollecting(w, u);
      if answers[0].ok {
        DeliverSound(u, id, answers[1..], cancelOk);
        var v := Deliver(u, id, answers[1..], cancelOk);
        if !v.halted { FrozenTrans(w, u, v); }
      } else {
        RefuseSound(u, id, cancelOk);
        ResetSteady(u, id, cancelOk);
        FrozenTrans(w, u, Reset(u, id, cancelOk).w);
      }
    }
  }

  lemma ProgressedSound(w: Session, i: nat, halted: bool)
    requires Sound(w) && !w.halted && i < |w.slots| && w.slots[i].id != 0
    ensures Sound(Progressed(w, i).(halted := halted))
  {
    hide Count, Told, Scratch, Tallied;
    var s := w.slots[i].(progress := w.now);
    assert WellSlot(w.slots[i], w.last);
    TableUpdate(w.slots, w.last, i, s, w.last);
    TallyUpdate(w.slots, w.active, w.limit, i, s);
    ToldQuietly(w.slots, w.log, w.last, i, s);
  }

  lemma ReceivedDataSound(w: Session, id: int, answers: seq<Answer>, cancelOk: bool, consumeOk: bool)
    requires Sound(w) && !w.halted && id > 0
    ensures Sound(ReceivedData(w, id, answers, cancelOk, consumeOk))
  {
    hide Steady, Deliver, Progressed, Collecting;
    Halting(w);
    var at := Find(w.slots, id);
    if at.Some? && !w.slots[at.value].reset {
      DeliverSound(w, id, answers, cancelOk);
      var u := Deliver(w, id, answers, cancelOk);
      if !u.halted {
        assert SameStream(w.slots[at.value], u.slots[at.value]);
        ProgressedSound(u, at.value, !consumeOk);
      }
    }
  }

  lemma ClosedStreamSound(w: Session, id: int, calls: seq<Call>)
    requires Sound(w) && id > 0
    ensures Sound(ClosedStream(w, id, calls))
  {
    hide Steady, Collecting, MakeAll, Vacate, Frozen;
    var at := Find(w.slots, id);
    if at.Some? {
      var u := MakeAll(w, calls);
      MakeAllSteady(w, calls);
      FrozenHalted(w, u);
      FrozenId(w, u, at.value);
      if Collecting(w) { FrozenCollecting(w, u); }
      VacateSound(u, at.value);
    }
  }

  lemma FrozenId(w: Session, u: Session, i: nat)
    requires Frozen(w, u) && i < |w.slots|
    ensures u.slots[i].id == w.slots[i].id
  {
    assert SameStream(w.slots[i], u.slots[i]);
  }

  lemma VacateSound(w: Session, i: nat)
    requires Sound(w) && i < |w.slots| && w.slots[i].id != 0
    ensures Sound(Vacate(w, i))
  {
    hide Count, Told, Scratch, Tallied;
    TableUpdate(w.slots, w.last, i, FREE, w.last);
    TallyUpdate(w.slots, w.active, w.limit, i, FREE);
    ToldClosed(w.slots, w.log, w.last, i);
  }

  lemma {:induction false} TickFromSound(w: Session, i: nat, submits: nat -> bool)
    requires Sound(w)
    ensures Sound(TickFrom(w, i, submits))
    decreases |w.slots| - i
  {
    hide Steady, Collecting, Reset, Frozen;
    if i < |w.slots| {
      if Idle(w.slots[i], w.now) {
        var r := Reset(w, w.slots[i].id, submits(i));
        ResetSteady(w, w.slots[i].id, submits(i));
        FrozenHalted(w, r.w);
        if Collecting(w) { FrozenCollecting(w, r.w); }
        TickFromSound(r.w, i + 1, submits);
      } else {
        TickFromSound(w, i + 1, submits);
      }
    }
  }

  lemma FrozenHalted(w: Session, u: Session)
    requires Frozen(w, u)
    ensures u.halted == w.halted && u.now == w.now && |u.slots| == |w.slots|
  {
  }

  // ---- runs

  datatype Op =
    | OpBegin(id: int, request: bool, submitOk: bool)
    | OpHeader(id: int, name: string, value: string, submitOk: bool)
    | OpFrame(id: int, t: FrameType, end: bool, env: Weather)
    | OpData(id: int, len: nat, answers: seq<Answer>, submitOk: bool, consumeOk: bool)
    | OpClosed(id: int, calls: seq<Call>)
    | OpCall(call: Call)
    | OpClock(now: nat)
    | OpTick(now: nat, submits: nat -> bool)

  /**
   * What the engine promises: no callback after one has failed, positive stream ids on stream frames,
   * and request streams numbered upwards. The application may call at any time.
   */
  predicate Legal(w: Session, op: Op)
  {
    match op
    case OpBegin(id, request, _) => !w.halted && id > 0 && (request ==> id > w.last)
    case OpHeader(id, _, _, _) => !w.halted && id > 0
    case OpFrame(id, t, _, _) => !w.halted && (OfStream(t) ==> id > 0)
    case OpData(id, len, answers, _, _) => !w.halted && id > 0 && |answers| == Pieces(len)
    case OpClosed(id, _) => id > 0
    case _ => true
  }

  function Apply(w: Session, op: Op): Session
  {
    match op
    case OpBegin(id, request, ok) => BeginHeaders(w, id, request, ok)
    case OpHeader(id, name, value, ok) => OnHeader(w, id, name, value, ok)
    case OpFrame(id, t, end, env) => ReceivedFrame(w, id, t, end, env)
    case OpData(id, _, answers, ok, consume) => ReceivedData(w, id, answers, ok, consume)
    case OpClosed(id, calls) => ClosedStream(w, id, calls)
    case OpCall(call) => Make(w, call)
    case OpClock(now) => w.(now := now)
    case OpTick(now, submits) => Tick(w, now, submits)
  }

  lemma ClockSound(w: Session, now: nat)
    requires Sound(w)
    ensures Sound(w.(now := now))
  {
    hide Table, Tallied, Told, Scratch;
  }

  lemma CallSound(w: Session, call: Call)
    requires Sound(w)
    ensures Sound(Make(w, call))
  {
    hide Steady, Reset, Respond, Collecting, Frozen;
    match call {
      case CallReset(id, ok) => ResetSteady(w, id, ok);
      case CallRespond(id, status, fields, ok) => RespondSteady(w, id, status, fields, ok);
    }
    FrozenHalted(w, Make(w, call));
    if Collecting(w) { FrozenCollecting(w, Make(w, call)); }
  }

  lemma ApplySound(w: Session, op: Op)
    requires Sound(w) && Legal(w, op)
    ensures Sound(Apply(w, op))
  {
    hide Sound, Make, BeginHeaders, OnHeader, ReceivedFrame, ReceivedData, ClosedStream, TickFrom;
    match op
    case OpBegin(id, request, ok) => BeginHeadersSound(w, id, request, ok);
    case OpHeader(id, name, value, ok) => OnHeaderSound(w, id, name, value, ok);
    case OpFrame(id, t, end, env) => ReceivedFrameSound(w, id, t, end, env);
    case OpData(id, _, answers, ok, consume) => ReceivedDataSound(w, id, answers, ok, consume);
    case OpClosed(id, calls) => ClosedStreamSound(w, id, calls);
    case OpCall(call) => CallSound(w, call);
    case OpClock(now) => ClockSound(w, now);
    case OpTick(now, submits) => ClockSound(w, now); TickFromSound(w.(now := now), 0, submits);
  }

  ghost predicate Run(states: seq<Session>, ops: seq<Op>)
  {
    && |states| == |ops| + 1
    && (states[0] == Fresh(2) || states[0] == Fresh(4))
    && forall i :: 0 <= i < |ops| ==> Legal(states[i], ops[i]) && states[i + 1] == Apply(states[i], ops[i])
  }

  /** Every state of every run is sound. */
  lemma {:induction false} EveryRunIsSound(states: seq<Session>, ops: seq<Op>)
    requires Run(states, ops)
    ensures forall i :: 0 <= i < |states| ==> Sound(states[i])
    decreases |ops|
  {
    hide Sound, Apply, Legal;
    if ops == [] {
      FreshSound(2);
      FreshSound(4);
    } else {
      var n := |ops| - 1;
      var front := states[..n + 1];
      EveryRunIsSound(front, ops[..n]);
      assert Sound(front[n]);
      ApplySound(states[n], ops[n]);
      forall i | 0 <= i < |states| ensures Sound(states[i]) { if i <= n { assert states[i] == front[i]; } }
    }
  }

  lemma FreshSound(limit: nat)
    requires limit == 2 || limit == 4
    ensures Sound(Fresh(limit))
  {
    var w := Fresh(limit);
    forall g ensures Count(w.slots, g) == 0 { NoneIn(w.slots, g); }
  }

  lemma {:induction false} NoneIn(slots: seq<Slot>, g: Group)
    requires forall i :: 0 <= i < |slots| ==> !In(slots[i], g)
    ensures Count(slots, g) == 0
  {
    if slots != [] { NoneIn(slots[..|slots| - 1], g); }
  }

  // ---- what soundness buys

  /** Destroying a session in any state closes each stream that is still open, once; every story is then complete. */
  lemma EveryStreamIsClosedOnce(w: Session, id: int)
    requires Sound(w)
    ensures Story(Destroy(w), id) == [] || Complete(Story(Destroy(w), id))
  {
    hide Farewells, Story, Complete, Past, Tallied, Scratch;
    FarewellStory(w.slots, w.log, id);
    if i :| 0 <= i < |w.slots| && w.slots[i].id == id && id != 0 {
      assert WellSlot(w.slots[i], w.last);
      PastThenClosed(w.slots[i]);
    } else {
      assert id == 0 || Absent(w.slots, id);
    }
  }

  lemma {:induction false} FarewellStory(slots: seq<Slot>, log: seq<Event>, id: int)
    requires Distinct(slots)
    ensures Story(log + Farewells(slots), id) ==
              if id != 0 && exists i :: 0 <= i < |slots| && slots[i].id == id then Story(log, id) + [Closed]
                  else Story(log, id)
  {
    hide Story;
    if slots == [] {
      assert log + [] == log;
    } else {
      var front, s := slots[..|slots| - 1], slots[|slots| - 1];
      FarewellStory(front, log, id);
      if s.id != 0 {
        assert log + Farewells(slots) == (log + Farewells(front)) + [Event(s.id, Closed)];
        StoryMore(log + Farewells(front), Event(s.id, Closed), id);
        assert slots[|slots| - 1].id == s.id;
      } else {
        assert Farewells(slots) == Farewells(front);
      }
      forall i | 0 <= i < |slots| && slots[i].id == id && s.id != id ensures front[i].id == id { }
      forall i | 0 <= i < |front| && front[i].id == id ensures slots[i].id == id { }
    }
  }

  /** At most one header can name the upgrade, so the kind of a stream does not depend on which is looked at. */
  lemma RoutingIsUnambiguous(headers: seq<Header>, i: nat)
    requires Unambiguous(headers) && i < |headers| && headers[i].name == UPGRADE
    ensures Lookup(headers, UPGRADE) == headers[i].value
  {
    hide Lookup;
    assert UPGRADE[..15] == CONTROL_PREFIX;
    assert Decides(UPGRADE);
    LookupFirst(headers, UPGRADE, i);
  }

  lemma {:induction false} LookupFirst(headers: seq<Header>, name: string, i: nat)
    requires i < |headers| && headers[i].name == name && forall j :: 0 <= j < i ==> headers[j].name != name
    ensures Lookup(headers, name) == headers[i].value
  {
    if i > 0 { LookupFirst(headers[1..], name, i - 1); }
  }

  /** When the engine takes every reset, a tick leaves no idle stream. */
  lemma {:induction false} TickLeavesNoneIdle(w: Session, i: nat, submits: nat -> bool, j: nat)
    requires Steady(w) && i <= j < |w.slots| && forall k :: submits(k)
    ensures var u := TickFrom(w, i, submits); |u.slots| == |w.slots| && u.now == w.now && !Idle(u.slots[j], u.now)
    decreases |w.slots| - i
  {
    hide Steady, Reset, Idle, Frozen, TickFrom;
    var u := if Idle(w.slots[i], w.now) then Reset(w, w.slots[i].id, submits(i)).w else w;
    TickStep(w, i, submits);
    if i < j {
      TickLeavesNoneIdle(u, i + 1, submits, j);
    } else {
      TickKeepsReset(u, i + 1, submits, i);
    }
  }

  lemma TickStep(w: Session, i: nat, submits: nat -> bool)
    requires Steady(w) && i < |w.slots| && submits(i)
    ensures var u := if Idle(w.slots[i], w.now) then Reset(w, w.slots[i].id, submits(i)).w else w;
            Steady(u) && |u.slots| == |w.slots| && u.now == w.now && !Idle(u.slots[i], u.now)
                && TickFrom(w, i, submits) == TickFrom(u, i + 1, submits)
  {
    hide Steady, Reset;
    if Idle(w.slots[i], w.now) {
      ResetSteady(w, w.slots[i].id, submits(i));
      ResetTaken(w, w.slots[i].id);
    }
  }

  lemma ResetTaken(w: Session, id: int)
    requires id != 0
    ensures Reset(w, id, true).code == Ok
  {
  }

  lemma {:induction false} TickKeepsReset(w: Session, i: nat, submits: nat -> bool, j: nat)
    requires Steady(w) && j < i <= |w.slots| && !Idle(w.slots[j], w.now)
    ensures var u := TickFrom(w, i, submits); |u.slots| == |w.slots| && u.now == w.now && !Idle(u.slots[j], u.now)
    decreases |w.slots| - i
  {
    hide Steady, Reset;
    if i < |w.slots| {
      if Idle(w.slots[i], w.now) {
        ResetSteady(w, w.slots[i].id, submits(i));
        var u := Reset(w, w.slots[i].id, submits(i)).w;
        ResetElsewhere(w, w.slots[i].id, submits(i), j);
        TickKeepsReset(u, i + 1, submits, j);
      } else {
        TickKeepsReset(w, i + 1, submits, j);
      }
    }
  }

  lemma ResetElsewhere(w: Session, id: int, submitOk: bool, j: nat)
    requires j < |w.slots|
    ensures !Idle(w.slots[j], w.now) ==> !Idle(Reset(w, id, submitOk).w.slots[j], w.now)
  {
  }
}
