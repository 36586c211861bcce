/** What the admission layer decides, in the terms of the peer: headers, slots, histories and seconds. */
module AdmissionMeaning {
  import opened Core
  import opened Admission
  import opened AdmissionSafety
  import HeaderCodec

  // ---- routing

  predicate Stores(headers: seq<Header>, name: string, value: string)
  {
    exists i :: 0 <= i < |headers| && headers[i] == Header(name, value)
  }

  /** What the stored headers ask for, by the upgrade header alone. */
  predicate AsksFor(headers: seq<Header>, kind: Kind)
  {
    match kind
    case Control => Stores(headers, "cf-cloudflared-proxy-connection-upgrade", "control-stream")
    case Config => Stores(headers, "cf-cloudflared-proxy-connection-upgrade", "update-configuration")
    case Http => forall i :: 0 <= i < |headers| && headers[i].name == "cf-cloudflared-proxy-connection-upgrade" ==>
                   headers[i].value == ""
  }

  predicate HasRoom(w: Session, kind: Kind)
  {
    Count(w.slots, Admitted(kind)) < match kind case Http => w.limit case Control => 1 case Config => 1
  }

  lemma {:induction false} LookupMisses(headers: seq<Header>, name: string)
    requires forall i :: 0 <= i < |headers| ==> headers[i].name != name
    ensures Lookup(headers, name) == ""
  {
    if headers != [] { LookupMisses(headers[1..], name); }
  }

  /** The kind decided is the one asked for; no other can be. */
  lemma KindIsAsked(headers: seq<Header>)
    requires Unambiguous(headers)
    ensures forall kind :: KindOf(headers) == Some(kind) <==> AsksFor(headers, kind)
  {
    hide Lookup, Unambiguous;
    if i :| 0 <= i < |headers| && headers[i].name == UPGRADE {
      RoutingIsUnambiguous(headers, i);
      forall j | 0 <= j < |headers| && headers[j].name == UPGRADE ensures headers[j].value == headers[i].value {
        RoutingIsUnambiguous(headers, j);
      }
      assert headers[i] == Header(UPGRADE, headers[i].value);
      DifferentTexts();
    } else {
      LookupMisses(headers, UPGRADE);
    }
  }

  lemma DifferentTexts()
    ensures "control-stream" != "update-configuration" && "control-stream" != "" && "update-configuration" != ""
  {
    assert |"control-stream"| == 14 && |"update-configuration"| == 20;
  }

  /** Changing the kind of a stream that is not admitted changes no count. */
  lemma KindCountsLater(w: Session, i: nat, kind: Kind, g: Group)
    requires i < |w.slots| && !w.slots[i].done && g.Admitted?
    ensures Count(WithKind(w, i, kind).slots, g) == Count(w.slots, g)
  {
    CountUpdate(w.slots, i, w.slots[i].(kind := kind), g);
  }

  lemma FrozenAt(w: Session, u: Session, i: nat)
    requires Frozen(w, u) && i < |w.slots|
    ensures |u.slots| == |w.slots| && SameStream(w.slots[i], u.slots[i]) && u.headerStream == w.headerStream
        && u.halted == w.halted
  {
  }

  /** A refusal keeps kind and admission, and leaves the stream reset or the engine stopped. */
  lemma RefuseKeeps(w: Session, i: nat, id: int, submitOk: bool)
    requires Steady(w) && i < |w.slots|
    ensures var u := Refuse(w, id, submitOk);
            && |u.slots| == |w.slots| && SameStream(w.slots[i], u.slots[i])
            && (w.slots[i].id == id ==> u.slots[i].reset || u.halted)
  {
    hide Steady, Reset, Frozen, SameStream;
    ResetSteady(w, id, submitOk);
    FrozenAt(w, Reset(w, id, submitOk).w, i);
  }

  lemma EndingKeeps(w: Session, i: nat, id: int, t: FrameType, end: bool, env: Weather)
    requires Steady(w) && i < |w.slots|
    ensures var u := Ending(w, id, t, end, env); |u.slots| == |w.slots| && SameStream(w.slots[i], u.slots[i])
  {
    hide Steady, MakeAll, Refuse, Frozen;
    MakeAllSteady(w, env.data.calls);
    FrozenAt(w, MakeAll(w, env.data.calls), i);
    RefuseKeeps(MakeAll(w, env.data.calls), i, id, env.cancelOk);
  }

  /** Handing over keeps the kind and the admission of the stream, whatever the application does and answers. */
  lemma HandedOver(w: Session, i: nat, kind: Kind, id: int, t: FrameType, end: bool, env: Weather)
    requires Sound(w) && !w.halted && i < |w.slots| && w.slots[i].id == id == w.headerStream && id > 0
        && !w.slots[i].reset
    requires Count(WithKind(w, i, kind).slots, Admitted(kind)) < Limit(w.limit, kind)
    ensures var u := MakeAll(Admit(WithKind(w, i, kind), i), env.request.calls);
            var v := if env.request.ok then Ending(Wiped(u), id, t, end, env) else Refuse(u, id, env.refuseOk);
            |v.slots| == |w.slots| && v.slots[i].done && v.slots[i].kind == kind && v.slots[i].id == id
  {
    hide Steady, Count, MakeAll, Refuse, Limit, Frozen, Ending, Scratch, Blanks;
    var start := Admit(WithKind(w, i, kind), i);
    WithKindSteady(w, i, kind);
    AdmitSteady(WithKind(w, i, kind), i);
    var u := MakeAll(start, env.request.calls);
    MakeAllSteady(start, env.request.calls);
    FrozenAt(start, u, i);
    RefuseKeeps(u, i, id, env.refuseOk);
    WipedSound(u);
    EndingKeeps(Wiped(u), i, id, t, end, env);
  }

  /** Once its headers are complete, a stream is admitted as what they ask for, exactly when there is room for it. */
  lemma RoutingMeans(w: Session, i: nat, id: int, end: bool, env: Weather)
    requires Sound(w) && !w.halted && i < |w.slots| && w.slots[i].id == id == w.headerStream && id > 0
        && !w.slots[i].reset
    ensures var u := ReceivedFrame(w, id, HeadersFrame, end, env);
            && |u.slots| == |w.slots| && u.slots[i].id == id && Story(u.log, id) == Past(u.slots[i])
            && (forall kind :: u.slots[i].done && u.slots[i].kind == kind <==>
                AsksFor(w.headers, kind) && HasRoom(w, kind))
            && (!u.slots[i].done ==> u.slots[i].reset || u.halted)
  {
    hide Story, Past, Count, MakeAll, Refuse, Wiped, KindOf, Ending, AsksFor, Find, Collecting, Unambiguous, SameStream,
        Told;
    var v := w.(peer := Noted(w.peer, HeadersFrame));
    OnlySlot(v, i);
    KindIsAsked(w.headers);
    NotYetAdmitted(v, i);
    ReceivedFrameSound(w, id, HeadersFrame, end, env);
    forall g: Group, kind | g.Admitted? ensures Count(WithKind(v, i, kind).slots, g) == Count(v.slots, g) {
      KindCountsLater(v, i, kind, g);
    }
    match KindOf(w.headers) {
      case None =>
        RefuseKeeps(v, i, id, env.refuseOk);
        SameFlags(v.slots[i], Refuse(v, id, env.refuseOk).slots[i]);
      case Some(kind) =>
        var k := WithKind(v, i, kind);
        if HasRoom(w, kind) {
          HandedOver(v, i, kind, id, HeadersFrame, end, env);
        } else {
          WithKindSteady(v, i, kind);
          RefuseKeeps(k, i, id, env.refuseOk);
          SameFlags(k.slots[i], Refuse(k, id, env.refuseOk).slots[i]);
        }
    }
    StoryOfSlot(ReceivedFrame(w, id, HeadersFrame, end, env), i);
  }

  lemma SameFlags(s: Slot, t: Slot)
    requires SameStream(s, t)
    ensures t.id == s.id && t.done == s.done && t.kind == s.kind
  {
  }

  lemma StoryOfSlot(w: Session, i: nat)
    requires Sound(w) && i < |w.slots| && w.slots[i].id != 0
    ensures Story(w.log, w.slots[i].id) == Past(w.slots[i])
  {
    hide Story, Past, Tallied, Table, Scratch;
  }

  /** A stream is in one slot. */
  lemma OnlySlot(w: Session, i: nat)
    requires Steady(w) && i < |w.slots| && w.slots[i].id > 0
    ensures Find(w.slots, w.slots[i].id) == Some(i)
  {
    hide Tallied, Told, Scratch;
    var at := Find(w.slots, w.slots[i].id);
    assert at.Some?;
  }

  lemma NotYetAdmitted(w: Session, i: nat)
    requires Sound(w) && !w.halted && i < |w.slots| && w.slots[i].id == w.headerStream > 0 && !w.slots[i].reset
    ensures !w.slots[i].done
  {
    hide Steady;
  }

  // ---- opening a stream

  lemma {:induction false} FullCount(slots: seq<Slot>)
    ensures Count(slots, Occupied) == |slots| <==> forall i :: 0 <= i < |slots| ==> slots[i].id != 0
  {
    if slots != [] {
      var n := |slots| - 1;
      FullCount(slots[..n]);
      assert forall i :: 0 <= i < n ==> slots[..n][i] == slots[i];
    }
  }

  /**
   * A new request stream is collected in a slot of its own exactly when fewer than six are taken; else it is refused.
   */
  lemma BeginMeans(w: Session, id: int, submitOk: bool)
    requires Sound(w) && id > w.last
    ensures var u := BeginHeaders(w, id, true, submitOk);
            && (w.active < 6 <==> exists i :: 0 <= i < |u.slots| && u.slots[i].id == id)
            && (forall i :: 0 <= i < |u.slots| && u.slots[i].id == id ==> u.slots[i].progress == w.now)
            && (w.active < 6 ==> u.headerStream == id && u.headers == [] && u.active == w.active + 1
                                 && u.log == w.log + [Event(id, Opened)] && u.rejected == w.rejected)
            && (w.active >= 6 ==> u.slots == w.slots && u.log == w.log && u.headerStream == 0
                                  && (u.halted || u.rejected == (w.rejected + 1) % U32))
  {
    hide Count, Told, Scratch, Past, Unambiguous, Story, Distinct;
    FullCount(w.slots);
    forall i | 0 <= i < |w.slots| ensures w.slots[i].id != id { assert WellSlot(w.slots[i], w.last); }
    var at := Find(w.slots, 0);
    if at.Some? {
      assert BeginHeaders(w, id, true, submitOk).slots[at.value].id == id;
    }
  }

  // ---- collecting headers

  predicate Starts(s: string, prefix: string) { |prefix| <= |s| && s[..|prefix|] == prefix }

  /** A pseudo field or a connector field. */
  predicate Decisive(name: string) { Starts(name, ":") || Starts(name, "cf-cloudflared-") }

  lemma DecidesMeans(name: string)
    ensures Decides(name) <==> Decisive(name)
  {
    assert |":"| == 1 && |"cf-cloudflared-"| == 15;
  }

  /**
   * A header is stored exactly when there are fewer than 48, all of them come to at most 8192 octets, and it does not
   * repeat a decisive name; otherwise its stream is no longer collected and is reset, or the engine stops.
   */
  lemma HeaderMeans(w: Session, id: int, name: string, value: string, submitOk: bool)
    requires Sound(w) && !w.halted && w.headerStream == id > 0
    ensures var u := OnHeader(w, id, name, value, submitOk);
            var fits := |w.headers| < 48 && Size(w.headers) + |name| + |value| <= 8192
                        && !(Decisive(name) && exists i :: 0 <= i < |w.headers| && w.headers[i].name == name);
            && (fits ==> u.headers == w.headers + [Header(name, value)] && u.slots == w.slots && u.headerStream == id)
            && (!fits ==> u.headers == w.headers && u.headerStream == 0
                          && forall i :: 0 <= i < |w.slots| && w.slots[i].id == id ==> u.halted || u.slots[i].reset)
  {
    hide Decides, Decisive, Told, Tallied, Table, Unambiguous, Reset;
    DecidesMeans(name);
    var v := w.(headerStream := 0);
    ResetSteady(v, id, submitOk);
    ResetScratch(v, id, submitOk);
  }

  lemma ResetScratch(w: Session, id: int, submitOk: bool)
    ensures var u := Reset(w, id, submitOk).w;
            u.headers == w.headers && u.headerStream == w.headerStream && u.halted == w.halted
  {
  }

  // ---- answering

  /**
   * A response is taken exactly for a stream that was requested, not answered, closed or reset, with a proper status.
   */
  lemma RespondMeans(w: Session, i: nat, status: nat, fields: seq<HeaderCodec.Header>, submitOk: bool)
    requires Sound(w) && i < |w.slots| && w.slots[i].id > 0
    ensures var id := w.slots[i].id;
            var d := Respond(w, id, status, fields, submitOk);
            && (d.code == Ok <==>
                200 <= status <= 599 && Story(w.log, id) == [What.Opened, Requested] && !w.slots[i].reset
                                  && FieldsCode(fields) == Ok && submitOk)
            && (d.code == Ok ==> Story(d.w.log, id) == [What.Opened, Requested, Responded])
            && (d.code != Ok ==> d.w == w)
  {
    hide Count, Scratch, Tallied, FieldsCode, Story, Told, Find, Distinct;
    OnlySlot(w, i);
    StoryOfSlot(w, i);
    assert WellSlot(w.slots[i], w.last);
    StoryMore(w.log, Event(w.slots[i].id, Responded), w.slots[i].id);
  }

  // ---- data

  /**
   * Pieces that are all taken change nothing by themselves; the first that is refused resets the stream, or the engine
   * stops.
   */
  lemma {:induction false} DeliveryMeans(w: Session, i: nat, id: int, answers: seq<Answer>, cancelOk: bool)
    requires Sound(w) && !w.halted && i < |w.slots| && w.slots[i].id == id
    ensures var u := Deliver(w, id, answers, cancelOk);
            && ((exists k :: 0 <= k < |answers| && !answers[k].ok) ==>
                  u.halted || (i < |u.slots| && u.slots[i].id == id && u.slots[i].reset))
            && ((forall k :: 0 <= k < |answers| ==> answers[k] == Answer([], true)) ==> u == w)
    decreases |answers|
  {
    hide Steady, MakeAll, Collecting, Frozen, SameStream, Refuse;
    if answers != [] {
      var u := MakeAll(w, answers[0].calls);
      MakeAllSteady(w, answers[0].calls);
      FrozenAt(w, u, i);
      FrozenCollecting(w, u);
      SameFlags(w.slots[i], u.slots[i]);
      NoCalls(w);
      if answers[0].ok {
        DeliveryMeans(u, i, id, answers[1..], cancelOk);
        assert forall k :: 0 <= k < |answers| - 1 ==> answers[1..][k] == answers[k + 1];
        assert (exists k :: 0 <= k < |answers| && !answers[k].ok) ==>
            exists k :: 0 <= k < |answers| - 1 && !answers[1..][k].ok by { LaterRefusal(answers); }
      } else {
        RefuseKeeps(u, i, id, cancelOk);
        SameFlags(u.slots[i], Refuse(u, id, cancelOk).slots[i]);
        assert !answers[0].ok;
      }
    }
  }

  lemma NoCalls(w: Session)
    ensures MakeAll(w, []) == w
  {
  }

  lemma LaterRefusal(answers: seq<Answer>)
    requires answers != [] && answers[0].ok
    ensures (exists k :: 0 <= k < |answers| && !answers[k].ok) ==>
        exists k :: 0 <= k < |answers| - 1 && !answers[1..][k].ok
  {
    if k :| 0 <= k < |answers| && !answers[k].ok { assert answers[1..][k - 1] == answers[k]; }
  }

  /** Data that is taken renews the stream's progress. */
  lemma DataRenews(w: Session, i: nat, id: int, answers: seq<Answer>, cancelOk: bool)
    requires Sound(w) && !w.halted && i < |w.slots| && w.slots[i].id == id > 0 && !w.slots[i].reset
    requires forall k :: 0 <= k < |answers| ==> answers[k] == Answer([], true)
    ensures ReceivedData(w, id, answers, cancelOk, true) == w.(slots := w.slots[i := w.slots[i].(progress := w.now)])
  {
    hide Steady, Collecting, Deliver, Find;
    OnlySlot(w, i);
    DeliveryMeans(w, i, id, answers, cancelOk);
  }

  /**
   * The end of a stream is delivered once, with the application's calls; its refusal resets the stream, or the engine
   * stops.
   */
  lemma EndMeans(w: Session, i: nat, id: int, env: Weather)
    requires Sound(w) && !w.halted && i < |w.slots| && w.slots[i].id == id > 0 && !w.slots[i].reset
    ensures env.data.ok ==> ReceivedFrame(w, id, DataFrame, true, env) == MakeAll(w, env.data.calls)
    ensures !env.data.ok ==>
              var u := ReceivedFrame(w, id, DataFrame, true, env);
              u.halted || (i < |u.slots| && u.slots[i].id == id && u.slots[i].reset)
    ensures ReceivedFrame(w, id, DataFrame, false, env) == w
  {
    hide Steady, Collecting, MakeAll, Refuse, Find, Frozen;
    OnlySlot(w, i);
    var u := MakeAll(w, env.data.calls);
    MakeAllSteady(w, env.data.calls);
    FrozenAt(w, u, i);
    RefuseKeeps(u, i, id, env.cancelOk);
  }

  // ---- time

  /**
   * A tick that the engine obeys resets exactly the streams without progress for more than 15 seconds, but no control
   * stream.
   */
  lemma {:induction false} TickMeans(w: Session, i: nat, submits: nat -> bool, j: nat)
    requires Steady(w) && i <= |w.slots| && j < |w.slots| && forall k :: submits(k)
    ensures var u := TickFrom(w, i, submits);
            && |u.slots| == |w.slots|
            && (u.slots[j].reset <==>
                  w.slots[j].reset
                  || (i <= j && w.slots[j].id != 0 && !(w.slots[j].done && w.slots[j].kind == Control)
                      && w.now > w.slots[j].progress + 15000))
    decreases |w.slots| - i
  {
    hide Steady, Reset, TickFrom;
    if i == |w.slots| {
      TickEnds(w, i, submits);
    } else {
      TickStep(w, i, submits);
      var u := if Idle(w.slots[i], w.now) then Reset(w, w.slots[i].id, submits(i)).w else w;
      TickMeans(u, i + 1, submits, j);
      if Idle(w.slots[i], w.now) { ResetsOnly(w, i, j); }
    }
  }

  lemma TickEnds(w: Session, i: nat, submits: nat -> bool)
    requires i >= |w.slots|
    ensures TickFrom(w, i, submits) == w
  {
  }

  lemma ResetsOnly(w: Session, i: nat, j: nat)
    requires Steady(w) && i < |w.slots| && j < |w.slots| && w.slots[i].id != 0 && !w.slots[i].reset
    ensures var u := Reset(w, w.slots[i].id, true).w;
            |u.slots| == |w.slots| && u.slots[j] == if j == i then w.slots[j].(reset := true) else w.slots[j]
  {
    hide Tallied, Told, Scratch, Find;
    assert WellSlot(w.slots[i], w.last);
    OnlySlot(w, i);
  }
}
