/** The connection ladder and the other steps of the lifecycle, state by state. */
module LifecycleMeaning {
  import opened Core
  import opened Lifecycle

  predicate Prepared(l: Life) { l.networkReady && l.timeReady }

  /** The four steps of the ladder, and no others. */
  const LADDER: seq<(State, Event, State)> := [
    (Discovery, Discovered, Connect), (Connect, Connected, Tls),
    (Tls, TlsReady, Http2), (Http2, Http2Ready, Registering)]

  predicate OnLadder(s: State, e: Event, t: State) { exists k :: 0 <= k < 4 && LADDER[k] == (s, e, t) }

  predicate LadderEvent(e: Event) { e == Discovered || e == Connected || e == TlsReady || e == Http2Ready }

  /** A ladder event takes its own step in a prepared life; in any other state it is an error and changes nothing. */
  lemma LadderSteps(l: Life, e: Event)
    requires LadderEvent(e)
    ensures forall t :: Advance(l, e) == Outcome(l.(state := t), Ok) && t != l.state <==>
        Prepared(l) && OnLadder(l.state, e, t)
    ensures (!Prepared(l) || forall t :: !OnLadder(l.state, e, t)) ==> Advance(l, e) == Outcome(l, ErrState)
  {
    assert LADDER[0] == (Discovery, Discovered, Connect) && LADDER[1] == (Connect, Connected, Tls);
    assert LADDER[2] == (Tls, TlsReady, Http2) && LADDER[3] == (Http2, Http2Ready, Registering);
    assert OnLadder(Discovery, Discovered, Connect) && OnLadder(Connect, Connected, Tls);
    assert OnLadder(Tls, TlsReady, Http2) && OnLadder(Http2, Http2Ready, Registering);
  }

  /** The event is taken and leads to the state. */
  predicate Reaches(o: Outcome, s: State) { o.code == Ok && o.l.state == s }

  /** From discovery, the whole way to serving, in this order; configuration may also come before registration. */
  lemma TheWayOnline(l: Life)
    requires l.state == Discovery && Prepared(l) && !l.registered && !l.configured
    ensures var a := Advance(l, Discovered);
            var b := Advance(a.l, Connected);
            var c := Advance(b.l, TlsReady);
            var d := Advance(c.l, Http2Ready);
            && Reaches(a, Connect) && Reaches(b, Tls) && Reaches(c, Http2) && Reaches(d, Registering)
            && Reaches(Advance(d.l, RegisteredEvent), WaitConfig)
            && Reaches(Advance(Advance(d.l, RegisteredEvent).l, ConfigApplied), Online)
            && Reaches(Advance(d.l, ConfigApplied), Registering)
            && Reaches(Advance(Advance(d.l, ConfigApplied).l, RegisteredEvent), Online)
  {
  }

  /** A rejected update leaves a configured life exactly as it was; an unconfigured one has failed its configuration. */
  lemma RejectedUpdate(l: Life)
    requires Prepared(l)
        && (l.state == Registering || l.state == WaitConfig || l.state == Online || l.state == ConfigFailed)
    ensures l.configured ==> Advance(l, ConfigRejected) == Outcome(l, Ok)
    ensures !l.configured ==> Advance(l, ConfigRejected) == Outcome(l.(state := ConfigFailed), Ok)
  {
  }

  /** Rejected credentials end the run; configuration events before registration has begun are errors. */
  lemma Credentials(l: Life)
    requires Prepared(l)
    ensures l.state in {Registering, WaitConfig, Online, ConfigFailed} ==>
              Advance(l, AuthRejected) == Outcome(l.(state := AuthFailed, registered := false, configured := false), Ok)
    ensures l.state !in {Registering, WaitConfig, Online, ConfigFailed} ==>
              forall e :: e == AuthRejected || e == ConfigApplied || e == ConfigRejected || e == RegisteredEvent ==>
                Advance(l, e) == Outcome(l, ErrState)
  {
  }

  /** Where a life waits or goes on, by what is missing. */
  lemma Waits(l: Life, network: bool, time: bool, now: nat)
    ensures l.state == Stopped ==>
              && Start(l).code == Ok && Start(l).l.failures == 0 && !Start(l).l.registered && !Start(l).l.configured
              && (Start(l).l.state == WaitNetwork <==> !l.networkReady)
              && (Start(l).l.state == WaitTime <==> l.networkReady && !l.timeReady)
              && (Start(l).l.state == Discovery <==> Prepared(l))
    ensures l.state != Stopped ==> Start(l) == Outcome(l, ErrState)
    ensures l.state == Backoff && now >= l.retryAtMs ==>
              && (Tick(l, now).state == WaitNetwork <==> !l.networkReady)
              && (Tick(l, now).state == WaitTime <==> l.networkReady && !l.timeReady)
              && (Tick(l, now).state == Discovery <==> Prepared(l))
    ensures l.state !in {Stopped, Stopping, AuthFailed, Backoff} ==>
              var e := Environment(l, network, time);
              && (!network ==> e.state == WaitNetwork && !e.registered && !e.configured)
              && (network && !time ==> e.state == WaitTime && !e.registered && !e.configured)
              && (network && time ==> e.state == (if l.state in {WaitNetwork, WaitTime} then Discovery else l.state)
                                      && e.registered == l.registered && e.configured == l.configured)
    ensures l.state == Backoff ==> Environment(l, network, time).state == Backoff
    ensures Stop(l).state == Stopped && !Stop(l).registered && !Stop(l).configured
  {
  }

  /**
   * The delay after k failures lies between half and the whole of 1000 * 2^k ms, at most a minute, unless the hint is
   * longer.
   */
  lemma RetryWindow(l: Life, now: nat, hint: nat, random: nat)
    requires l.state in {Discovery, Connect, Tls, Http2, Registering, WaitConfig, Online, ConfigFailed}
    requires now + hint + 60000 <= U64_MAX
    ensures var o := Retry(l, now, hint, random);
            && o.code == Ok && o.l.state == Backoff && !o.l.registered && !o.l.configured
            && Max(Gap(l.failures), hint) <= o.l.retryAtMs - now <= Max(2 * Gap(l.failures), hint)
  {
    hide Ceiling, Jitter, Gap;
    GapIsHalfCeiling(l.failures);
    EvenCeiling(l.failures);
  }

  lemma EvenCeiling(k: nat)
    ensures Ceiling(k) == 2 * (Ceiling(k) / 2)
  {
    var n := Min(k, 6);
    if n > 0 { assert Shifted(n) == 2 * Shifted(n - 1); }
    assert Shifted(0) == 1000;
  }

  /** A life that already waits, has ended or is stopped cannot be retried. */
  lemma NoRetry(l: Life, now: nat, hint: nat, random: nat)
    requires l.state in {Stopped, Stopping, AuthFailed, Backoff, WaitNetwork, WaitTime}
    ensures Retry(l, now, hint, random) == Outcome(l, ErrState)
  {
  }
}
