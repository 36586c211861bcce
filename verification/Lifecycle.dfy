/** The lifecycle reducer: which states are reachable, and how retries are paced. */
module Lifecycle {
  import opened Core
  import CapnpReader
  import Rpc

  datatype State = Stopped | WaitNetwork | WaitTime | Discovery | Connect | Tls | Http2 | Registering | WaitConfig
                 | Online | Backoff | AuthFailed | ConfigFailed | Stopping

  datatype Event = Discovered | Connected | TlsReady | Http2Ready | RegisteredEvent | ConfigApplied | AuthRejected
                 | ConfigRejected

  datatype Life = Life(state: State, networkReady: bool, timeReady: bool, registered: bool, configured: bool,
                       failures: nat, retryAtMs: nat)

  const U32_MAX: nat := 0xFFFF_FFFF
  const U64_MAX: nat := 0xFFFF_FFFF_FFFF_FFFF
  const INITIAL := Life(Stopped, false, false, false, false, 0, 0)

  /** Where a life without a connection waits. */
  function Waiting(network: bool, time: bool): State
  {
    if !network then WaitNetwork else if !time then WaitTime else Discovery
  }

  predicate Terminal(s: State) { s == Stopped || s == Stopping || s == AuthFailed }

  /** Registration is under way or done, and configuration may arrive. */
  predicate Negotiating(s: State) { s == Registering || s == WaitConfig || s == Online || s == ConfigFailed }

  datatype Outcome = Outcome(l: Life, code: Code)

  function Start(l: Life): Outcome
  {
    if l.state != Stopped then Outcome(l, ErrState)
    else Outcome(l.(registered := false, configured := false, failures := 0, retryAtMs := 0,
                    state := Waiting(l.networkReady, l.timeReady)), Ok)
  }

  function Environment(l: Life, network: bool, time: bool): Life
  {
    var m := l.(networkReady := network, timeReady := time);
    if Terminal(l.state) then m
    else if !network || !time then
      m.(registered := false, configured := false, state := if l.state == Backoff then Backoff
          else Waiting(network, time))
    else if l.state == WaitNetwork || l.state == WaitTime then m.(state := Discovery)
    else m
  }

  /** The step of the connection ladder that an event completes. */
  function Rung(e: Event): (State, State)
  {
    match e
    case Discovered => (Discovery, Connect)
    case Connected => (Connect, Tls)
    case TlsReady => (Tls, Http2)
    case _ => (Http2, Registering)
  }

  function Advance(l: Life, e: Event): Outcome
  {
    if Terminal(l.state) || !l.networkReady || !l.timeReady then Outcome(l, ErrState)
    else match e
      case Discovered => Climb(l, e)
      case Connected => Climb(l, e)
      case TlsReady => Climb(l, e)
      case Http2Ready => Climb(l, e)
      case RegisteredEvent =>
        if l.state != Registering && l.state != ConfigFailed then Outcome(l, ErrState)
        else Outcome(l.(registered := true,
                        state := if l.configured then Online else if l.state == ConfigFailed then ConfigFailed
                            else WaitConfig), Ok)
      case ConfigApplied =>
        if !Negotiating(l.state) then Outcome(l, ErrState)
        else Outcome(l.(configured := true, state := if l.registered then Online else Registering), Ok)
      case AuthRejected =>
        if !Negotiating(l.state) then Outcome(l, ErrState)
        else Outcome(l.(registered := false, configured := false, state := AuthFailed), Ok)
      case ConfigRejected =>
        if !Negotiating(l.state) then Outcome(l, ErrState)
        else Outcome(if l.configured then l else l.(state := ConfigFailed), Ok)
  }

  function Climb(l: Life, e: Event): Outcome
  {
    if l.state != Rung(e).0 then Outcome(l, ErrState) else Outcome(l.(state := Rung(e).1), Ok)
  }

  predicate MayRetry(s: State) { !Terminal(s) && s != Backoff && s != WaitNetwork && s != WaitTime }

  /** A thousand doubled i times. */
  function Shifted(i: nat): (n: nat) ensures n >= 1000 { if i == 0 then 1000 else 2 * Shifted(i - 1) }

  /** The longest delay after so many failures: doubling six times, capped at a minute. */
  function Ceiling(failures: nat): (c: nat)
    ensures 1000 <= c <= 60000
  {
    Min(Shifted(Min(failures, 6)), 60000)
  }

  function Jitter(random: nat, half: nat): (j: nat) ensures j <= half { random % (half + 1) }

  /** Equal jitter between half the ceiling and the ceiling, raised to the server's hint. */
  function Delay(failures: nat, hint: nat, random: nat): (d: nat)
    ensures Ceiling(failures) / 2 <= d && hint <= d && d <= Max(Ceiling(failures), hint)
  {
    var half := Ceiling(failures) / 2;
    Max(half + Jitter(random, half), hint)
  }

  function Retry(l: Life, now: nat, hint: nat, random: nat): Outcome
  {
    if !MayRetry(l.state) then Outcome(l, ErrState)
    else Outcome(l.(retryAtMs := Min(now + Delay(l.failures, hint, random), U64_MAX),
                    failures := Min(l.failures + 1, U32_MAX),
                    registered := false, configured := false, state := Backoff), Ok)
  }

  function Tick(l: Life, now: nat): Life
  {
    if l.state == Backoff && now >= l.retryAtMs then l.(state := Waiting(l.networkReady, l.timeReady)) else l
  }

  function Stop(l: Life): Life { l.(registered := false, configured := false, state := Stopped, retryAtMs := 0) }

  // ---- the reachable states

  datatype Op =
    | OpStart
    | OpEnvironment(network: bool, time: bool)
    | OpAdvance(e: Event)
    | OpRetry(now: nat, hint: nat, random: nat)
    | OpTick(now: nat)
    | OpStop

  function Apply(l: Life, op: Op): Life
  {
    match op
    case OpStart => Start(l).l
    case OpEnvironment(network, time) => Environment(l, network, time)
    case OpAdvance(e) => Advance(l, e).l
    case OpRetry(now, hint, random) => Retry(l, now, hint, random).l
    case OpTick(now) => Tick(l, now)
    case OpStop => Stop(l)
  }

  function After(l: Life, ops: seq<Op>): Life
  {
    if ops == [] then l else Apply(After(l, ops[..|ops| - 1]), ops[|ops| - 1])
  }

  predicate HasConnection(s: State) { s == Connect || s == Tls || s == Http2 || Negotiating(s) }

  /** What the state and the flags say about each other. */
  predicate Coherent(l: Life)
  {
    && (l.state == Online <==> l.registered && l.configured)
    && (l.state == WaitConfig ==> l.registered && !l.configured)
    && (l.state == ConfigFailed ==> !l.configured)
    && (l.state == Registering ==> !l.registered)
    && (!Negotiating(l.state) ==> !l.registered && !l.configured)
    && (HasConnection(l.state) || l.state == Discovery ==> l.networkReady && l.timeReady)
    && (l.state == WaitNetwork ==> !l.networkReady)
    && (l.state == WaitTime ==> l.networkReady && !l.timeReady)
    && l.state != Stopping
  }

  lemma ApplyCoherent(l: Life, op: Op)
    requires Coherent(l)
    ensures Coherent(Apply(l, op))
    ensures l.state == AuthFailed && !op.OpStop? ==> Apply(l, op).state == AuthFailed
  {
    hide Delay;
  }

  /** Every state the reducer can reach is coherent. */
  lemma {:induction false} EveryReachableLifeIsCoherent(ops: seq<Op>)
    ensures Coherent(After(INITIAL, ops))
  {
    if ops != [] {
      EveryReachableLifeIsCoherent(ops[..|ops| - 1]);
      ApplyCoherent(After(INITIAL, ops[..|ops| - 1]), ops[|ops| - 1]);
    }
  }

  /** BACKOFF is left only by a stop or by a tick at or after the deadline, whatever the network does. */
  lemma BackoffHolds(l: Life, op: Op)
    requires l.state == Backoff && Apply(l, op).state != Backoff
    ensures op.OpStop? || (op.OpTick? && op.now >= l.retryAtMs)
  {
  }

  // ---- pacing

  /** The least time between the retry that finds k failures and the next one: min(500 * 2^k, 30000) ms. */
  function Gap(k: nat): nat { if k == 0 then 500 else Min(2 * Gap(k - 1), 30000) }

  lemma {:induction false} GapIsHalfCeiling(k: nat)
    ensures Gap(k) == Ceiling(k) / 2 && 500 <= Gap(k) <= 30000
  {
    assert Shifted(5) == 32000 && Shifted(6) == 64000;
    if k > 0 { GapIsHalfCeiling(k - 1); }
  }

  predicate Retries(l: Life, op: Op) { op.OpRetry? && MayRetry(l.state) }

  /** The clock an operation shows; others show none. */
  predicate Shows(op: Op, now: nat) { (op.OpRetry? ==> op.now == now) && (op.OpTick? ==> op.now == now) }

  /** The times shown never run backwards and stay clear of the 64-bit ceiling; hints are 32-bit. */
  ghost predicate Clocked(ops: seq<Op>, clock: seq<nat>)
  {
    && |clock| == |ops|
    && (forall i :: 0 <= i < |ops| ==> Shows(ops[i], clock[i]) && clock[i] <= U64_MAX - U32_MAX - 60000)
    && (forall i, j :: 0 <= i <= j < |clock| ==> clock[i] <= clock[j])
    && (forall i :: 0 <= i < |ops| && ops[i].OpRetry? ==> ops[i].hint <= U32_MAX)
  }

  /** After a retry at `since`, the life is still backing off until at least `until`, or the clock has passed it. */
  predicate Paced(l: Life, until: nat, now: nat) { (l.state == Backoff && l.retryAtMs >= until) || now >= until }

  lemma PacedStep(l: Life, op: Op, until: nat, now: nat, later: nat)
    requires Paced(l, until, now) && now <= later && Shows(op, later) && !op.OpStop?
    ensures Retries(l, op) ==> later >= until
    ensures Paced(Apply(l, op), until, later)
  {
    hide Delay;
  }

  lemma {:induction false} PacedRun(l: Life, ops: seq<Op>, clock: seq<nat>, until: nat, now: nat)
    requires Paced(l, until, now) && Clocked(ops, clock) && (clock != [] ==> now <= clock[0])
    requires forall i :: 0 <= i < |ops| ==> !ops[i].OpStop?
    ensures Paced(After(l, ops), until, Last(clock, now))
  {
    hide Apply;
    if ops != [] {
      var n := |ops| - 1;
      PacedRun(l, ops[..n], clock[..n], until, now);
      PacedStep(After(l, ops[..n]), ops[n], until, Last(clock[..n], now), clock[n]);
    }
  }

  /** The clock of the last operation in a run that began at `since`. */
  ghost function Last(clock: seq<nat>, since: nat): nat { if clock == [] then since else clock[|clock| - 1] }

  lemma ClockedSlice(ops: seq<Op>, clock: seq<nat>, i: nat, j: nat)
    requires Clocked(ops, clock) && i <= j <= |ops|
    ensures Clocked(ops[i..j], clock[i..j])
  {
  }

  /** Two retries with no stop between them are at least Gap(failures) apart, and the first one's hint is honoured. */
  lemma RetriesAreSpaced(l: Life, ops: seq<Op>, clock: seq<nat>)
    requires |ops| >= 2 && Clocked(ops, clock) && forall i :: 0 <= i < |ops| ==> !ops[i].OpStop?
    requires Retries(l, ops[0]) && Retries(After(l, ops[..|ops| - 1]), ops[|ops| - 1])
    ensures clock[|ops| - 1] >= clock[0] + Gap(l.failures)
    ensures clock[|ops| - 1] >= clock[0] + ops[0].hint
  {
    hide Apply, After, MayRetry, Gap;
    var n := |ops| - 1;
    var until: nat := RetryOpensBackoff(l, ops[0], clock[0]);
    AfterSplit(l, ops[..n]);
    var mid, times := ops[1..n], clock[1..n];
    assert ops[..n][1..] == mid;
    ClockedSlice(ops, clock, 1, n);
    PacedRun(Apply(l, ops[0]), mid, times, until, clock[0]);
    PacedStep(After(Apply(l, ops[0]), mid), ops[n], until, Last(times, clock[0]), clock[n]);
  }

  /** A retry opens a backoff that lasts at least the gap and at least the hint. */
  lemma RetryOpensBackoff(l: Life, op: Op, now: nat) returns (until: nat)
    requires Retries(l, op) && Shows(op, now) && now <= U64_MAX - U32_MAX - 60000 && op.hint <= U32_MAX
    ensures until >= now + Gap(l.failures) && until >= now + op.hint && Paced(Apply(l, op), until, now)
  {
    hide Gap, Ceiling, Delay;
    GapIsHalfCeiling(l.failures);
    until := now + Delay(l.failures, op.hint, op.random);
  }

  lemma {:induction false} AfterSplit(l: Life, ops: seq<Op>)
    requires ops != []
    ensures After(l, ops) == After(Apply(l, ops[0]), ops[1..])
  {
    hide Apply;
    if |ops| > 1 {
      var front := ops[..|ops| - 1];
      AfterSplit(l, front);
      assert front[1..] == ops[1..][..|ops| - 2];
    } else {
      assert ops[..0] == [] && ops[1..] == [];
    }
  }

  /** How many retries succeeded. */
  function RetryCount(l: Life, ops: seq<Op>): nat
  {
    if ops == [] then 0 else
      var front := ops[..|ops| - 1];
      RetryCount(l, front) + if Retries(After(l, front), ops[|ops| - 1]) then 1 else 0
  }

  /** What a run of n retries without a stop leaves behind. */
  predicate Counted(l: Life, n: nat) { l.failures == Min(n, U32_MAX) && (l.state == Stopped ==> n == 0) }

  lemma CountedStep(l: Life, op: Op, n: nat)
    requires Counted(l, n) && !op.OpStop?
    ensures Counted(Apply(l, op), n + if Retries(l, op) then 1 else 0)
  {
    hide Delay;
  }

  /** Without a stop, the failure counter is the number of retries so far, saturating at 2^32 - 1. */
  lemma {:induction false} FailuresCountRetries(l: Life, ops: seq<Op>)
    requires l.failures == 0 && forall i :: 0 <= i < |ops| ==> !ops[i].OpStop?
    ensures Counted(After(l, ops), RetryCount(l, ops))
  {
    hide Apply, Retries;
    if ops != [] {
      var front := ops[..|ops| - 1];
      FailuresCountRetries(l, front);
      CountedStep(After(l, front), ops[|ops| - 1], RetryCount(l, front));
    }
  }

  /** Beyond six failures the gap no longer grows, so saturation does not matter. */
  lemma {:induction false} GapSaturates(k: nat)
    requires k >= 6
    ensures Gap(k) == 30000
  {
    if k > 6 {
      GapSaturates(k - 1);
    } else {
      GapIsHalfCeiling(6);
    }
  }

  /** With no stop since the failures were zero: the k-th retry (from 0) and the next are at least Gap(k) ms apart. */
  lemma PacingOverWholeRuns(l: Life, ops: seq<Op>, clock: seq<nat>, i: nat, j: nat)
    requires l.failures == 0 && i < j < |ops| && Clocked(ops, clock)
    requires forall n :: 0 <= n < |ops| ==> !ops[n].OpStop?
    requires Retries(After(l, ops[..i]), ops[i]) && Retries(After(l, ops[..j]), ops[j])
    ensures clock[j] >= clock[i] + Gap(RetryCount(l, ops[..i]))
  {
    hide After, Apply, RetryCount, Gap, Retries;
    FailuresCountRetries(l, ops[..i]);
    var k := RetryCount(l, ops[..i]);
    if k > U32_MAX { GapSaturates(k); GapSaturates(U32_MAX); }
    var run, times := ops[i..j + 1], clock[i..j + 1];
    ClockedSlice(ops, clock, i, j + 1);
    assert run[..|run| - 1] == ops[i..j];
    AfterJoin(l, ops[..j], i);
    assert ops[..j][..i] == ops[..i] && ops[..j][i..] == ops[i..j];
    RetriesAreSpaced(After(l, ops[..i]), run, times);
  }

  lemma {:induction false} AfterJoin(l: Life, ops: seq<Op>, i: nat)
    requires i <= |ops|
    ensures After(l, ops) == After(After(l, ops[..i]), ops[i..])
    decreases |ops| - i
  {
    hide Apply;
    if i == |ops| {
      assert ops[..i] == ops && ops[i..] == [];
    } else {
      AfterJoin(l, ops, i + 1);
      assert ops[..i + 1][..i] == ops[..i];
      AfterSplit(After(l, ops[..i]), ops[i..]);
      assert ops[i..][1..] == ops[i + 1..];
    }
  }

  // ---- the record the transport keeps

  type Count32 = n: nat | n <= 0xFFFF_FFFF

  class LifeRecord {
    var state: State
    var networkReady: bool
    var timeReady: bool
    var registered: bool
    var configured: bool
    var failures: Count32
    var retryAtMs: nat

    ghost function Value(): Life
      reads this
    {
      Life(state, networkReady, timeReady, registered, configured, failures, retryAtMs)
    }

    constructor ()
      ensures Value() == INITIAL
    {
      state, networkReady, timeReady, registered, configured := Stopped, false, false, false, false;
      failures, retryAtMs := 0, 0;
    }

    method StartRun() returns (code: Code)
      modifies this
      ensures Outcome(Value(), code) == Start(old(Value()))
    {
      if state != Stopped { return ErrState; }
      registered, configured := false, false;
      failures := 0;
      retryAtMs := 0;
      state := Waiting(networkReady, timeReady);
      return Ok;
    }

    method SetEnvironment(network: bool, time: bool)
      modifies this
      ensures Value() == Environment(old(Value()), network, time)
    {
      networkReady := network;
      timeReady := time;
      if Terminal(state) { return; }
      if !network || !time {
        registered, configured := false, false;
        if state != Backoff { state := Waiting(networkReady, timeReady); }
      } else if state == WaitNetwork || state == WaitTime {
        state := Discovery;
      }
    }

    method AdvanceBy(event: Event) returns (code: Code)
      modifies this
      ensures Outcome(Value(), code) == Advance(old(Value()), event)
    {
      if Terminal(state) || !networkReady || !timeReady { return ErrState; }
      match event {
        case Discovered =>
          if state != Discovery { return ErrState; }
          state := Connect;
        case Connected =>
          if state != Connect { return ErrState; }
          state := Tls;
        case TlsReady =>
          if state != Tls { return ErrState; }
          state := Http2;
        case Http2Ready =>
          if state != Http2 { return ErrState; }
          state := Registering;
        case RegisteredEvent =>
          if state != Registering && state != ConfigFailed { return ErrState; }
          registered := true;
          state := if configured then Online else if state == ConfigFailed then ConfigFailed else WaitConfig;
        case ConfigApplied =>
          if !Negotiating(state) { return ErrState; }
          configured := true;
          state := if registered then Online else Registering;
        case AuthRejected =>
          if !Negotiating(state) { return ErrState; }
          registered, configured := false, false;
          state := AuthFailed;
        case ConfigRejected =>
          if !Negotiating(state) { return ErrState; }
          if !configured { state := ConfigFailed; }
      }
      return Ok;
    }

    method RetryLater(now: nat, hint: nat, random: nat) returns (code: Code)
      requires now <= U64_MAX && hint <= U32_MAX
      modifies this
      ensures Outcome(Value(), code) == Retry(old(Value()), now, hint, random)
    {
      hide Shifted, Jitter;
      if Terminal(state) || state == Backoff || state == WaitNetwork || state == WaitTime { return ErrState; }
      var shift := if failures < 6 then failures else 6;
      var ceiling := Shifted(shift);
      if ceiling > 60000 { ceiling := 60000; }
      var delay := ceiling / 2 + Jitter(random, ceiling / 2);
      if delay < hint { delay := hint; }
      retryAtMs := if now > U64_MAX - delay then U64_MAX else now + delay;
      if failures < U32_MAX { failures := failures + 1; }
      registered, configured := false, false;
      state := Backoff;
      return Ok;
    }

    method TickAt(now: nat)
      modifies this
      ensures Value() == Tick(old(Value()), now)
    {
      if state == Backoff && now >= retryAtMs { state := Waiting(networkReady, timeReady); }
    }

    method StopRun()
      modifies this
      ensures Value() == Stop(old(Value()))
    {
      registered, configured := false, false;
      state := Stopped;
      retryAtMs := 0;
    }
  }

  // ---- the server's own delay

  /** The transport's 32-bit hint from the RPC client's milliseconds. */
  function Hint(c: Rpc.Client): nat
  {
    var ms := if c.state == Rpc.Rejected then c.retryAfterMs else 0;
    Min(ms, U32_MAX)
  }

  /** ceil(max(d, 0) / 10^6) for a signed 64-bit d given by its bits. */
  function CeilMs(bits: nat): nat { if bits >= 0x8000_0000_0000_0000 then 0 else (bits + 999999) / 1000000 }

  lemma RetryMsIsCeiling(bits: nat)
    requires bits < U64
    ensures Rpc.RetryMs(bits) == CeilMs(bits)
  {
    var q, r := bits / 1000000, bits % 1000000;
    assert bits == 1000000 * q + r;
  }

  /** What the transport does to the lifecycle when a connection fails. */
  function AfterFailure(c: Rpc.Client, l: Life, now: nat, random: nat): Outcome
  {
    if c.state == Rpc.Rejected && !c.shouldRetry then Advance(l, AuthRejected) else Retry(l, now, Hint(c), random)
  }

  lemma NanosecondsFit(r: CapnpReader.Reader, details: CapnpReader.Value)
    ensures CapnpReader.UInt(r, details, 0, 8).n < U64
  {
    Pow256Values();
    if details.StructValue? && r.error == Ok && 8 <= details.dataWords * 8
       && CapnpReader.InRange(r.segments, details.segment, details.word, details.dataWords) {
      LeBound(r.segments[details.segment][details.word * 8..details.word * 8 + 8]);
    }
  }

  /**
   * A reply that rejects the registration, asks for a retry and carries d nanoseconds delays the next attempt by at
   * least min(ceil(max(d, 0) / 10^6), 2^32 - 1) ms; one that asks for none ends the run until it is stopped.
   */
  lemma ServerDelayIsHonoured(c: Rpc.Client, r: CapnpReader.Reader, details: CapnpReader.Value, l: Life, now: nat,
      random: nat)
    requires Rpc.RejectionResult(c, r, details).code == Ok
    ensures var d := Rpc.RejectionResult(c, r, details).c;
            && (d.shouldRetry && MayRetry(l.state) && now <= U64_MAX - U32_MAX - 60000 ==>
                  AfterFailure(d, l, now, random).l.state == Backoff
                  && AfterFailure(d, l, now, random).l.retryAtMs >= now
                      + Min(CeilMs(CapnpReader.UInt(r, details, 0, 8).n), U32_MAX))
            && (!d.shouldRetry && Negotiating(l.state) && l.networkReady && l.timeReady ==>
                  AfterFailure(d, l, now, random).l.state == AuthFailed)
  {
    hide Delay, Rpc.RetryMs, CeilMs, CapnpReader.UInt, CapnpReader.Field, CapnpReader.Data;
    NanosecondsFit(r, details);
    RetryMsIsCeiling(CapnpReader.UInt(r, details, 0, 8).n);
  }
}
