/** The control stream's output: the RPC client's messages pass through a fixed byte queue without loss. */
module ControlQueue {
  import opened Core
  import opened RpcMessages
  import CapnpTree
  import Rpc

  const QUEUE := 4096

  // ---- how much one conversation can emit

  function Total(l: seq<Label>): nat
  {
    if l == [] then 0 else Total(l[..|l| - 1]) + Longest(l[|l| - 1])
  }

  lemma {:induction false} FramesWithin(ms: seq<Msg>)
    requires AllWellTyped(ms)
    ensures |Frames(ms)| <= Total(Rpc.Labels(ms))
  {
    hide Frame, WellTyped, Longest, LabelOf, Rpc.Labels, CapnpTree.Sendable;
    if ms != [] {
      var front := ms[..|ms| - 1];
      FramesWithin(front);
      FrameFits(ms[|ms| - 1]);
      LabelsFront(ms);
    }
  }

  lemma LabelsFront(ms: seq<Msg>)
    requires ms != []
    ensures Rpc.Labels(ms)[..|ms| - 1] == Rpc.Labels(ms[..|ms| - 1])
        && Rpc.Labels(ms)[|ms| - 1] == LabelOf(ms[|ms| - 1])
  {
    hide LabelOf;
  }

  lemma {:induction false} FramesAppend(a: seq<Msg>, b: seq<Msg>)
    requires AllWellTyped(a) && AllWellTyped(b)
    ensures AllWellTyped(a + b) && Frames(a + b) == Frames(a) + Frames(b)
  {
    hide Frame;
    if b == [] {
      assert a + b == a && Frames(a) + [] == Frames(a);
    } else {
      var front := b[..|b| - 1];
      FramesAppend(a, front);
      assert (a + b)[..|a + b| - 1] == a + front;
      assert Frames(a) + Frames(front) + Frame(b[|b| - 1]) == Frames(a) + (Frames(front) + Frame(b[|b| - 1]));
    }
  }

  lemma TotalSnoc(l: seq<Label>, x: Label)
    ensures Total(l + [x]) == Total(l) + Longest(x)
  {
    assert (l + [x])[..|l|] == l;
  }

  const TOTALS := [0, 48, 88, 712, 752, 864, 904, 944]

  lemma {:induction false} ScriptTotals(k: nat)
    requires k <= 7
    ensures Total(Rpc.SCRIPT[..k]) == TOTALS[k] <= 944 && (k <= 5 ==> TOTALS[k] <= 864)
  {
    if k > 0 {
      ScriptTotals(k - 1);
      Rpc.NextLabels(k - 1);
      ScriptStep(k - 1);
    }
  }

  lemma ScriptStep(k: nat)
    requires k < 7
    ensures Total(Rpc.SCRIPT[..k] + [Rpc.SCRIPT[k]]) == Total(Rpc.SCRIPT[..k]) + TOTALS[k + 1] - TOTALS[k]
  {
    hide Total;
    TotalSnoc(Rpc.SCRIPT[..k], Rpc.SCRIPT[k]);
  }

  /** Labels on script number their questions 0, 1 and 2, so every message may be framed. */
  lemma OnScriptTotals(run: Rpc.Run)
    requires Rpc.OnScript(run)
    ensures Total(Rpc.Labels(run.sent)) <= 952
    ensures forall i :: 0 <= i < |run.sent| ==> (run.sent[i].Finish? ==> run.sent[i].id <= 2)
  {
    hide Total;
    var l := Rpc.Labels(run.sent);
    if run.c.state != Rpc.Failed {
      ScriptTotals(Rpc.Stage(run.c.state));
    } else {
      var k: nat :| Rpc.CutShort(l, k) && (run.c.haveCapability <==> 2 <= k);
      ScriptTotals(k);
      TotalSnoc(Rpc.SCRIPT[..k], LAbort);
      if k > 0 { TotalSnoc(Rpc.SCRIPT[..k], LFinish((k - 1) / 2)); }
    }
    forall i | 0 <= i < |run.sent| && run.sent[i].Finish? ensures run.sent[i].id <= 2 {
      assert l[i] == LFinish(run.sent[i].id);
    }
  }

  /** Over any run, everything emitted is frameable and comes to fewer than 1024 bytes. */
  lemma RunFitsQueue(ops: seq<Rpc.Op>)
    ensures AllWellTyped(Rpc.RunOf(ops).sent)
    ensures |Frames(Rpc.RunOf(ops).sent)| <= 952
  {
    hide Frames;
    var run := Rpc.RunOf(ops);
    Rpc.EveryRunIsOnScript(ops);
    OnScriptTotals(run);
    forall i | 0 <= i < |run.sent| ensures WellTyped(run.sent[i]) { assert Rpc.Names(run.c, run.sent[i]); }
    FramesWithin(run.sent);
  }

  // ---- the conversation through the queue

  datatype Event = Operate(op: Rpc.Op) | Drain(cap: nat)

  datatype Control = Control(ops: seq<Rpc.Op>, queue: Bytes, handed: Bytes, refused: bool)

  const OPEN := Control([], [], [], false)

  /** Appends all of `b`, or nothing if it does not fit. */
  function Append(s: Control, b: Bytes): Control
  {
    if |b| > QUEUE - |s.queue| then s.(refused := true) else s.(queue := s.queue + b)
  }

  function Hand(s: Control, cap: nat): Control
  {
    var n := Min(|s.queue|, cap);
    s.(queue := s.queue[n..], handed := s.handed + s.queue[..n])
  }

  lemma StepWellTyped(ops: seq<Rpc.Op>, op: Rpc.Op)
    ensures AllWellTyped(Rpc.RunOf(ops).sent) && AllWellTyped(Rpc.Apply(Rpc.RunOf(ops).c, op).sent)
    ensures Frames(Rpc.RunOf(ops + [op]).sent) == Frames(Rpc.RunOf(ops).sent)
        + Frames(Rpc.Apply(Rpc.RunOf(ops).c, op).sent)
    ensures |Frames(Rpc.RunOf(ops + [op]).sent)| <= 952
  {
    hide Frames, Rpc.Apply;
    RunFitsQueue(ops);
    RunFitsQueue(ops + [op]);
    assert (ops + [op])[..|ops|] == ops;
    var before, more := Rpc.RunOf(ops).sent, Rpc.Apply(Rpc.RunOf(ops).c, op).sent;
    var all := Rpc.RunOf(ops + [op]).sent;
    assert all == before + more;
    forall i | 0 <= i < |more| ensures WellTyped(more[i]) { assert all[|before| + i] == more[i]; }
    FramesAppend(before, more);
  }

  function Happen(s: Control, e: Event): Control
  {
    match e
    case Drain(cap) => Hand(s, cap)
    case Operate(op) =>
      StepWellTyped(s.ops, op);
      Append(s.(ops := s.ops + [op]), Frames(Rpc.Apply(Rpc.RunOf(s.ops).c, op).sent))
  }

  function HappenAll(events: seq<Event>): Control
  {
    if events == [] then OPEN else Happen(HappenAll(events[..|events| - 1]), events[|events| - 1])
  }

  /** Bytes handed out, then bytes queued, are exactly the frames of everything sent; nothing was refused. */
  predicate Lossless(s: Control)
  {
    && AllWellTyped(Rpc.RunOf(s.ops).sent) && |Frames(Rpc.RunOf(s.ops).sent)| <= 952
    && !s.refused && s.handed + s.queue == Frames(Rpc.RunOf(s.ops).sent)
  }

  lemma HappenLossless(s: Control, e: Event)
    requires Lossless(s)
    ensures Lossless(Happen(s, e))
  {
    hide Frames, Rpc.RunOf, Rpc.Apply;
    match e {
      case Drain(cap) =>
        var n := Min(|s.queue|, cap);
        assert s.handed + s.queue[..n] + s.queue[n..] == s.handed + s.queue;
      case Operate(op) =>
        StepWellTyped(s.ops, op);
        RunFitsQueue(s.ops + [op]);
        var b := Frames(Rpc.Apply(Rpc.RunOf(s.ops).c, op).sent);
        assert s.handed + (s.queue + b) == s.handed + s.queue + b;
    }
  }

  /** However operations and drains interleave - even with no drain at all - the queue never refuses an append. */
  lemma {:induction false} EveryControlRunIsLossless(events: seq<Event>)
    ensures Lossless(HappenAll(events))
  {
    hide Happen;
    if events == [] {
      assert Rpc.RunOf([]).sent == [] && Frames([]) == [];
      assert [] + OPEN.queue == OPEN.queue;
    } else {
      EveryControlRunIsLossless(events[..|events| - 1]);
      HappenLossless(HappenAll(events[..|events| - 1]), events[|events| - 1]);
    }
  }

  /** End of stream is announced only once the conversation is closed and all of it has been handed out. */
  predicate Ended(s: Control) { Rpc.RunOf(s.ops).c.state == Rpc.Closed && s.queue == [] }

  lemma EofMeansEverythingHanded(events: seq<Event>)
    requires Ended(HappenAll(events))
    ensures var s := HappenAll(events);
            && AllWellTyped(Rpc.RunOf(s.ops).sent) && s.handed == Frames(Rpc.RunOf(s.ops).sent)
            && Rpc.Labels(Rpc.RunOf(s.ops).sent) == Rpc.SCRIPT
  {
    hide Frames, HappenAll;
    EveryControlRunIsLossless(events);
    var s := HappenAll(events);
    Rpc.EveryRunIsOnScript(s.ops);
    assert s.handed + [] == s.handed;
    assert Rpc.SCRIPT[..7] == Rpc.SCRIPT;
  }

  // ---- the queue itself

  class ByteQueue {
    const buffer: array<Byte>
    var queued: nat
    ghost var appended: Bytes  // every byte ever accepted
    ghost var handed: Bytes    // every byte ever given out

    ghost predicate Valid()
      reads this, buffer
    {
      buffer.Length == QUEUE && queued <= QUEUE && appended == handed + buffer[..queued]
    }

    constructor ()
      ensures Valid() && appended == [] && handed == [] && queued == 0 && fresh(buffer)
    {
      buffer := new Byte[QUEUE](i => 0);
      queued, appended, handed := 0, [], [];
    }

    method AppendRpc(bytes: Bytes) returns (rc: Code)
      requires Valid()
      modifies this, buffer
      ensures Valid() && handed == old(handed)
      ensures rc == if |bytes| > QUEUE - old(queued) then ErrLimit else Ok
      ensures appended == if rc == Ok then old(appended) + bytes else old(appended)
      ensures buffer[..queued] == if rc == Ok then old(buffer[..queued]) + bytes else old(buffer[..queued])
    {
      if |bytes| > QUEUE - queued { return ErrLimit; }
      forall k | 0 <= k < |bytes| { buffer[queued + k] := bytes[k]; }
      queued := queued + |bytes|;
      appended := appended + bytes;
      assert buffer[..queued] == old(buffer[..queued]) + bytes;
      assert handed + (old(buffer[..queued]) + bytes) == handed + old(buffer[..queued]) + bytes;
      return Ok;
    }

    /** Gives out up to `cap` bytes; `eof` only when the conversation is closed and nothing is left. */
    method ReadOut(cap: nat, closed: bool) returns (rc: Code, out: Bytes, eof: bool)
      requires Valid()
      modifies this, buffer
      ensures Valid() && appended == old(appended) && handed == old(handed) + out
      ensures out == old(buffer[..queued])[..Min(old(queued), cap)]
      ensures buffer[..queued] == old(buffer[..queued])[Min(old(queued), cap)..]
      ensures eof <==> closed && queued == 0
      ensures rc == if out != [] || eof then Ok else ErrState
      ensures eof ==> handed == appended
    {
      var n := Min(queued, cap);
      out := buffer[..n];
      Handing(handed, buffer[..queued], n);
      assert buffer[..queued][..n] == out;
      if n > 0 {
        Shift(n);
        handed := handed + out;
      }
      eof := closed && queued == 0;
      rc := if n > 0 || eof then Ok else ErrState;
      Handing(handed, buffer[..queued], 0);
    }

    /** Moves what is behind the first n bytes to the front and clears the bytes it leaves. */
    method Shift(n: nat)
      requires n <= queued <= buffer.Length
      modifies `queued, buffer
      ensures queued == old(queued) - n && buffer[..queued] == old(buffer[..queued])[n..]
    {
      var rest := queued - n;
      forall k | 0 <= k < rest { buffer[k] := buffer[n + k]; }
      forall k | rest <= k < rest + n { buffer[k] := 0; }
      queued := rest;
    }
  }

  /** Moving the first n bytes of a queue to what was handed out loses nothing. */
  lemma Handing(handed: Bytes, queue: Bytes, n: nat)
    requires n <= |queue|
    ensures (handed + queue[..n]) + queue[n..] == handed + queue
    ensures queue == [] ==> handed + queue == handed
  {
  }
}
