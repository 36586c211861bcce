/** The control stream end to end: the peer's bytes, cut anyhow, through framer, RPC client and queue. */
module ControlStream {
  import opened Core
  import opened RpcMessages
  import ControlQueue
  import Framing
  import Rpc

  /** What this side brings to the conversation. */
  datatype Identity = Identity(cred: Credentials, opt: Options)

  /** A frame is received; once that imports the capability, the registration follows at once. */
  function OpsFor(c: Rpc.Client, frame: Bytes, me: Identity): seq<Rpc.Op>
  {
    var d := Rpc.Receive(c, frame);
    [Rpc.OpReceive(frame)] + if d.code == Ok && d.c.state == Rpc.ReadyToRegister then [Rpc.OpRegister(me.cred, me.opt)]
        else []
  }

  /** The operations a stream of frames leads to; the stream opens with the bootstrap question. */
  function Ops(frames: seq<Bytes>, me: Identity): seq<Rpc.Op>
  {
    if frames == [] then [Rpc.OpBegin]
    else
      var before := Ops(frames[..|frames| - 1], me);
      before + OpsFor(Rpc.RunOf(before).c, frames[|frames| - 1], me)
  }

  /** The code with which the client answers the framer for the last frame. */
  function Verdict(frames: seq<Bytes>, me: Identity): Code
  {
    if frames == [] then Ok
    else
      var d := Rpc.Receive(Rpc.RunOf(Ops(frames[..|frames| - 1], me)).c, frames[|frames| - 1]);
      if d.code != Ok then d.code
      else if d.c.state == Rpc.ReadyToRegister then Rpc.Register(d.c, me.cred, me.opt).code
      else Ok
  }

  function Answers(me: Identity): Framing.Callback { frames => Verdict(frames, me) }

  /** Everything the client sends in answer to some frames. */
  function Replies(frames: seq<Bytes>, me: Identity): Bytes
  {
    ControlQueue.RunFitsQueue(Ops(frames, me));
    Frames(Rpc.RunOf(Ops(frames, me)).sent)
  }

  /** What the control stream has emitted once the peer's bytes have arrived in these chunks. */
  function Output(chunks: seq<Bytes>, cap: nat, me: Identity): Bytes
  {
    Replies(Framing.FeedAll(chunks, cap, Answers(me)).frames, me)
  }

  /** The output is that of the whole byte stream, however it was cut, and at most 952 bytes. */
  lemma OutputIsOfTheStream(chunks: seq<Bytes>, cap: nat, me: Identity)
    ensures Output(chunks, cap, me) == Replies(Framing.Split(Framing.Flatten(chunks), cap, [], Answers(me)).frames, me)
    ensures |Output(chunks, cap, me)| <= 952
  {
    hide Frames, Framing.Split, Framing.FeedAll, Ops;
    Framing.ChunkingIsInvisible(chunks, cap, Answers(me));
    ControlQueue.RunFitsQueue(Ops(Framing.FeedAll(chunks, cap, Answers(me)).frames, me));
  }

  /** Two cuttings of the same bytes give the same output, the same client and the same error. */
  lemma CuttingIsInvisible(a: seq<Bytes>, b: seq<Bytes>, cap: nat, me: Identity)
    requires Framing.Flatten(a) == Framing.Flatten(b)
    ensures Output(a, cap, me) == Output(b, cap, me)
    ensures Framing.FeedAll(a, cap, Answers(me)) == Framing.FeedAll(b, cap, Answers(me))
  {
    hide Replies, Framing.Split, Framing.FeedAll;
    Framing.ChunkingIsInvisible(a, cap, Answers(me));
    Framing.ChunkingIsInvisible(b, cap, Answers(me));
  }

  // ---- more bytes only add to the output

  predicate Extends(more: Bytes, b: Bytes) { |b| <= |more| && more[..|b|] == b }

  lemma {:induction false} RunExtends(ops: seq<Rpc.Op>, more: seq<Rpc.Op>)
    ensures AllWellTyped(Rpc.RunOf(ops).sent) && AllWellTyped(Rpc.RunOf(ops + more).sent)
    ensures Extends(Frames(Rpc.RunOf(ops + more).sent), Frames(Rpc.RunOf(ops).sent))
    decreases |more|
  {
    hide Frames, Rpc.RunOf, Rpc.Apply;
    ControlQueue.RunFitsQueue(ops);
    ControlQueue.RunFitsQueue(ops + more);
    if more == [] {
      assert ops + more == ops;
    } else {
      var front, last := more[..|more| - 1], more[|more| - 1];
      RunExtends(ops, front);
      ControlQueue.StepWellTyped(ops + front, last);
      assert ops + front + [last] == ops + more;
    }
  }

  lemma {:induction false} RepliesExtend(frames: seq<Bytes>, more: seq<Bytes>, me: Identity)
    ensures Extends(Replies(frames + more, me), Replies(frames, me))
    decreases |more|
  {
    hide Frames, OpsFor, Rpc.RunOf;
    if more == [] {
      assert frames + more == frames;
    } else {
      var front, last := frames + more[..|more| - 1], more[|more| - 1];
      RepliesExtend(frames, more[..|more| - 1], me);
      assert (frames + more)[..|front|] == front && (frames + more)[|front|] == last;
      var before := Ops(front, me);
      RunExtends(before, OpsFor(Rpc.RunOf(before).c, last, me));
    }
  }

  /** A further chunk never takes back or changes what was emitted. */
  lemma OutputOnlyGrows(chunks: seq<Bytes>, chunk: Bytes, cap: nat, me: Identity)
    ensures Extends(Output(chunks + [chunk], cap, me), Output(chunks, cap, me))
  {
    hide Replies, Framing.Split, Extends;
    var before := Framing.FeedAll(chunks, cap, Answers(me));
    assert (chunks + [chunk])[..|chunks|] == chunks;
    var after := Framing.FeedAll(chunks + [chunk], cap, Answers(me));
    if before.error != Ok {
      assert before.frames + [] == before.frames;
      RepliesExtend(before.frames, [], me);
    } else {
      var p := Framing.Split(before.residue + chunk, cap, [] + before.frames, Answers(me));
      assert after.frames == before.frames + p.frames;
      RepliesExtend(before.frames, p.frames, me);
    }
  }

  /**
   * Whatever the queue hands out meanwhile, handed out and queued bytes are the output of the stream received so far.
   */
  lemma QueueHoldsTheOutput(events: seq<ControlQueue.Event>, chunks: seq<Bytes>, cap: nat, me: Identity)
    requires ControlQueue.HappenAll(events).ops == Ops(Framing.FeedAll(chunks, cap, Answers(me)).frames, me)
    ensures var s := ControlQueue.HappenAll(events);
            !s.refused
                && s.handed + s.queue
                == Replies(Framing.Split(Framing.Flatten(chunks), cap, [], Answers(me)).frames, me)
  {
    hide Frames, Framing.Split, Framing.FeedAll, Ops, ControlQueue.HappenAll;
    ControlQueue.EveryControlRunIsLossless(events);
    OutputIsOfTheStream(chunks, cap, me);
  }

  /** A frame the client refuses ends the conversation, unless it was only the registration that was refused. */
  lemma RefusalIsFinal(frames: seq<Bytes>, me: Identity)
    requires Verdict(frames, me) != Ok
    ensures var c := Rpc.RunOf(Ops(frames, me)).c;
            Rpc.Final(c.state) || (c.state == Rpc.ReadyToRegister && !Registrable(me.cred, me.opt))
  {
    hide Rpc.Receive, Registrable, Rpc.RunOf;
    var before := Ops(frames[..|frames| - 1], me);
    var c, frame := Rpc.RunOf(before).c, frames[|frames| - 1];
    NeverIdle(frames[..|frames| - 1], me);
    Rpc.ReceiveEdges(c, frame);
    var d := Rpc.Receive(c, frame);
    RunSnoc(before, Rpc.OpReceive(frame));
    if d.code == Ok {
      var next := before + [Rpc.OpReceive(frame)];
      RunSnoc(next, Rpc.OpRegister(me.cred, me.opt));
      assert Ops(frames, me) == next + [Rpc.OpRegister(me.cred, me.opt)];
      Rpc.EveryRunIsOnScript(next);
    } else {
      assert Ops(frames, me) == before + [Rpc.OpReceive(frame)];
    }
  }

  /** Once begun, a conversation is never idle again. */
  lemma {:induction false} NeverIdle(frames: seq<Bytes>, me: Identity)
    ensures var c := Rpc.RunOf(Ops(frames, me)).c; Rpc.Typed(c) && c.state != Rpc.Idle
  {
    hide Rpc.Receive, Registrable, Rpc.RunOf;
    if frames == [] {
      BeginsBootstrapping();
    } else {
      var before, frame := Ops(frames[..|frames| - 1], me), frames[|frames| - 1];
      NeverIdle(frames[..|frames| - 1], me);
      Rpc.ReceiveEdges(Rpc.RunOf(before).c, frame);
      RunSnoc(before, Rpc.OpReceive(frame));
      var next := before + [Rpc.OpReceive(frame)];
      RunSnoc(next, Rpc.OpRegister(me.cred, me.opt));
      assert Ops(frames, me) == next || Ops(frames, me) == next + [Rpc.OpRegister(me.cred, me.opt)];
    }
  }

  lemma BeginsBootstrapping()
    ensures Rpc.RunOf([Rpc.OpBegin]).c == Rpc.FRESH.(state := Rpc.Bootstrapping)
  {
    assert [Rpc.OpBegin][..0] == [];
    assert Rpc.RunOf([]) == Rpc.Run(Rpc.FRESH, []);
  }

  lemma RunSnoc(ops: seq<Rpc.Op>, op: Rpc.Op)
    ensures Rpc.RunOf(ops + [op]).c == Rpc.Apply(Rpc.RunOf(ops).c, op).c
  {
    hide Rpc.Apply;
    assert (ops + [op])[..|ops|] == ops;
  }
}
