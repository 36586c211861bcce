/** The client's short messages, read back as the server would; and a reply that registers it. */
module RpcReadBack {
  import opened Core
  import opened CapnpReader
  import opened CapnpObjects
  import opened RpcMessages
  import opened RpcReplies
  import CapnpLayouts
  import CapnpSafety
  import CapnpTree
  import Rpc

  /** What a short message says: its kind, the numbers its body may hold, and the text of its slot. */
  datatype Said = Said(code: Code, kind: nat, id: nat, flag: nat, count: nat, reason: Bytes)

  function ReadSmall(frame: Bytes): Said
  {
    var root := Root(Init(frame));
    var kind := UInt(root.r, root.v, 0, 2);
    var body := Field(kind.r, root.v, 0);
    var id := UInt(body.r, body.v, 0, 4);
    var flag := UInt(id.r, body.v, 4, 1);
    var count := UInt(flag.r, body.v, 4, 4);
    var slot := Field(count.r, body.v, 0);
    var reason := Data(slot.r, slot.v, true);
    Said(reason.r.error, kind.n, id.n, flag.n, count.n, reason.b)
  }

  lemma SmallReads(frame: Bytes, o: Obj, kind: nat, reason: Bytes)
    requires Carries(frame, o) && IsMessage(o, kind) && Readable(o)
    requires var text := Slot(Slot(o, 0), 0); if text.Nil? then reason == [] else IsText(text, reason)
    ensures var b := Slot(o, 0); ReadSmall(frame) == Said(Ok, kind, Num(b, 0, 4), Num(b, 4, 1), Num(b, 4, 4), reason)
  {
    hide Init, Root, Field, UInt, Data, Shows, Own, Weight, CapnpSafety.Sound;
    CapnpSafety.InitIsSound(frame);
    ReadRoot(frame, o) by { WeightIsOwn(o); }
    var root := Root(Init(frame));
    RecordsAreStructs(root.r.segments, root.v, o);
    NeedsNothing(root);
    var body := ReachesBody(frame, o, kind);
    var k := UInt(root.r, root.v, 0, 2);
    SlotWeights(o, 0, 1);
    WeightIsOwn(Slot(o, 0));
    ReadNum(root.r, root.v, o, 0, 2);
    ReadField(k.r, root.v, o, 0);
    RecordsAreStructs(Field(k.r, root.v, 0).r.segments, Field(k.r, root.v, 0).v, Slot(o, 0));
    NeedsNothing(Field(k.r, root.v, 0));
    var b := Slot(o, 0);
    SlotWeights(b, 0, 1);
    WeightIsOwn(Slot(b, 0));
    ReadNum(body.r, body.v, b, 0, 4);
    var id := UInt(body.r, body.v, 0, 4);
    ReadNum(id.r, body.v, b, 4, 1);
    var flag := UInt(id.r, body.v, 4, 1);
    ReadNum(flag.r, body.v, b, 4, 4);
    var count := UInt(flag.r, body.v, 4, 4);
    ReadField(count.r, body.v, b, 0);
    var slot := Field(count.r, body.v, 0);
    ReadBytes(slot.r, slot.v, Slot(b, 0));
    assert (reason + [0])[..|reason|] == reason;
  }

  // ---- the short messages

  lemma NumAt(data: Bytes, slots: seq<Obj>, byte: nat, width: nat, v: nat)
    requires byte + width <= |data| && v < Pow256(width) && data[byte..byte + width] == ToLe(width, v)
    ensures Num(Record(data, slots), byte, width) == v
  {
    LeToLe(width, v);
  }

  /** A message with one record, whose slot is empty or a text. */
  lemma EnvelopeSays(m: Msg, kind: nat, data: Bytes, fields: seq<CapnpTree.Node>, reason: Bytes)
    requires WellTyped(m) && Tree(m) == Envelope(kind, CapnpTree.Struct(data, fields)) && kind < U16 && |data| == 8
    requires (reason == [] && (fields == [] || fields == [CapnpTree.Empty]))
             || (fields == [CapnpTree.Blob(reason, true)] && |reason| < 100)
    ensures var b := Record(data, if fields == [] then [] else CapnpLayouts.ObjsOf(fields));
            ReadSmall(Frame(m)) == Said(Ok, kind, Num(b, 0, 4), Num(b, 4, 1), Num(b, 4, 4), reason)
  {
    hide ReadSmall, ToLe, CapnpTree.Size, CapnpTree.Aligned, CapnpTree.Message, Carries;
    var body := CapnpTree.Struct(data, fields);
    var o := CapnpLayouts.ObjOf(Tree(m));
    FrameFits(m);
    LevelsOf(kind, body);
    CapnpLayouts.MessageCarries(Tree(m));
    var b := CapnpLayouts.ObjOf(body);
    assert CapnpLayouts.ObjsOf([body]) == [b];
    assert o == Record(ToLe(2, kind) + CapnpTree.Zeros(6), [b]);
    Pow256Values();
    assert (ToLe(2, kind) + CapnpTree.Zeros(6))[0..2] == ToLe(2, kind);
    NumAt(ToLe(2, kind) + CapnpTree.Zeros(6), [b], 0, 2, kind);
    if fields == [CapnpTree.Blob(reason, true)] {
      assert CapnpLayouts.ObjsOf(fields) == [CapnpObjects.Blob(reason + [0])];
    }
    LightMessage(o, b, reason);
    SmallReads(Frame(m), o, kind, reason);
  }

  lemma LevelsOf(kind: nat, body: CapnpTree.Node)
    requires body.Struct? && forall i :: 0 <= i < |body.fields| ==> CapnpTree.Children(body.fields[i]) == []
    ensures CapnpLayouts.Shallow(Envelope(kind, body), DEPTH_MAX)
  {
    forall i | 0 <= i < |body.fields| ensures CapnpLayouts.Shallow(body.fields[i], DEPTH_MAX - 2) { }
    assert CapnpLayouts.Shallow(body, DEPTH_MAX - 1);
    assert CapnpTree.Children(Envelope(kind, body)) == [body];
  }

  lemma LightMessage(o: Obj, b: Obj, reason: Bytes)
    requires o.Record? && |o.data| == 8 && o.slots == [b] && b.Record? && |b.data| == 8 && |reason| < 100
    requires b.slots == [] || b.slots == [Nil] || b.slots == [CapnpObjects.Blob(reason + [0])]
    ensures Readable(o)
  {
    assert b.slots != [] ==> b.slots[1..] == [] && WeightAll(b.slots) == Weight(b.slots[0]) + WeightAll([]);
    assert [b][1..] == [] && WeightAll([b]) == Weight(b) + WeightAll([]);
    assert Weight(b) <= 4 + 2 + 200;
  }

  lemma BootstrapReadsBack()
    ensures ReadSmall(Frame(Bootstrap)) == Said(Ok, 8, 0, 0, 0, [])
  {
    hide ReadSmall, Frame;
    var data := CapnpTree.Zeros(8);
    EnvelopeSays(Bootstrap, 8, data, [CapnpTree.Empty], []);
    LeZero();
  }

  lemma LeZero()
    ensures Le([0]) == 0 && Le([0, 0, 0, 0]) == 0
    ensures forall d: Bytes :: |d| == 8 && d == CapnpTree.Zeros(8) ==>
        d[0..4] == [0, 0, 0, 0] && d[4..8] == [0, 0, 0, 0] && d[4..5] == [0]
  {
    assert [0, 0, 0, 0][1..] == [0, 0, 0] && [0, 0, 0][1..] == [0, 0] && [0, 0][1..] == [0] && [0][1..] == [];
  }

  /** A Finish names its question, and its flag is zero exactly when results are released. */
  lemma FinishReadsBack(id: nat, release: bool)
    requires id < U32
    ensures var said := ReadSmall(Frame(Finish(id, release)));
            said.code == Ok && said.kind == 4 && said.id == id && said.flag == (if release then 0 else 1)
                && said.reason == []
  {
    hide ReadSmall, Frame, ToLe;
    var flag: Byte := if release then 0 else 1;
    var data := ToLe(4, id) + [flag] + CapnpTree.Zeros(3);
    EnvelopeSays(Finish(id, release), 4, data, [], []);
    Pow256Values();
    assert data[0..4] == ToLe(4, id) && data[4..5] == [flag];
    NumAt(data, [], 0, 4, id);
    OneLe(flag);
  }

  lemma OneLe(b: Byte)
    ensures Le([b]) == b
  {
    assert [b][1..] == [];
  }

  /** A Release gives back one reference of the capability. */
  lemma ReleaseReadsBack(cap: nat)
    requires cap < U32
    ensures var said := ReadSmall(Frame(ReleaseCap(cap)));
            said.code == Ok && said.kind == 6 && said.id == cap && said.count == 1 && said.reason == []
  {
    hide ReadSmall, Frame, ToLe;
    var data := ToLe(4, cap) + ToLe(4, 1);
    EnvelopeSays(ReleaseCap(cap), 6, data, [], []);
    Pow256Values();
    assert data[0..4] == ToLe(4, cap) && data[4..8] == ToLe(4, 1);
    NumAt(data, [], 0, 4, cap);
    NumAt(data, [], 4, 4, 1);
  }

  /** An Abort gives its reason. */
  lemma AbortReadsBack()
    ensures var said := ReadSmall(Frame(AbortPeer));
            said.code == Ok && said.kind == 1 && said.reason == Octets("Unsupported or invalid registration RPC")
  {
    hide ReadSmall, Frame, Octets, Num;
    EnvelopeSays(AbortPeer, 1, CapnpTree.Zeros(8), [CapnpTree.Blob(REASON, true)], REASON);
    ReasonText();
  }

  lemma ReasonText()
    ensures Octets("Unsupported or invalid registration RPC") == REASON
  {
    hide Octets;
    var a, b := Octets("Unsupported or invalid registration RPC"), REASON;
    assert |a| == |b|;
  }

  /** The feature names sent are these texts. */
  lemma FeatureTexts()
    ensures FeatureNames(1) == [Octets("allow_remote_config")] && FeatureNames(2) == [Octets("serialized_headers")]
    ensures FeatureNames(3) == [Octets("allow_remote_config"), Octets("serialized_headers")]
  {
    hide Octets;
    assert Octets("allow_remote_config") == REMOTE;
    assert Octets("serialized_headers") == SERIALIZED;
  }

  // ---- which registrations are sent

  /** A figure or one of the first six letters. */
  predicate HexOctet(c: Byte)
  {
    '0' as int <= c <= '9' as int || 'a' as int <= c <= 'f' as int || 'A' as int <= c <= 'F' as int
  }

  predicate Printable(b: Bytes) { forall i :: 0 <= i < |b| ==> ' ' as int <= b[i] <= '~' as int }

  /**
   * A registration is sent exactly by a ready client for a 32-digit account, a 32 to 128 byte secret, an IPv4 or
   * IPv6 address, version and architecture of 1 to 63 printable characters, and known features only.
   */
  lemma RegistersExactly(c: Rpc.Client, cred: Credentials, opt: Options)
    requires Shaped(cred, opt)
    ensures Rpc.Register(c, cred, opt).code == Ok <==>
              && c.state == Rpc.ReadyToRegister && c.haveCapability
              && (forall i :: 0 <= i < 32 ==> HexOctet(cred.accountTag[i])) && cred.accountTag[32] == 0
              && 32 <= |cred.secret| <= 128 && (|opt.localIp| == 4 || |opt.localIp| == 16)
              && 1 <= |opt.version| <= 63 && Printable(opt.version) && 1 <= |opt.arch| <= 63 && Printable(opt.arch)
              && opt.features < 4
  {
  }

  // ---- a reply that registers

  const ONE: Bytes := [1, 0, 0, 0, 0, 0, 0, 0]

  function DetailsTree(id: Bytes, location: Bytes): CapnpTree.Node
  {
    CapnpTree.Struct(ONE, [CapnpTree.Blob(id, false), CapnpTree.Blob(location, true)])
  }

  /** A Return of question 1 whose results hold an acceptance, as one tree. */
  function AcceptanceTree(id: Bytes, location: Bytes): CapnpTree.Node
  {
    Envelope(3, Nest(ONE, Nest([], Nest([], Nest(ONE, DetailsTree(id, location))))))
  }

  function Nest(data: Bytes, child: CapnpTree.Node): CapnpTree.Node { CapnpTree.Struct(data, [child]) }

  lemma NestSizes(data: Bytes, child: CapnpTree.Node, k: nat)
    requires |data| % 8 == 0 && CapnpLayouts.Shallow(child, k)
    ensures CapnpTree.Size(Nest(data, child)) == |data| / 8 + 1 + CapnpTree.Size(child)
    ensures CapnpTree.Aligned(Nest(data, child)) <==> CapnpTree.Aligned(child)
    ensures CapnpLayouts.ObjOf(Nest(data, child)) == Record(data, [CapnpLayouts.ObjOf(child)])
    ensures CapnpLayouts.Shallow(Nest(data, child), k + 1)
    ensures Weight(CapnpLayouts.ObjOf(Nest(data, child))) == 4 + |data| / 8 + Weight(CapnpLayouts.ObjOf(child))
  {
    hide CapnpTree.Size, CapnpTree.Aligned;
    SizeAll1(child);
    StructSize(data, [child]);
    assert CapnpTree.Children(Nest(data, child)) == [child];
    assert CapnpLayouts.ObjsOf([child]) == [CapnpLayouts.ObjOf(child)];
    var o := CapnpLayouts.ObjOf(child);
    assert [o][1..] == [] && WeightAll([o]) == Weight(o) + WeightAll([]);
  }

  lemma DetailsSizes(id: Bytes, location: Bytes)
    requires |id| == 16 && |location| <= 31
    ensures var d := DetailsTree(id, location);
            && CapnpTree.Size(d) <= 9 && CapnpTree.Aligned(d) && CapnpLayouts.Shallow(d, 27)
            && CapnpLayouts.ObjOf(d) == Record(ONE, [CapnpObjects.Blob(id), CapnpObjects.Blob(location + [0])])
            && Weight(CapnpLayouts.ObjOf(d)) <= 18
  {
    hide CapnpTree.Size, CapnpTree.Aligned, Weight;
    var a, b := CapnpTree.Blob(id, false), CapnpTree.Blob(location, true);
    LeafSizes(id, false);
    LeafSizes(location, true);
    SizeAll2(a, b);
    StructSize(ONE, [a, b]);
    assert CapnpLayouts.Shallow(a, 26) && CapnpLayouts.Shallow(b, 26);
    var d := DetailsTree(id, location);
    assert CapnpTree.Children(d) == [a, b];
    assert id + [] == id;
    var x, y := CapnpObjects.Blob(id), CapnpObjects.Blob(location + [0]);
    assert [a, b][1..] == [b] && [b][1..] == [];
    assert CapnpLayouts.ObjsOf([a, b]) == [x, y];
    DetailsWeight(x, y);
  }

  lemma DetailsWeight(x: Obj, y: Obj)
    requires x.Blob? && y.Blob? && |x.bytes| == 16 && |y.bytes| <= 32
    ensures Weight(Record(ONE, [x, y])) <= 18
  {
    assert [x, y][1..] == [y] && [y][1..] == [];
    assert WeightAll([x, y]) == Weight(x) + WeightAll([y]) && WeightAll([y]) == Weight(y) + WeightAll([]);
  }

  /** For every connection id and printable location there is a reply that registers the client under them. */
  lemma SuchRepliesExist(c: Rpc.Client, id: Bytes, location: Bytes)
    requires c.state == Rpc.Registering && |id| == 16 && Ascii(location, 31)
    ensures var d := Rpc.Receive(c, CapnpTree.Message(AcceptanceTree(id, location)));
            d.code == Ok && d.c.state == Rpc.Registered && d.c.connectionId == id && d.c.location == location
  {
    hide CapnpTree.Size, CapnpTree.Aligned, Rpc.Receive, Nest, DetailsTree, CapnpLayouts.ObjOf, CapnpLayouts.Shallow,
        ToLe, CapnpTree.Message, Carries, Weight;
    var d := DetailsTree(id, location);
    DetailsSizes(id, location);
    var response := Nest(ONE, d);
    NestSizes(ONE, d, 27);
    var results := Nest([], response);
    NestSizes([], response, 28);
    var payload := Nest([], results);
    NestSizes([], results, 29);
    var ret := Nest(ONE, payload);
    NestSizes(ONE, payload, 30);
    var tree := AcceptanceTree(id, location);
    var data := ToLe(2, 3) + CapnpTree.Zeros(6);
    assert tree == Nest(data, ret) by { NestIs(data, ret); }
    NestSizes(data, ret, 31);
    CapnpLayouts.MessageCarries(tree);
    var o := CapnpLayouts.ObjOf(tree);
    Pow256Values();
    assert data[0..2] == ToLe(2, 3);
    NumAt(data, [CapnpLayouts.ObjOf(ret)], 0, 2, 3);
    OneNumbers();
    AcceptanceRegisters(c, CapnpTree.Message(tree), o, id, location);
  }

  lemma NestIs(data: Bytes, child: CapnpTree.Node)
    ensures Nest(data, child) == CapnpTree.Struct(data, [child])
  {
  }

  lemma OneNumbers()
    ensures forall slots :: Num(Record(ONE, slots), 0, 4) == 1 && Num(Record(ONE, slots), 6, 2) == 0
    ensures forall slots :: Num(Record(ONE, slots), 0, 2) == 1 && Num(Record(ONE, slots), 0, 1) == 1
  {
    assert ONE[0..4] == [1, 0, 0, 0] && ONE[6..8] == [0, 0] && ONE[0..2] == [1, 0] && ONE[0..1] == [1];
    assert [1, 0, 0, 0][1..] == [0, 0, 0] && [0, 0, 0][1..] == [0, 0] && [0, 0][1..] == [0] && [0][1..] == []
        && [1][1..] == [];
    assert [1, 0][1..] == [0];
  }
}
