/** The RPC messages the connector sends, as trees and as bytes. */
module RpcMessages {
  import opened Core
  import opened CapnpTree

  const TX_MAX := 1024
  const REGISTRATION_INTERFACE: nat := 0xf71695ec7fe85497
  const SECRET_MIN := 32
  const SECRET_MAX := 128

  /** accountTag is the 33-byte C array, terminator included. */
  datatype Credentials = Credentials(accountTag: Bytes, tunnelId: Bytes, secret: Bytes)

  datatype Options = Options(connectorId: Bytes, localIp: Bytes, version: Bytes, arch: Bytes,
                             connectionIndex: Byte, previousAttempts: Byte, replaceExisting: bool, features: nat)

  predicate Hex(c: Byte) { 48 <= c <= 57 || 97 <= c <= 102 || 65 <= c <= 70 }

  /** Printable ASCII of 1..max bytes. */
  predicate Ascii(b: Bytes, max: nat) { 1 <= |b| <= max && forall i :: 0 <= i < |b| ==> 32 <= b[i] <= 126 }

  predicate RemoteConfig(features: nat) { features % 2 == 1 }

  predicate SerializedHeaders(features: nat) { features / 2 % 2 == 1 }

  /** The C types of the fixed arrays. */
  predicate Shaped(cred: Credentials, opt: Options)
  {
    |cred.accountTag| == 33 && |cred.tunnelId| == 16 && |opt.connectorId| == 16
  }

  /** What a registration must satisfy to be sent. */
  predicate Registrable(cred: Credentials, opt: Options)
  {
    && Shaped(cred, opt)
    && Ascii(opt.version, 63) && Ascii(opt.arch, 63) && (|opt.localIp| == 4 || |opt.localIp| == 16)
    && cred.accountTag[32] == 0 && SECRET_MIN <= |cred.secret| <= SECRET_MAX && opt.features < 4
    && forall i :: 0 <= i < 32 ==> Hex(cred.accountTag[i])
  }

  datatype Msg =
    | Bootstrap
    | Finish(id: nat, release: bool)
    | CallRegister(cap: nat, cred: Credentials, opt: Options)
    | CallUnregister(cap: nat)
    | ReleaseCap(cap: nat)
    | AbortPeer

  // "Unsupported or invalid registration RPC"
  const REASON: Bytes := [
    85, 110, 115, 117, 112, 112, 111, 114, 116, 101, 100, 32, 111, 114, 32, 105, 110, 118, 97, 108,
    105, 100, 32, 114, 101, 103, 105, 115, 116, 114, 97, 116, 105, 111, 110, 32, 82, 80, 67]
  // "allow_remote_config"
  const REMOTE: Bytes := [97, 108, 108, 111, 119, 95, 114, 101, 109, 111, 116, 101, 95, 99, 111, 110, 102, 105, 103]
  // "serialized_headers"
  const SERIALIZED: Bytes := [115, 101, 114, 105, 97, 108, 105, 122, 101, 100, 95, 104, 101, 97, 100, 101, 114, 115]

  /** A message: its union tag, then its body. */
  function Envelope(kind: nat, body: Node): Node { Struct(ToLe(2, kind) + Zeros(6), [body]) }

  function CallData(question: nat, m: nat): Bytes
  {
    ToLe(4, question) + ToLe(2, m) + Zeros(2) + ToLe(8, REGISTRATION_INTERFACE) + Zeros(8)
  }

  /** A call on the imported capability: target, payload without capabilities, results to the caller. */
  function CallTree(cap: nat, question: nat, m: nat, params: Node): Node
  {
    Envelope(2,
        Struct(CallData(question, m), [Struct(ToLe(4, cap) + Zeros(4), [Empty]), Struct([], [params, Empty]), Empty]))
  }

  function FeatureNames(features: nat): seq<Bytes>
  {
    (if RemoteConfig(features) then [REMOTE] else []) + (if SerializedHeaders(features) then [SERIALIZED] else [])
  }

  function FeatureTree(features: nat): Node
  {
    if features == 0 then Empty
    else Pointers(FeatureNodes(features))
  }

  function FeatureNodes(features: nat): seq<Node>
  {
    (if RemoteConfig(features) then [Blob(REMOTE, true)] else [])
    + (if SerializedHeaders(features) then [Blob(SERIALIZED, true)] else [])
  }

  lemma NoFeatures()
    ensures FeatureTree(0) == Empty
  {
  }

  function AuthTree(cred: Credentials): Node
    requires |cred.accountTag| == 33
  {
    Struct([], [Blob(cred.accountTag[..32], true), Blob(cred.secret, false)])
  }

  function ClientTree(opt: Options): Node
  {
    Struct([], [Blob(opt.connectorId, false), FeatureTree(opt.features), Blob(opt.version, true), Blob(opt.arch, true)])
  }

  function OptionsTree(opt: Options): Node
  {
    Struct([if opt.replaceExisting then 1 else 0, 0, opt.previousAttempts] + Zeros(5),
        [ClientTree(opt), Blob(opt.localIp, false)])
  }

  function ParamsTree(cred: Credentials, opt: Options): Node
    requires |cred.accountTag| == 33
  {
    Struct([opt.connectionIndex] + Zeros(7), [AuthTree(cred), Blob(cred.tunnelId, false), OptionsTree(opt)])
  }

  predicate WellTyped(m: Msg)
  {
    match m
    case Finish(id, _) => id < U32
    case CallRegister(cap, cred, opt) => cap < U32 && Registrable(cred, opt)
    case CallUnregister(cap) => cap < U32
    case ReleaseCap(cap) => cap < U32
    case _ => true
  }

  function Tree(m: Msg): Node
    requires WellTyped(m)
  {
    match m
    case Bootstrap => Envelope(8, Struct(Zeros(8), [Empty]))
    case Finish(id, release) => Envelope(4, Struct(ToLe(4, id) + [if release then 0 else 1] + Zeros(3), []))
    case CallRegister(cap, cred, opt) => CallTree(cap, 1, 0, ParamsTree(cred, opt))
    case CallUnregister(cap) => CallTree(cap, 2, 1, Struct([], []))
    case ReleaseCap(cap) => Envelope(6, Struct(ToLe(4, cap) + ToLe(4, 1), []))
    case AbortPeer => Envelope(1, Struct(Zeros(8), [Blob(REASON, true)]))
  }

  /** The bytes of one message frame. */
  function Frame(m: Msg): Bytes
    requires WellTyped(m)
  {
    Message(Tree(m))
  }

  predicate AllWellTyped(ms: seq<Msg>) { forall i :: 0 <= i < |ms| ==> WellTyped(ms[i]) }

  function Frames(ms: seq<Msg>): Bytes
    requires AllWellTyped(ms)
  {
    if ms == [] then [] else Frames(ms[..|ms| - 1]) + Frame(ms[|ms| - 1])
  }

  // ---- sizes

  lemma SizeAll1(a: Node)
    ensures SizeAll([a]) == Size(a) && (AllAligned([a]) <==> Aligned(a))
  {
    assert [a][1..] == [];
  }

  lemma SizeAll2(a: Node, b: Node)
    ensures SizeAll([a, b]) == Size(a) + Size(b) && (AllAligned([a, b]) <==> Aligned(a) && Aligned(b))
  {
    assert [a, b][1..] == [b];
    SizeAll1(b);
  }

  lemma SizeAll3(a: Node, b: Node, c: Node)
    ensures SizeAll([a, b, c]) == Size(a) + Size(b) + Size(c)
    ensures AllAligned([a, b, c]) <==> Aligned(a) && Aligned(b) && Aligned(c)
  {
    assert [a, b, c][1..] == [b, c];
    SizeAll2(b, c);
  }

  lemma SizeAll4(a: Node, b: Node, c: Node, d: Node)
    ensures SizeAll([a, b, c, d]) == Size(a) + Size(b) + Size(c) + Size(d)
    ensures AllAligned([a, b, c, d]) <==> Aligned(a) && Aligned(b) && Aligned(c) && Aligned(d)
  {
    assert [a, b, c, d][1..] == [b, c, d];
    SizeAll3(b, c, d);
  }

  lemma LeafSizes(bytes: Bytes, text: bool)
    ensures Size(Empty) == 0 && Aligned(Empty)
    ensures Size(Blob(bytes, text)) == Words(|bytes| + if text then 1 else 0) && Aligned(Blob(bytes, text))
  {
  }

  /** A struct with fields costs its data, its slots and its fields. */
  lemma StructSize(data: Bytes, fields: seq<Node>)
    requires |data| % 8 == 0
    ensures Size(Struct(data, fields)) == |data| / 8 + |fields| + SizeAll(fields)
    ensures Aligned(Struct(data, fields)) <==> AllAligned(fields)
  {
  }

  lemma EnvelopeSize(kind: nat, body: Node)
    ensures Size(Envelope(kind, body)) == 2 + Size(body) && (Aligned(Envelope(kind, body)) <==> Aligned(body))
  {
    hide Size, SizeAll, Aligned, AllAligned, ToLe;
    SizeAll1(body);
    StructSize(ToLe(2, kind) + Zeros(6), [body]);
  }

  lemma CallSize(cap: nat, question: nat, m: nat, params: Node)
    ensures Size(CallTree(cap, question, m, params)) == 12 + Size(params)
    ensures Aligned(CallTree(cap, question, m, params)) <==> Aligned(params)
  {
    hide Size, SizeAll, Aligned, AllAligned, ToLe;
    var target, payload := Struct(ToLe(4, cap) + Zeros(4), [Empty]), Struct([], [params, Empty]);
    LeafSizes([], false);
    SizeAll1(Empty);
    StructSize(ToLe(4, cap) + Zeros(4), [Empty]);
    SizeAll2(params, Empty);
    StructSize([], [params, Empty]);
    SizeAll3(target, payload, Empty);
    StructSize(CallData(question, m), [target, payload, Empty]);
    EnvelopeSize(2, Struct(CallData(question, m), [target, payload, Empty]));
  }

  lemma FeatureSize(features: nat)
    requires features < 4
    ensures Size(FeatureTree(features)) <= 8 && Aligned(FeatureTree(features))
  {
    var a, b := Blob(REMOTE, true), Blob(SERIALIZED, true);
    LeafSizes(REMOTE, true);
    LeafSizes(SERIALIZED, true);
    SizeAll1(a);
    SizeAll1(b);
    SizeAll2(a, b);
    if features == 1 {
      assert FeatureTree(features) == Pointers([a]);
    } else if features == 2 {
      assert FeatureTree(features) == Pointers([b]);
    } else if features == 3 {
      assert FeatureTree(features) == Pointers([a, b]);
    }
  }

  /** Registration parameters take at most 64 words. */
  lemma ParamsSize(cred: Credentials, opt: Options)
    requires Registrable(cred, opt)
    ensures Aligned(ParamsTree(cred, opt)) && Size(ParamsTree(cred, opt)) <= 64
  {
    hide Size, SizeAll, Aligned, AllAligned, FeatureTree;
    var account, secret := Blob(cred.accountTag[..32], true), Blob(cred.secret, false);
    LeafSizes(cred.accountTag[..32], true);
    LeafSizes(cred.secret, false);
    LeafSizes(cred.tunnelId, false);
    LeafSizes(opt.connectorId, false);
    LeafSizes(opt.version, true);
    LeafSizes(opt.arch, true);
    LeafSizes(opt.localIp, false);
    FeatureSize(opt.features);
    SizeAll2(account, secret);
    StructSize([], [account, secret]);
    SizeAll4(Blob(opt.connectorId, false), FeatureTree(opt.features), Blob(opt.version, true), Blob(opt.arch, true));
    StructSize([],
        [Blob(opt.connectorId, false), FeatureTree(opt.features), Blob(opt.version, true), Blob(opt.arch, true)]);
    SizeAll2(ClientTree(opt), Blob(opt.localIp, false));
    StructSize([if opt.replaceExisting then 1 else 0, 0, opt.previousAttempts] + Zeros(5),
        [ClientTree(opt), Blob(opt.localIp, false)]);
    SizeAll3(AuthTree(cred), Blob(cred.tunnelId, false), OptionsTree(opt));
    StructSize([opt.connectionIndex] + Zeros(7), [AuthTree(cred), Blob(cred.tunnelId, false), OptionsTree(opt)]);
  }

  /** What kind of message it is, and to which question it belongs. */
  datatype Label = LBootstrap | LFinish(id: nat) | LCall(question: nat) | LRelease | LAbort

  function LabelOf(m: Msg): Label
  {
    match m
    case Bootstrap => LBootstrap
    case Finish(id, _) => LFinish(id)
    case CallRegister(_, _, _) => LCall(1)
    case CallUnregister(_) => LCall(2)
    case ReleaseCap(_) => LRelease
    case AbortPeer => LAbort
  }

  /** The longest frame each kind of message can take. */
  function Longest(l: Label): nat
  {
    match l
    case LBootstrap => 48
    case LFinish(_) => 40
    case LCall(q) => if q == 1 then 624 else 112
    case LRelease => 40
    case LAbort => 88
  }

  /** Every message of every argument fits its frame, and so the 1024-byte buffer. */
  lemma FrameFits(m: Msg)
    requires WellTyped(m)
    ensures Sendable(Tree(m)) && |Frame(m)| == 16 + 8 * Size(Tree(m)) <= Longest(LabelOf(m)) <= TX_MAX
    ensures !m.CallRegister? ==> |Frame(m)| == Longest(LabelOf(m))
  {
    hide Size, Aligned, Tree, WellTyped, Message;
    TreeFits(m);
    MessageShape(Tree(m));
  }

  lemma TreeFits(m: Msg)
    requires WellTyped(m)
    ensures Aligned(Tree(m)) && 16 + 8 * Size(Tree(m)) <= Longest(LabelOf(m)) <= TX_MAX
    ensures !m.CallRegister? ==> 16 + 8 * Size(Tree(m)) == Longest(LabelOf(m))
  {
    hide Size, SizeAll, Aligned, AllAligned, ToLe, Ascii, Hex, CallTree, ParamsTree, Envelope;
    match m {
      case Bootstrap =>
        LeafSizes([], false);
        SizeAll1(Empty);
        StructSize(Zeros(8), [Empty]);
        EnvelopeSize(8, Struct(Zeros(8), [Empty]));
      case Finish(id, release) =>
        var data := ToLe(4, id) + [if release then 0 else 1] + Zeros(3);
        NoFields(data);
        EnvelopeSize(4, Struct(data, []));
      case CallRegister(cap, cred, opt) =>
        ParamsSize(cred, opt);
        CallSize(cap, 1, 0, ParamsTree(cred, opt));
      case CallUnregister(cap) =>
        NoFields([]);
        CallSize(cap, 2, 1, Struct([], []));
      case ReleaseCap(cap) =>
        NoFields(ToLe(4, cap) + ToLe(4, 1));
        EnvelopeSize(6, Struct(ToLe(4, cap) + ToLe(4, 1), []));
      case AbortPeer =>
        LeafSizes(REASON, true);
        SizeAll1(Blob(REASON, true));
        StructSize(Zeros(8), [Blob(REASON, true)]);
        EnvelopeSize(1, Struct(Zeros(8), [Blob(REASON, true)]));
    }
  }

  lemma NoFields(data: Bytes)
    requires |data| % 8 == 0
    ensures Size(Struct(data, [])) == |data| / 8 && Aligned(Struct(data, []))
  {
  }
}
