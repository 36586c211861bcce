/** A registration, read back field by field through the pointer reader, is the registration that was sent. */
module RegistrationRoundTrip {
  import opened Core
  import opened CapnpReader
  import opened CapnpTree
  import opened RpcMessages

  datatype ReadClientInfo = ReadClientInfo(r: Reader, connectorId: Bytes, features: seq<Bytes>, version: Bytes,
      arch: Bytes)
  datatype ReadAuthInfo = ReadAuthInfo(r: Reader, account: Bytes, secret: Bytes)
  datatype ReadOptionsInfo = ReadOptionsInfo(client: ReadClientInfo, replace: nat, compression: nat, attempts: nat,
      ip: Bytes, r: Reader)
  datatype ReadTextsInfo = ReadTextsInfo(r: Reader, texts: seq<Bytes>)

  datatype Registration = Registration(
    kind: nat, question: nat, ordinal: nat, iface: nat, cap: nat,
    connectionIndex: nat, account: Bytes, secret: Bytes, tunnelId: Bytes,
    replace: nat, compression: nat, attempts: nat, ip: Bytes,
    connectorId: Bytes, features: seq<Bytes>, version: Bytes, arch: Bytes)

  datatype ReadResult = ReadResult(r: Reader, value: Registration)

  // ---- reading, with the reader's own calls

  /** A data or text field of a struct. */
  function BlobField(r: Reader, v: Value, i: nat, text: bool): GotBytes
  {
    var g := Field(r, v, i);
    Data(g.r, g.v, text)
  }

  function Texts(r: Reader, list: Value, n: nat): ReadTextsInfo
  {
    if n == 0 then ReadTextsInfo(r, []) else
      var before := Texts(r, list, n - 1);
      var g := At(before.r, list, n - 1);
      var d := Data(g.r, g.v, true);
      ReadTextsInfo(d.r, before.texts + [d.b])
  }

  function ReadAuth(r: Reader, v: Value): ReadAuthInfo
  {
    var account := BlobField(r, v, 0, true);
    var secret := BlobField(account.r, v, 1, false);
    ReadAuthInfo(secret.r, account.b, secret.b)
  }

  function ReadClient(r: Reader, v: Value): ReadClientInfo
  {
    var id := BlobField(r, v, 0, false);
    var list := Field(id.r, v, 1);
    var features := if list.v.ListValue? then Texts(list.r, list.v, list.v.count) else ReadTextsInfo(list.r, []);
    var version := BlobField(features.r, v, 2, true);
    var arch := BlobField(version.r, v, 3, true);
    ReadClientInfo(arch.r, id.b, features.texts, version.b, arch.b)
  }

  function ReadOptions(r: Reader, v: Value): ReadOptionsInfo
  {
    var replace := UInt(r, v, 0, 1);
    var compression := UInt(replace.r, v, 1, 1);
    var attempts := UInt(compression.r, v, 2, 1);
    var c := Field(attempts.r, v, 0);
    var client := ReadClient(c.r, c.v);
    var ip := BlobField(client.r, v, 1, false);
    ReadOptionsInfo(client, replace.n, compression.n, attempts.n, ip.b, ip.r)
  }

  datatype ReadParamsInfo = ReadParamsInfo(r: Reader, index: nat, auth: ReadAuthInfo, tunnelId: Bytes,
      options: ReadOptionsInfo)

  function ReadParams(r: Reader, v: Value): ReadParamsInfo
  {
    var index := UInt(r, v, 0, 1);
    var a := Field(index.r, v, 0);
    var auth := ReadAuth(a.r, a.v);
    var id := BlobField(auth.r, v, 1, false);
    var o := Field(id.r, v, 2);
    var options := ReadOptions(o.r, o.v);
    ReadParamsInfo(options.r, index.n, auth, id.b, options)
  }

  datatype ReadHeadInfo = ReadHeadInfo(r: Reader, kind: nat, question: nat, ordinal: nat, iface: nat, cap: nat,
      params: Value)

  /** The call around the parameters: union tag, question, interface, method, target. */
  function ReadHead(frame: Bytes): ReadHeadInfo
  {
    var root := Root(Init(frame));
    var kind := UInt(root.r, root.v, 0, 2);
    var call := Field(kind.r, root.v, 0);
    var question := UInt(call.r, call.v, 0, 4);
    var m := UInt(question.r, call.v, 4, 2);
    var i := UInt(m.r, call.v, 8, 8);
    var target := Field(i.r, call.v, 0);
    var cap := UInt(target.r, target.v, 0, 4);
    var payload := Field(cap.r, call.v, 1);
    var params := Field(payload.r, payload.v, 0);
    ReadHeadInfo(params.r, kind.n, question.n, m.n, i.n, cap.n, params.v)
  }

  function ReadRegistration(frame: Bytes): ReadResult
  {
    var h := ReadHead(frame);
    var p := ReadParams(h.r, h.params);
    var o, c := p.options, p.options.client;
    ReadResult(p.r, Registration(h.kind, h.question, h.ordinal, h.iface, h.cap, p.index, p.auth.account, p.auth.secret,
                                 p.tunnelId, o.replace, o.compression, o.attempts, o.ip, c.connectorId, c.features,
                                     c.version, c.arch))
  }

  // ---- what each part reads

  /** No error, the same message, and at most k words spent. */
  predicate Spent(r: Reader, s: Reader, k: nat)
  {
    s.error == Ok && s.segments == r.segments && r.budget - k <= s.budget <= r.budget
  }

  predicate Ready(r: Reader, seg: Bytes, k: nat) { r.error == Ok && r.segments == [seg] && k <= r.budget }

  lemma ReadsBlob(r: Reader, seg: Bytes, v: Value, n: Node, i: nat, k: nat)
    requires Ready(r, seg, k) && Denotes(seg, v, n) && n.Struct? && i < |n.fields| && n.fields[i].Blob?
    requires v.depth < DEPTH_MAX && BodyWords(n.fields[i]) < k && 2 <= k
    ensures var g := BlobField(r, v, i, n.fields[i].text); g.b == n.fields[i].bytes && Spent(r, g.r, k)
  {
    hide Denotes, Field, Data, BodyWords;
    FieldDenotes(r, seg, v, n, i);
    var g := Field(r, v, i);
    BlobDenotes(g.r, seg, g.v, n.fields[i]);
  }

  lemma ReadsStruct(r: Reader, seg: Bytes, v: Value, n: Node, i: nat, k: nat)
    requires Ready(r, seg, k) && Denotes(seg, v, n) && n.Struct? && i < |n.fields| && !n.fields[i].Empty?
    requires v.depth < DEPTH_MAX && BodyWords(n.fields[i]) < k && 2 <= k
    ensures var g := Field(r, v, i);
            Spent(r, g.r, k) && Denotes(seg, g.v, n.fields[i]) && !g.v.NullValue? && g.v.depth == v.depth + 1
  {
    hide Denotes, Field, BodyWords;
    FieldDenotes(r, seg, v, n, i);
  }

  lemma ReadsNumber(r: Reader, seg: Bytes, v: Value, n: Node, byte: nat, width: nat, b: Bytes)
    requires Ready(r, seg, 1) && Denotes(seg, v, n) && n.Struct? && width in [1, 2, 4, 8]
    requires byte + width <= |n.data| && n.data[byte..byte + width] == b
    ensures var g := UInt(r, v, byte, width); g.n == Le(b) && Spent(r, g.r, 1)
  {
    hide Denotes, UInt, Le;
    NumberDenotes(r, seg, v, n, byte, width);
  }

  lemma OneByte(b: Byte)
    ensures Le([b]) == b
  {
    assert [b][1..] == [];
  }

  lemma {:induction false} ReadsTexts(r: Reader, seg: Bytes, v: Value, n: Node, count: nat)
    requires Denotes(seg, v, n) && n.Pointers? && count <= |n.items| <= 2 && v.depth < DEPTH_MAX
        && Ready(r, seg, 4 * count)
    requires forall i :: 0 <= i < |n.items| ==> n.items[i].Blob? && n.items[i].text && BodyWords(n.items[i]) <= 3
    ensures var t := Texts(r, v, count);
            Spent(r, t.r, 4 * count) && |t.texts| == count && forall i :: 0 <= i < count ==>
                t.texts[i] == n.items[i].bytes
  {
    hide Denotes, At, Data, BodyWords;
    if count > 0 {
      ReadsTexts(r, seg, v, n, count - 1);
      var before := Texts(r, v, count - 1);
      ItemDenotes(before.r, seg, v, n, count - 1);
      var g := At(before.r, v, count - 1);
      BlobDenotes(g.r, seg, g.v, n.items[count - 1]);
    }
  }

  lemma BlobWords(b: Bytes, text: bool, max: nat)
    requires |b| + (if text then 1 else 0) <= 8 * max
    ensures BodyWords(Blob(b, text)) <= max
  {
  }

  lemma ReadsAuth(r: Reader, seg: Bytes, v: Value, cred: Credentials)
    requires |cred.accountTag| == 33 && |cred.secret| <= SECRET_MAX
    requires Ready(r, seg, 24) && Denotes(seg, v, AuthTree(cred)) && v.depth < DEPTH_MAX
    ensures var a := ReadAuth(r, v);
            a.account == cred.accountTag[..32] && a.secret == cred.secret && Spent(r, a.r, 24)
  {
    hide Denotes, BodyWords, BlobField;
    var n := AuthTree(cred);
    BlobWords(cred.accountTag[..32], true, 5);
    BlobWords(cred.secret, false, 16);
    ReadsBlob(r, seg, v, n, 0, 6);
    var a := BlobField(r, v, 0, true);
    ReadsBlob(a.r, seg, v, n, 1, 17);
  }

  lemma FeatureItems(features: nat)
    requires features < 4
    ensures features == 0 ==> FeatureNames(features) == []
    ensures features > 0 ==>
              var n := FeatureTree(features);
              && n.Pointers? && |n.items| == |FeatureNames(features)| <= 2 && BodyWords(n) <= 2
              && forall i :: 0 <= i < |n.items| ==>
                   n.items[i].Blob? && n.items[i].text && BodyWords(n.items[i]) <= 3
                       && n.items[i].bytes == FeatureNames(features)[i]
  {
    BlobWords(REMOTE, true, 3);
    BlobWords(SERIALIZED, true, 3);
  }

  lemma ReadsFeatures(r: Reader, seg: Bytes, v: Value, n: Node, features: nat)
    requires features < 4 && Ready(r, seg, 11) && n.Struct? && |n.fields| == 4 && n.fields[1] == FeatureTree(features)
    requires Denotes(seg, v, n) && v.depth < DEPTH_MAX - 1
    ensures var list := Field(r, v, 1);
            var t := if list.v.ListValue? then Texts(list.r, list.v, list.v.count) else ReadTextsInfo(list.r, []);
            t.texts == FeatureNames(features) && Spent(r, t.r, 11)
  {
    hide Field, BodyWords, Texts, FeatureTree, FeatureNames, Sits, Fits;
    FeatureItems(features);
    if features == 0 {
      assert n.fields[1] == Empty by { NoFeatures(); }
      FieldDenotes(r, seg, v, n, 1);
    } else {
      ReadsStruct(r, seg, v, n, 1, 3);
      var list := Field(r, v, 1);
      ReadsTexts(list.r, seg, list.v, n.fields[1], list.v.count);
      assert Texts(list.r, list.v, list.v.count).texts == FeatureNames(features);
    }
  }

  lemma ReadsClient(r: Reader, seg: Bytes, v: Value, opt: Options)
    requires |opt.connectorId| == 16 && |opt.version| <= 63 && |opt.arch| <= 63 && opt.features < 4
    requires Ready(r, seg, 40) && Denotes(seg, v, ClientTree(opt)) && v.depth < DEPTH_MAX - 1
    ensures var c := ReadClient(r, v);
            && c.connectorId == opt.connectorId && c.features == FeatureNames(opt.features)
            && c.version == opt.version && c.arch == opt.arch && Spent(r, c.r, 40)
  {
    hide Denotes, BodyWords, BlobField, Field, FeatureTree, FeatureNames, Texts;
    var n := ClientTree(opt);
    BlobWords(opt.connectorId, false, 2);
    BlobWords(opt.version, true, 8);
    BlobWords(opt.arch, true, 8);
    ReadsBlob(r, seg, v, n, 0, 3);
    var id := BlobField(r, v, 0, false);
    ReadsFeatures(id.r, seg, v, n, opt.features);
    var list := Field(id.r, v, 1);
    var f := if list.v.ListValue? then Texts(list.r, list.v, list.v.count) else ReadTextsInfo(list.r, []);
    ReadsBlob(f.r, seg, v, n, 2, 9);
    ReadsBlob(BlobField(f.r, v, 2, true).r, seg, v, n, 3, 9);
  }

  lemma ClientWords(opt: Options)
    ensures BodyWords(ClientTree(opt)) == 4 && ClientTree(opt).Struct?
  {
  }

  lemma ReadsOptions(r: Reader, seg: Bytes, v: Value, opt: Options)
    requires |opt.connectorId| == 16 && |opt.version| <= 63 && |opt.arch| <= 63 && opt.features < 4
        && |opt.localIp| <= 16
    requires Ready(r, seg, 60) && Denotes(seg, v, OptionsTree(opt)) && v.depth < DEPTH_MAX - 2
    ensures var o := ReadOptions(r, v);
            && o.replace == (if opt.replaceExisting then 1 else 0) && o.compression == 0
                && o.attempts == opt.previousAttempts
            && o.ip == opt.localIp && Spent(r, o.r, 60)
            && o.client.connectorId == opt.connectorId && o.client.features == FeatureNames(opt.features)
            && o.client.version == opt.version && o.client.arch == opt.arch
  {
    hide Denotes, BodyWords, BlobField, Field, ReadClient, FeatureTree, FeatureNames, ClientTree, Le, UInt;
    var n := OptionsTree(opt);
    var flag: Byte := if opt.replaceExisting then 1 else 0;
    assert n.data[0..1] == [flag] && n.data[1..2] == [0] && n.data[2..3] == [opt.previousAttempts];
    OneByte(flag);
    OneByte(0);
    OneByte(opt.previousAttempts);
    ReadsNumber(r, seg, v, n, 0, 1, [flag]);
    var r1 := UInt(r, v, 0, 1).r;
    ReadsNumber(r1, seg, v, n, 1, 1, [0]);
    var r2 := UInt(r1, v, 1, 1).r;
    ReadsNumber(r2, seg, v, n, 2, 1, [opt.previousAttempts]);
    var r3 := UInt(r2, v, 2, 1).r;
    ClientWords(opt);
    ReadsStruct(r3, seg, v, n, 0, 5);
    var c := Field(r3, v, 0);
    ReadsClient(c.r, seg, c.v, opt);
    BlobWords(opt.localIp, false, 2);
    ReadsBlob(ReadClient(c.r, c.v).r, seg, v, n, 1, 3);
  }

  lemma PartWords(cred: Credentials, opt: Options)
    requires |cred.accountTag| == 33
    ensures BodyWords(AuthTree(cred)) == 2 && BodyWords(OptionsTree(opt)) == 3 && BodyWords(ParamsTree(cred, opt)) == 4
    ensures AuthTree(cred).Struct? && OptionsTree(opt).Struct? && ParamsTree(cred, opt).Struct?
  {
  }

  lemma ReadsParams(r: Reader, seg: Bytes, v: Value, cred: Credentials, opt: Options)
    requires Registrable(cred, opt) && Ready(r, seg, 100) && Denotes(seg, v, ParamsTree(cred, opt))
        && v.depth < DEPTH_MAX - 3
    ensures var p := ReadParams(r, v);
            && p.index == opt.connectionIndex && p.auth.account == cred.accountTag[..32] && p.auth.secret == cred.secret
            && p.tunnelId == cred.tunnelId && p.options.replace == (if opt.replaceExisting then 1 else 0)
            && p.options.compression == 0 && p.options.attempts == opt.previousAttempts && p.options.ip == opt.localIp
            && p.options.client.connectorId == opt.connectorId
                && p.options.client.features == FeatureNames(opt.features)
            && p.options.client.version == opt.version && p.options.client.arch == opt.arch && Spent(r, p.r, 100)
  {
    hide Denotes, BodyWords, BlobField, Field, ReadAuth, ReadOptions, FeatureNames, AuthTree, OptionsTree, Le, UInt,
        Ascii, Hex;
    var n := ParamsTree(cred, opt);
    assert n.data[0..1] == [opt.connectionIndex];
    OneByte(opt.connectionIndex);
    PartWords(cred, opt);
    ReadsNumber(r, seg, v, n, 0, 1, [opt.connectionIndex]);
    var r1 := UInt(r, v, 0, 1).r;
    ReadsStruct(r1, seg, v, n, 0, 3);
    var a := Field(r1, v, 0);
    AsciiLengths(opt);
    ReadsAuth(a.r, seg, a.v, cred);
    var r2 := ReadAuth(a.r, a.v).r;
    BlobWords(cred.tunnelId, false, 2);
    ReadsBlob(r2, seg, v, n, 1, 3);
    var r3 := BlobField(r2, v, 1, false).r;
    ReadsStruct(r3, seg, v, n, 2, 4);
    var o := Field(r3, v, 2);
    ReadsOptions(o.r, seg, o.v, opt);
  }

  lemma AsciiLengths(opt: Options)
    ensures Ascii(opt.version, 63) ==> |opt.version| <= 63
    ensures Ascii(opt.arch, 63) ==> |opt.arch| <= 63
  {
  }

  lemma HeadBytes(cap: nat, question: nat, m: nat, kind: nat)
    requires cap < U32 && question < U32 && m < U16 && kind < U16
    ensures |CallData(question, m)| == 24
    ensures CallData(question, m)[0..4] == ToLe(4, question) && Le(ToLe(4, question)) == question
    ensures CallData(question, m)[4..6] == ToLe(2, m) && Le(ToLe(2, m)) == m
    ensures CallData(question, m)[8..16] == ToLe(8, REGISTRATION_INTERFACE)
    ensures Le(ToLe(8, REGISTRATION_INTERFACE)) == REGISTRATION_INTERFACE
    ensures (ToLe(4, cap) + Zeros(4))[0..4] == ToLe(4, cap) && Le(ToLe(4, cap)) == cap
    ensures (ToLe(2, kind) + Zeros(6))[0..2] == ToLe(2, kind) && Le(ToLe(2, kind)) == kind
  {
    hide ToLe, Le;
    Pow256Values();
    LeToLe(4, question);
    LeToLe(2, m);
    LeToLe(8, REGISTRATION_INTERFACE);
    LeToLe(4, cap);
    LeToLe(2, kind);
  }

  /** The call head of any call message reads back, and its parameters are found. */
  lemma ReadsHead(cap: nat, question: nat, m: nat, params: Node)
    requires cap < U32 && question < U32 && m < U16 && params.Struct? && BodyWords(params) <= 8
    requires Sendable(CallTree(cap, question, m, params))
    ensures var root := CallTree(cap, question, m, params);
            var h := ReadHead(Message(root));
            && h.kind == 2 && h.question == question && h.ordinal == m && h.iface == REGISTRATION_INTERFACE
                && h.cap == cap
            && Denotes(Segment(root), h.params, params) && !h.params.NullValue? && h.params.depth == 4
            && Ready(h.r, Segment(root), TRAVERSAL_WORDS - 40)
  {
    hide Denotes, BodyWords, Field, UInt, Le, ToLe, Root, Init, Message, Segment, CallData;
    var root := CallTree(cap, question, m, params);
    var seg := Segment(root);
    var call := root.fields[0];
    HeadBytes(cap, question, m, 2);
    CallWords(cap, question, m, params);
    RootDenotes(root);
    var g := Root(Init(Message(root)));
    ReadsNumber(g.r, seg, g.v, root, 0, 2, ToLe(2, 2));
    var r1 := UInt(g.r, g.v, 0, 2).r;
    ReadsStruct(r1, seg, g.v, root, 0, 7);
    var c := Field(r1, g.v, 0);
    ReadsNumber(c.r, seg, c.v, call, 0, 4, ToLe(4, question));
    var r2 := UInt(c.r, c.v, 0, 4).r;
    ReadsNumber(r2, seg, c.v, call, 4, 2, ToLe(2, m));
    var r3 := UInt(r2, c.v, 4, 2).r;
    ReadsNumber(r3, seg, c.v, call, 8, 8, ToLe(8, REGISTRATION_INTERFACE));
    var r4 := UInt(r3, c.v, 8, 8).r;
    ReadsStruct(r4, seg, c.v, call, 0, 3);
    var t := Field(r4, c.v, 0);
    ReadsNumber(t.r, seg, t.v, call.fields[0], 0, 4, ToLe(4, cap));
    var r5 := UInt(t.r, t.v, 0, 4).r;
    ReadsStruct(r5, seg, c.v, call, 1, 3);
    var p := Field(r5, c.v, 1);
    ReadsStruct(p.r, seg, p.v, call.fields[1], 0, 9);
  }

  lemma CallWords(cap: nat, question: nat, m: nat, params: Node)
    ensures var root := CallTree(cap, question, m, params);
            && BodyWords(root) == 2 && Cost(root) == 3 && BodyWords(root.fields[0]) == 6
            && BodyWords(root.fields[0].fields[0]) == 2 && BodyWords(root.fields[0].fields[1]) == 2
  {
  }

  /** Every registration that may be sent reads back exactly, without touching any limit of the reader. */
  lemma RegistrationReadsBack(cap: nat, cred: Credentials, opt: Options)
    requires cap < U32 && Registrable(cred, opt)
    ensures var got := ReadRegistration(Frame(CallRegister(cap, cred, opt)));
            && got.r.error == Ok
            && got.value
                == Registration(2, 1, 0, REGISTRATION_INTERFACE, cap, opt.connectionIndex, cred.accountTag[..32],
                                         cred.secret, cred.tunnelId, if opt.replaceExisting then 1 else 0, 0,
                                         opt.previousAttempts, opt.localIp, opt.connectorId, FeatureNames(opt.features),
                                         opt.version, opt.arch)
  {
    hide Denotes, BodyWords, ReadHead, ReadParams, Message, Sendable, Segment, FeatureNames, ParamsTree, CallTree;
    var m := CallRegister(cap, cred, opt);
    FrameFits(m);
    PartWords(cred, opt);
    var params := ParamsTree(cred, opt);
    ReadsHead(cap, 1, 0, params);
    var h := ReadHead(Frame(m));
    ReadsParams(h.r, Segment(Tree(m)), h.params, cred, opt);
  }

  /** The empty parameter struct of an unregistration is zero-sized and still reads back as a struct. */
  lemma UnregistrationReadsBack(cap: nat)
    requires cap < U32
    ensures var h := ReadHead(Frame(CallUnregister(cap)));
            && h.r.error == Ok && h.kind == 2 && h.question == 2 && h.ordinal == 1 && h.iface == REGISTRATION_INTERFACE
            && h.cap == cap && h.params.StructValue? && h.params.dataWords == 0 && h.params.pointers == 0
  {
    hide ReadHead, Message, Sendable, Segment, CallTree;
    FrameFits(CallUnregister(cap));
    ReadsHead(cap, 2, 1, Struct([], []));
  }
}
