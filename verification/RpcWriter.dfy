/** Writing the RPC messages with the builder: each writer produces exactly the frame of its message. */
module RpcWriter {
  import opened Core
  import opened CapnpTree
  import opened CapnpBuilder
  import opened RpcMessages

  // ---- unfolding a build one object at a time

  lemma BuildStruct(c: Bytes, at: nat, slot: nat, data: Bytes, words: nat, fields: seq<Node>)
    requires slot < at && |c| == 8 * at && |data| == 8 * words && AllAligned(fields) && fields != []
    ensures Aligned(Struct(data, fields)) && |c| % 8 == 0 && |OpenStruct(c, slot, data, |fields|)| % 8 == 0
    ensures Build(c, slot, Struct(data, fields)) == BuildAll(OpenStruct(c, slot, data, |fields|), at + words, fields)
  {
    hide OpenStruct, BuildAll;
    assert |OpenStruct(c, slot, data, |fields|)| == 8 * (at + words + |fields|);
  }

  lemma Build1(c: Bytes, slot: nat, a: Node)
    requires 8 * (slot + 1) <= |c| && |c| % 8 == 0 && Aligned(a)
    ensures AllAligned([a]) && BuildAll(c, slot, [a]) == Build(c, slot, a)
  {
    hide Build, Aligned, SizeAll;
    assert [a][1..] == [];
  }

  lemma Build2(c: Bytes, slot: nat, a: Node, b: Node)
    requires 8 * (slot + 2) <= |c| && |c| % 8 == 0 && Aligned(a) && Aligned(b)
    ensures AllAligned([a, b]) && BuildAll(c, slot, [a, b]) == Build(Build(c, slot, a), slot + 1, b)
  {
    hide Build, Aligned, SizeAll, AllAligned, Size;
    SizeAll2(a, b);
    assert [a, b][1..] == [b];
    Build1(Build(c, slot, a), slot + 1, b);
  }

  lemma Build3(c: Bytes, slot: nat, a: Node, b: Node, d: Node)
    requires 8 * (slot + 3) <= |c| && |c| % 8 == 0 && Aligned(a) && Aligned(b) && Aligned(d)
    ensures AllAligned([a, b, d])
        && BuildAll(c, slot, [a, b, d]) == Build(Build(Build(c, slot, a), slot + 1, b), slot + 2, d)
  {
    hide Build, Aligned, SizeAll, AllAligned, Size;
    SizeAll3(a, b, d);
    assert [a, b, d][1..] == [b, d];
    Build2(Build(c, slot, a), slot + 1, b, d);
  }

  lemma Build4(c: Bytes, slot: nat, a: Node, b: Node, d: Node, e: Node)
    requires 8 * (slot + 4) <= |c| && |c| % 8 == 0 && Aligned(a) && Aligned(b) && Aligned(d) && Aligned(e)
    ensures AllAligned([a, b, d, e])
    ensures BuildAll(c, slot, [a, b, d, e])
        == Build(Build(Build(Build(c, slot, a), slot + 1, b), slot + 2, d), slot + 3, e)
  {
    hide Build, Aligned, SizeAll, AllAligned, Size;
    SizeAll4(a, b, d, e);
    assert [a, b, d, e][1..] == [b, d, e];
    Build3(Build(c, slot, a), slot + 1, b, d, e);
  }

  lemma BuildLeaf(c: Bytes, slot: nat, bytes: Bytes, text: bool)
    requires 8 * slot + 8 <= |c| && |c| % 8 == 0
    ensures Aligned(Empty) && Build(c, slot, Empty) == c
    ensures Aligned(Blob(bytes, text)) && Build(c, slot, Blob(bytes, text)) == AddBlob(c, slot, bytes, text)
  {
  }

  lemma OneByteLe(v: Byte)
    ensures ToLe(1, v) == [v]
  {
    assert ToLe(1, v) == [v % 256] + ToLe(0, v / 256);
  }

  // ---- pieces of a registration

  /** Room for n more words. */
  ghost predicate Room(b: Builder, n: nat)
    reads b
  {
    b.Valid() && b.error == Ok && n <= (b.capacity - 8) / 8 - b.words
  }

  method PutBlob(b: Builder, slot: nat, bytes: Bytes, text: bool)
    requires Room(b, BodyWords(Blob(bytes, text))) && slot < b.words
    modifies b, b.buffer
    ensures b.Valid() && b.error == Ok && b.words == old(b.words) + Size(Blob(bytes, text)) && b.OnlyContentChanged()
    ensures b.Content() == Build(old(b.Content()), slot, Blob(bytes, text))
  {
    hide AddBlob, Build;
    BuildLeaf(b.Content(), slot, bytes, text);
    LeafSizes(bytes, text);
    b.BlobAt(slot, bytes, text);
  }

  /** A struct with the given data and empty pointer slots. */
  method PutStruct(b: Builder, slot: nat, data: nat, pointers: nat) returns (at: nat)
    requires data < 8 && pointers < 8 && Room(b, data + pointers) && slot < b.words
    modifies b, b.buffer
    ensures b.Valid() && b.error == Ok && at == old(b.words) && b.words == old(b.words) + data + pointers
        && b.OnlyContentChanged()
    ensures b.Content() == OpenStruct(old(b.Content()), slot, Zeros(8 * data), pointers)
  {
    at := b.StructAt(slot, data, pointers);
  }

  /** A number inside the data of the struct just opened. */
  method PutNumber(b: Builder, ghost c: Bytes, slot: nat, ghost data: Bytes, pointers: nat, at: nat, byte: nat,
      width: nat, value: nat)
    requires b.Valid() && b.error == Ok && 8 * slot + 8 <= |c| == 8 * at && width in [1, 2, 4, 8]
        && byte + width <= |data|
    requires b.Content() == OpenStruct(c, slot, data, pointers)
    modifies b`error, b.buffer
    ensures b.Valid() && b.error == Ok && b.OnlyContentChanged()
    ensures b.Content() == OpenStruct(c, slot, SetBytes(data, byte, ToLe(width, value)), pointers)
  {
    hide OpenStruct, ToLe, SetBytes;
    PatchOpen(c, slot, data, pointers, byte, ToLe(width, value));
    SmallOffset(8 * at + byte);
    b.SetUInt(at, byte, width, value);
  }

  lemma SmallOffset(n: nat)
    ensures n < U32 ==> n % U32 == n
  {
  }

  method PutAuth(b: Builder, slot: nat, cred: Credentials)
    requires |cred.accountTag| == 33 && Room(b, Size(AuthTree(cred))) && slot < b.words
    modifies b, b.buffer
    ensures Aligned(AuthTree(cred))
    ensures b.Valid() && b.error == Ok && b.words == old(b.words) + Size(AuthTree(cred)) && b.OnlyContentChanged()
    ensures b.Content() == Build(old(b.Content()), slot, AuthTree(cred))
  {
    hide Builder.Content, Builder.Valid, Build, BuildAll, OpenStruct, Size, SizeAll, Aligned, AllAligned, Words;
    var account, secret := cred.accountTag[..32], cred.secret;
    ghost var c, x, y := b.Content(), Blob(account, true), Blob(secret, false);
    LeafSizes(account, true);
    LeafSizes(secret, false);
    SizeAll2(x, y);
    StructSize([], [x, y]);
    var auth := PutStruct(b, slot, 0, 2);
    assert Zeros(8 * 0) == [];
    ghost var d := b.Content();
    PutBlob(b, auth, account, true);
    PutBlob(b, auth + 1, secret, false);
    BuildStruct(c, auth, slot, [], 0, [x, y]);
    Build2(d, auth, x, y);
  }

  /** A pointer list with empty slots. */
  method PutPointers(b: Builder, slot: nat, count: nat) returns (at: nat)
    requires Room(b, count) && slot < b.words
    modifies b, b.buffer
    ensures b.Valid() && b.error == Ok && at == old(b.words) && b.words == old(b.words) + count
        && b.OnlyContentChanged()
    ensures b.Content() == OpenList(old(b.Content()), slot, count)
  {
    hide OpenList;
    at := b.ListAt(slot, count);
  }

  lemma BuildPointers(c: Bytes, slot: nat, items: seq<Node>)
    requires 8 * slot + 8 <= |c| && |c| % 8 == 0 && AllAligned(items) && items != []
    ensures Aligned(Pointers(items)) && Size(Pointers(items)) == |items| + SizeAll(items)
    ensures Build(c, slot, Pointers(items)) == BuildAll(OpenList(c, slot, |items|), |c| / 8, items)
  {
  }

  /** The names of the features, one blob each. */
  lemma FeatureShape(features: nat)
    requires 0 < features < 4
    ensures var a, b := Blob(REMOTE, true), Blob(SERIALIZED, true);
            && FeatureTree(features) == Pointers(FeatureNodes(features))
            && (RemoteConfig(features) && SerializedHeaders(features) ==> FeatureNodes(features) == [a, b])
            && (RemoteConfig(features) && !SerializedHeaders(features) ==> FeatureNodes(features) == [a])
            && (!RemoteConfig(features) ==> SerializedHeaders(features) && FeatureNodes(features) == [b])
  {
  }

  lemma FeatureParts(features: nat)
    requires 0 < features < 4
    ensures var nodes := FeatureNodes(features);
            && AllAligned(nodes) && 1 <= |nodes| <= 2 && FeatureTree(features) == Pointers(nodes)
            && Aligned(FeatureTree(features)) && Size(FeatureTree(features)) == |nodes| + SizeAll(nodes)
            && |nodes| == (if RemoteConfig(features) then 1 else 0) + (if SerializedHeaders(features) then 1 else 0)
  {
    hide Size, SizeAll, Aligned, AllAligned, Words, FeatureTree, FeatureNodes, RemoteConfig, SerializedHeaders;
    FeatureShape(features);
    LeafSizes(REMOTE, true);
    LeafSizes(SERIALIZED, true);
    SizeAll1(Blob(REMOTE, true));
    SizeAll1(Blob(SERIALIZED, true));
    SizeAll2(Blob(REMOTE, true), Blob(SERIALIZED, true));
    BuildPointers(Zeros(8), 0, FeatureNodes(features));
  }

  /** The blobs of the feature names, in consecutive slots. */
  method PutNames(b: Builder, first: nat, features: nat)
    requires 0 < features < 4 && Room(b, SizeAll(FeatureNodes(features))) && first + |FeatureNodes(features)| <= b.words
    requires AllAligned(FeatureNodes(features))
    modifies b, b.buffer
    ensures b.Valid() && b.error == Ok && b.words == old(b.words) + SizeAll(FeatureNodes(features))
        && b.OnlyContentChanged()
    ensures b.Content() == BuildAll(old(b.Content()), first, FeatureNodes(features))
  {
    hide Builder.Content, Builder.Valid, Build, BuildAll, Size, SizeAll, Aligned, AllAligned, Words, FeatureTree,
        FeatureNodes, RemoteConfig, SerializedHeaders, BodyWords;
    ghost var c, x, y := b.Content(), Blob(REMOTE, true), Blob(SERIALIZED, true);
    FeatureShape(features);
    BlobSize(REMOTE, true);
    BlobSize(SERIALIZED, true);
    var list := first;
    if RemoteConfig(features) {
      if SerializedHeaders(features) {
        SizeAll2(x, y);
        Build2(c, first, x, y);
      } else {
        SizeAll1(x);
        Build1(c, first, x);
      }
      PutBlob(b, list, REMOTE, true);
      list := list + 1;
    } else {
      SizeAll1(y);
      Build1(c, first, y);
    }
    if SerializedHeaders(features) { PutBlob(b, list, SERIALIZED, true); }
  }

  method PutFeatures(b: Builder, slot: nat, features: nat)
    requires features < 4 && Room(b, Size(FeatureTree(features))) && slot < b.words
    modifies b, b.buffer
    ensures Aligned(FeatureTree(features))
    ensures b.Valid() && b.error == Ok && b.words == old(b.words) + Size(FeatureTree(features))
        && b.OnlyContentChanged()
    ensures b.Content() == Build(old(b.Content()), slot, FeatureTree(features))
  {
    hide Builder.Content, Builder.Valid, Build, BuildAll, OpenList, Size, SizeAll, Aligned, AllAligned, FeatureTree,
        FeatureNodes, RemoteConfig, SerializedHeaders;
    ghost var c := b.Content();
    if features == 0 {
      BuildLeaf(c, slot, [], false);
      LeafSizes([], false);
      NoFeatures();
      return;
    }
    FeatureParts(features);
    BuildPointers(c, slot, FeatureNodes(features));
    var count := (if RemoteConfig(features) then 1 else 0) + (if SerializedHeaders(features) then 1 else 0);
    var list := PutPointers(b, slot, count);
    PutNames(b, list, features);
  }

  method PutClient(b: Builder, slot: nat, opt: Options)
    requires opt.features < 4 && Room(b, Size(ClientTree(opt))) && slot < b.words
    modifies b, b.buffer
    ensures Aligned(ClientTree(opt))
    ensures b.Valid() && b.error == Ok && b.words == old(b.words) + Size(ClientTree(opt)) && b.OnlyContentChanged()
    ensures b.Content() == Build(old(b.Content()), slot, ClientTree(opt))
  {
    hide Builder.Content, Builder.Valid, Build, BuildAll, OpenStruct, Size, SizeAll, Aligned, AllAligned, Words,
        FeatureTree, ClientTree, BodyWords;
    ghost var c := b.Content();
    ClientParts(opt);
    var client := PutStruct(b, slot, 0, 4);
    PutBlob(b, client, opt.connectorId, false);
    PutFeatures(b, client + 1, opt.features);
    PutBlob(b, client + 2, opt.version, true);
    PutBlob(b, client + 3, opt.arch, true);
    ClientBuilt(c, client, slot, opt);
  }

  lemma BlobSize(bytes: Bytes, text: bool)
    ensures Size(Blob(bytes, text)) == BodyWords(Blob(bytes, text)) && Aligned(Blob(bytes, text))
  {
    LeafSizes(bytes, text);
  }

  lemma ClientParts(opt: Options)
    requires opt.features < 4
    ensures Size(ClientTree(opt)) ==
              4 + BodyWords(Blob(opt.connectorId, false)) + Size(FeatureTree(opt.features))
              + BodyWords(Blob(opt.version, true)) + BodyWords(Blob(opt.arch, true))
    ensures Size(Blob(opt.connectorId, false)) == BodyWords(Blob(opt.connectorId, false))
    ensures Size(Blob(opt.version, true)) == BodyWords(Blob(opt.version, true))
    ensures Size(Blob(opt.arch, true)) == BodyWords(Blob(opt.arch, true))
    ensures Aligned(FeatureTree(opt.features)) && Aligned(ClientTree(opt))
    ensures Aligned(Blob(opt.connectorId, false)) && Aligned(Blob(opt.version, true)) && Aligned(Blob(opt.arch, true))
  {
    hide Size, SizeAll, Aligned, AllAligned, FeatureTree, BodyWords;
    var x, f, y, z := Blob(opt.connectorId, false), FeatureTree(opt.features), Blob(opt.version, true),
        Blob(opt.arch, true);
    BlobSize(opt.connectorId, false);
    FeatureSize(opt.features);
    BlobSize(opt.version, true);
    BlobSize(opt.arch, true);
    SizeAll4(x, f, y, z);
    StructSize([], [x, f, y, z]);
  }

  /** The four pieces in their slots make the client tree. */
  lemma ClientBuilt(c: Bytes, at: nat, slot: nat, opt: Options)
    requires opt.features < 4 && slot < at && |c| == 8 * at
    requires Aligned(FeatureTree(opt.features)) && Aligned(ClientTree(opt))
    requires Aligned(Blob(opt.connectorId, false)) && Aligned(Blob(opt.version, true)) && Aligned(Blob(opt.arch, true))
    ensures Zeros(8 * 0) == []
    ensures Build(c, slot, ClientTree(opt)) ==
              Build(Build(Build(Build(OpenStruct(c, slot, [], 4), at, Blob(opt.connectorId, false)),
                                at + 1, FeatureTree(opt.features)), at + 2, Blob(opt.version, true)), at + 3,
                                    Blob(opt.arch, true))
  {
    hide Build, BuildAll, OpenStruct, Aligned, AllAligned, FeatureTree;
    var x, f, y, z := Blob(opt.connectorId, false), FeatureTree(opt.features), Blob(opt.version, true),
        Blob(opt.arch, true);
    SizeAll4(x, f, y, z);
    BuildStruct(c, at, slot, [], 0, [x, f, y, z]);
    Build4(OpenStruct(c, slot, [], 4), at, x, f, y, z);
  }

  lemma OptionsData(opt: Options)
    ensures var flag: Byte := if opt.replaceExisting then 1 else 0;
            SetBytes(SetBytes(Zeros(8), 0, ToLe(1, flag)), 2, ToLe(1, opt.previousAttempts))
              == OptionsHead(opt)
  {
    hide ToLe;
    var flag: Byte := if opt.replaceExisting then 1 else 0;
    OneByteLe(flag);
    OneByteLe(opt.previousAttempts);
    var once := SetBytes(Zeros(8), 0, [flag]);
    var twice := SetBytes(once, 2, [opt.previousAttempts]);
    assert forall i :: 0 <= i < 8 ==> once[i] == if i == 0 then flag else 0;
    assert forall i :: 0 <= i < 8 ==> twice[i] == if i == 2 then opt.previousAttempts else once[i];
    assert twice == [flag, 0, opt.previousAttempts] + Zeros(5);
  }

  method PutOptions(b: Builder, slot: nat, opt: Options)
    requires opt.features < 4 && Room(b, Size(OptionsTree(opt))) && slot < b.words
    modifies b, b.buffer
    ensures Aligned(OptionsTree(opt))
    ensures b.Valid() && b.error == Ok && b.words == old(b.words) + Size(OptionsTree(opt)) && b.OnlyContentChanged()
    ensures b.Content() == Build(old(b.Content()), slot, OptionsTree(opt))
  {
    hide Builder.Content, Builder.Valid, Build, BuildAll, OpenStruct, Size, SizeAll, Aligned, AllAligned, Words,
        ClientTree, OptionsTree, OptionsHead, BodyWords, ToLe, SetBytes;
    ghost var c := b.Content();
    var flag: Byte := if opt.replaceExisting then 1 else 0;
    OptionsData(opt);
    OptionsParts(opt);
    var options := PutStruct(b, slot, 1, 2);
    PutNumber(b, c, slot, Zeros(8), 2, options, 0, 1, flag);
    PutNumber(b, c, slot, SetBytes(Zeros(8), 0, ToLe(1, flag)), 2, options, 2, 1, opt.previousAttempts);
    assert b.Content() == OpenStruct(c, slot, OptionsHead(opt), 2);
    PutClient(b, options + 1, opt);
    PutBlob(b, options + 2, opt.localIp, false);
    OptionsBuilt(c, options, slot, opt);
  }

  function OptionsHead(opt: Options): (d: Bytes)
    ensures |d| == 8
  {
    [if opt.replaceExisting then 1 else 0, 0, opt.previousAttempts] + Zeros(5)
  }

  lemma OptionsParts(opt: Options)
    requires opt.features < 4
    ensures Size(OptionsTree(opt)) == 3 + Size(ClientTree(opt)) + BodyWords(Blob(opt.localIp, false))
    ensures Size(Blob(opt.localIp, false)) == BodyWords(Blob(opt.localIp, false))
    ensures Aligned(OptionsTree(opt)) && Aligned(ClientTree(opt)) && Aligned(Blob(opt.localIp, false))
  {
    hide Size, SizeAll, Aligned, AllAligned, ClientTree, BodyWords;
    var x, y := ClientTree(opt), Blob(opt.localIp, false);
    BlobSize(opt.localIp, false);
    ClientAligned(opt);
    SizeAll2(x, y);
    StructSize(OptionsHead(opt), [x, y]);
  }

  lemma ClientAligned(opt: Options)
    requires opt.features < 4
    ensures Aligned(ClientTree(opt))
  {
    hide Aligned;
    ClientParts(opt);
  }

  lemma OptionsBuilt(c: Bytes, at: nat, slot: nat, opt: Options)
    requires opt.features < 4 && slot < at && |c| == 8 * at
    requires Aligned(OptionsTree(opt)) && Aligned(ClientTree(opt)) && Aligned(Blob(opt.localIp, false))
    ensures Build(c, slot, OptionsTree(opt)) ==
              Build(Build(OpenStruct(c, slot, OptionsHead(opt), 2), at + 1, ClientTree(opt)), at + 2,
                  Blob(opt.localIp, false))
  {
    hide Build, BuildAll, OpenStruct, Aligned, AllAligned, ClientTree;
    var x, y := ClientTree(opt), Blob(opt.localIp, false);
    SizeAll2(x, y);
    BuildStruct(c, at, slot, OptionsHead(opt), 1, [x, y]);
    Build2(OpenStruct(c, slot, OptionsHead(opt), 2), at + 1, x, y);
  }

  lemma ParamsData(index: Byte)
    ensures SetBytes(Zeros(8), 0, ToLe(1, index)) == ParamsHead(index)
  {
    hide ToLe;
    OneByteLe(index);
  }

  lemma AuthAligned(cred: Credentials)
    requires |cred.accountTag| == 33
    ensures Aligned(AuthTree(cred))
  {
    hide Aligned, AllAligned;
    LeafSizes(cred.accountTag[..32], true);
    LeafSizes(cred.secret, false);
    SizeAll2(Blob(cred.accountTag[..32], true), Blob(cred.secret, false));
    StructSize([], [Blob(cred.accountTag[..32], true), Blob(cred.secret, false)]);
  }

  function ParamsHead(index: Byte): (d: Bytes)
    ensures |d| == 8
  {
    [index] + Zeros(7)
  }

  lemma ParamsParts(cred: Credentials, opt: Options)
    requires |cred.accountTag| == 33 && opt.features < 4
    ensures Size(ParamsTree(cred, opt)) ==
              4 + Size(AuthTree(cred)) + BodyWords(Blob(cred.tunnelId, false)) + Size(OptionsTree(opt))
    ensures Size(Blob(cred.tunnelId, false)) == BodyWords(Blob(cred.tunnelId, false))
    ensures Aligned(ParamsTree(cred, opt))
    ensures Aligned(AuthTree(cred)) && Aligned(Blob(cred.tunnelId, false)) && Aligned(OptionsTree(opt))
  {
    hide Size, SizeAll, Aligned, AllAligned, AuthTree, OptionsTree, BodyWords;
    var x, y, z := AuthTree(cred), Blob(cred.tunnelId, false), OptionsTree(opt);
    AuthAligned(cred);
    BlobSize(cred.tunnelId, false);
    OptionsParts(opt);
    SizeAll3(x, y, z);
    StructSize(ParamsHead(opt.connectionIndex), [x, y, z]);
  }

  lemma ParamsBuilt(c: Bytes, at: nat, slot: nat, cred: Credentials, opt: Options)
    requires |cred.accountTag| == 33 && opt.features < 4 && slot < at && |c| == 8 * at
    requires Aligned(ParamsTree(cred, opt))
    requires Aligned(AuthTree(cred)) && Aligned(Blob(cred.tunnelId, false)) && Aligned(OptionsTree(opt))
    ensures Build(c, slot, ParamsTree(cred, opt)) ==
              Build(Build(Build(OpenStruct(c, slot, ParamsHead(opt.connectionIndex), 3), at + 1, AuthTree(cred)),
                          at + 2, Blob(cred.tunnelId, false)), at + 3, OptionsTree(opt))
  {
    hide Build, BuildAll, OpenStruct, Aligned, AllAligned, AuthTree, OptionsTree;
    var x, y, z := AuthTree(cred), Blob(cred.tunnelId, false), OptionsTree(opt);
    SizeAll3(x, y, z);
    BuildStruct(c, at, slot, ParamsHead(opt.connectionIndex), 1, [x, y, z]);
    Build3(OpenStruct(c, slot, ParamsHead(opt.connectionIndex), 3), at + 1, x, y, z);
  }

  method PutParams(b: Builder, slot: nat, cred: Credentials, opt: Options)
    requires |cred.accountTag| == 33 && opt.features < 4 && Room(b, Size(ParamsTree(cred, opt))) && slot < b.words
    modifies b, b.buffer
    ensures Aligned(ParamsTree(cred, opt))
    ensures b.Valid() && b.error == Ok && b.words == old(b.words) + Size(ParamsTree(cred, opt))
        && b.OnlyContentChanged()
    ensures b.Content() == Build(old(b.Content()), slot, ParamsTree(cred, opt))
  {
    hide Builder.Content, Builder.Valid, Build, BuildAll, OpenStruct, Size, SizeAll, Aligned, AllAligned, Words,
        AuthTree, OptionsTree, ParamsTree, ParamsHead,
      BodyWords, ToLe, SetBytes;
    ghost var c := b.Content();
    ParamsData(opt.connectionIndex);
    ParamsParts(cred, opt);
    var params := PutStruct(b, slot, 1, 3);
    PutNumber(b, c, slot, Zeros(8), 3, params, 0, 1, opt.connectionIndex);
    assert b.Content() == OpenStruct(c, slot, ParamsHead(opt.connectionIndex), 3);
    PutAuth(b, params + 1, cred);
    PutBlob(b, params + 2, cred.tunnelId, false);
    PutOptions(b, params + 3, opt);
    ParamsBuilt(c, params, slot, cred, opt);
  }

  // ---- message heads

  /** The segment once the envelope is open: root pointer, union tag, one empty slot. */
  function Head(kind: nat): (c: Bytes)
    ensures |c| == 24
  {
    OpenStruct(Zeros(8), 0, ToLe(2, kind) + Zeros(6), 1)
  }

  lemma KindData(kind: nat)
    ensures SetBytes(Zeros(8), 0, ToLe(2, kind)) == ToLe(2, kind) + Zeros(6)
  {
  }

  /** Opens the envelope and the message body inside it. */
  method PutMessage(b: Builder, kind: nat, data: nat, pointers: nat) returns (at: nat)
    requires data < 8 && pointers < 8 && Room(b, 2 + data + pointers) && b.words == 1 && b.Content() == Zeros(8)
    modifies b, b.buffer
    ensures b.Valid() && b.error == Ok && at == 3 && b.words == 3 + data + pointers && b.OnlyContentChanged()
    ensures b.Content() == OpenStruct(Head(kind), 2, Zeros(8 * data), pointers)
  {
    hide OpenStruct, ToLe, SetBytes;
    KindData(kind);
    var root := PutStruct(b, 0, 1, 1);
    PutNumber(b, Zeros(8), 0, Zeros(8), 1, root, 0, 2, kind);
    at := PutStruct(b, root + 1, data, pointers);
  }

  /** A frame is complete once the body has been built after the head. */
  lemma EnvelopeBuilt(kind: nat, body: Node)
    requires Aligned(body)
    ensures Aligned(Envelope(kind, body)) && Segment(Envelope(kind, body)) == Build(Head(kind), 2, body)
  {
    hide Build, BuildAll, OpenStruct, Size, SizeAll, Aligned, AllAligned, ToLe, Layout;
    var data := ToLe(2, kind) + Zeros(6);
    SizeAll1(body);
    EnvelopeSize(kind, body);
    SegmentIsBuilt(Envelope(kind, body));
    BuildStruct(Zeros(8), 1, 0, data, 1, [body]);
    Build1(Head(kind), 2, body);
  }

  lemma BuildNoFields(c: Bytes, slot: nat, data: Bytes)
    requires 8 * slot + 8 <= |c| && |c| % 8 == 0 && |data| % 8 == 0
    ensures Aligned(Struct(data, [])) && Build(c, slot, Struct(data, [])) == OpenStruct(c, slot, data, 0)
  {
  }

  /** Closes the frame when the segment is that of the message. */
  method Close(b: Builder, ghost m: Msg) returns (rc: Code, n: nat)
    requires WellTyped(m) && b.Valid() && b.error == Ok && b.Content() == Segment(Tree(m))
    requires forall j :: b.origin <= j < b.origin + 8 ==> b.buffer[j] == 0
    modifies b.buffer
    ensures rc == Ok && n == |Frame(m)| <= b.capacity && b.buffer[b.origin..b.origin + n] == Frame(m)
    ensures forall j :: 0 <= j < b.origin || b.origin + b.capacity <= j < b.buffer.Length ==>
        b.buffer[j] == old(b.buffer[j])
  {
    hide Tree, Segment, ToLe, WellTyped;
    FrameFits(m);
    MessageShape(Tree(m));
    rc, n := b.End();
    assert ToLe(4, 0) + ToLe(4, b.words) + Segment(Tree(m)) == Frame(m);
  }

  // ---- whole messages: the frame of m from `at` on, everything outside the window untouched

  lemma FinishData(id: nat, release: bool)
    ensures var flag: Byte := if release then 0 else 1;
            SetBytes(SetBytes(Zeros(8), 0, ToLe(4, id)), 4, ToLe(1, flag)) == ToLe(4, id) + [flag] + Zeros(3)
  {
    hide ToLe;
    var x, y := ToLe(4, id), [if release then 0 else 1];
    OneByteLe(if release then 0 else 1);
    assert SetBytes(Zeros(8), 0, x) == x + Zeros(4);
    assert SetBytes(x + Zeros(4), 4, y) == x + y + Zeros(3);
  }

  method WriteFinish(id: nat, release: bool, out: array<Byte>, at: nat, cap: nat) returns (rc: Code, n: nat)
    requires id < U32 && 40 <= cap <= TX_MAX && at + cap <= out.Length
    modifies out
    ensures rc == Ok && n == |Frame(Finish(id, release))| == 40 && out[at..at + n] == Frame(Finish(id, release))
    ensures forall j :: 0 <= j < at || at + cap <= j < out.Length ==> out[j] == old(out[j])
  {
    hide Builder.Content, OpenStruct, ToLe, SetBytes, Segment, Frame, Build, Aligned, Head;
    var b := new Builder(out, at, cap);
    var s := PutMessage(b, 4, 1, 0);
    var flag: Byte := if release then 0 else 1;
    FinishData(id, release);
    PutNumber(b, Head(4), 2, Zeros(8), 0, s, 0, 4, id);
    PutNumber(b, Head(4), 2, SetBytes(Zeros(8), 0, ToLe(4, id)), 0, s, 4, 1, flag); // default true, XOR on wire
    ghost var data := ToLe(4, id) + [flag] + Zeros(3);
    BuildNoFields(Head(4), 2, data);
    EnvelopeBuilt(4, Struct(data, []));
    FrameFits(Finish(id, release));
    rc, n := Close(b, Finish(id, release));
  }

  lemma ReleaseData(cap: nat)
    ensures SetBytes(SetBytes(Zeros(8), 0, ToLe(4, cap)), 4, ToLe(4, 1)) == ToLe(4, cap) + ToLe(4, 1)
  {
    hide ToLe;
    var x, y := ToLe(4, cap), ToLe(4, 1);
    assert SetBytes(Zeros(8), 0, x) == x + Zeros(4);
    assert SetBytes(x + Zeros(4), 4, y) == x + y;
  }

  method WriteRelease(capability: nat, out: array<Byte>, at: nat, cap: nat) returns (rc: Code, n: nat)
    requires capability < U32 && 40 <= cap <= TX_MAX && at + cap <= out.Length
    modifies out
    ensures rc == Ok && n == |Frame(ReleaseCap(capability))| == 40 && out[at..at + n] == Frame(ReleaseCap(capability))
    ensures forall j :: 0 <= j < at || at + cap <= j < out.Length ==> out[j] == old(out[j])
  {
    hide OpenStruct, ToLe, SetBytes, Segment, Frame, Build, Aligned, Head;
    var b := new Builder(out, at, cap);
    var s := PutMessage(b, 6, 1, 0);
    ReleaseData(capability);
    PutNumber(b, Head(6), 2, Zeros(8), 0, s, 0, 4, capability);
    PutNumber(b, Head(6), 2, SetBytes(Zeros(8), 0, ToLe(4, capability)), 0, s, 4, 4, 1);
    ghost var data := ToLe(4, capability) + ToLe(4, 1);
    BuildNoFields(Head(6), 2, data);
    EnvelopeBuilt(6, Struct(data, []));
    FrameFits(ReleaseCap(capability));
    rc, n := Close(b, ReleaseCap(capability));
  }

  method WriteAbort(out: array<Byte>) returns (rc: Code, n: nat)
    requires TX_MAX <= out.Length
    modifies out
    ensures rc == Ok && n == |Frame(AbortPeer)| <= TX_MAX && out[..n] == Frame(AbortPeer)
    ensures forall j :: TX_MAX <= j < out.Length ==> out[j] == old(out[j])
  {
    hide OpenStruct, ToLe, SetBytes, Segment, Frame, Build, BuildAll, Aligned, AllAligned, Head, Size, SizeAll;
    var b := new Builder(out, 0, TX_MAX);
    var s := PutMessage(b, 1, 1, 1);
    ghost var c, reason := b.Content(), Blob(REASON, true);
    LeafSizes(REASON, true);
    SizeAll1(reason);
    PutBlob(b, s + 1, REASON, true);
    BuildStruct(Head(1), 3, 2, Zeros(8), 1, [reason]);
    Build1(c, 4, reason);
    EnvelopeBuilt(1, Struct(Zeros(8), [reason]));
    rc, n := Close(b, AbortPeer);
    assert out[0..n] == out[..n];
  }

  method WriteBootstrap(out: array<Byte>) returns (rc: Code, n: nat)
    requires TX_MAX <= out.Length
    modifies out
    ensures rc == Ok && n == |Frame(Bootstrap)| <= TX_MAX && out[..n] == Frame(Bootstrap)
    ensures forall j :: TX_MAX <= j < out.Length ==> out[j] == old(out[j])
  {
    hide OpenStruct, ToLe, SetBytes, Segment, Frame, Build, BuildAll, Aligned, AllAligned, Head, Size, SizeAll;
    var b := new Builder(out, 0, TX_MAX);
    var s := PutMessage(b, 8, 1, 1);
    ghost var c := b.Content();
    LeafSizes([], false);
    SizeAll1(Empty);
    BuildStruct(Head(8), 3, 2, Zeros(8), 1, [Empty]);
    Build1(c, 4, Empty);
    BuildLeaf(c, 4, [], false);
    EnvelopeBuilt(8, Struct(Zeros(8), [Empty]));
    rc, n := Close(b, Bootstrap);
    assert out[0..n] == out[..n];
  }

  lemma CallBytes(question: nat, m: nat)
    ensures SetBytes(SetBytes(SetBytes(Zeros(24), 0, ToLe(4, question)), 4, ToLe(2, m)), 8,
        ToLe(8, REGISTRATION_INTERFACE))
         == CallData(question, m)
  {
    hide ToLe;
    var x, y, z := ToLe(4, question), ToLe(2, m), ToLe(8, REGISTRATION_INTERFACE);
    assert SetBytes(Zeros(24), 0, x) == x + Zeros(20);
    assert SetBytes(x + Zeros(20), 4, y) == x + y + Zeros(18);
    assert SetBytes(x + y + Zeros(18), 8, z) == x + y + Zeros(2) + z + Zeros(8);
  }

  lemma TargetBytes(cap: nat)
    ensures SetBytes(Zeros(8), 0, ToLe(4, cap)) == ToLe(4, cap) + Zeros(4)
  {
  }

  /** The segment once a call is open, ready for its parameters. */
  function CallOpen(cap: nat, question: nat, m: nat): (c: Bytes)
    ensures |c| == 104
  {
    OpenStruct(OpenStruct(OpenStruct(Head(2), 2, CallData(question, m), 3), 6, ToLe(4, cap) + Zeros(4), 1), 7, [], 2)
  }

  /** The call head: question, method, interface, target capability, payload; returns the slot of the parameters. */
  method PutCall(b: Builder, cap: nat, question: nat, m: nat) returns (payload: nat)
    requires Room(b, 12) && b.words == 1 && b.Content() == Zeros(8)
    modifies b, b.buffer
    ensures b.Valid() && b.error == Ok && payload == 11 && b.words == 13 && b.OnlyContentChanged()
    ensures b.Content() == CallOpen(cap, question, m)
  {
    hide OpenStruct, ToLe, SetBytes, CallData, Head;
    var c := PutMessage(b, 2, 3, 3);
    ghost var x := SetBytes(Zeros(24), 0, ToLe(4, question));
    ghost var y := SetBytes(x, 4, ToLe(2, m));
    PutNumber(b, Head(2), 2, Zeros(24), 3, c, 0, 4, question);
    PutNumber(b, Head(2), 2, x, 3, c, 4, 2, m);
    PutNumber(b, Head(2), 2, y, 3, c, 8, 8, REGISTRATION_INTERFACE);
    CallBytes(question, m);
    ghost var d := b.Content();
    var target := PutStruct(b, c + 3, 1, 1);
    TargetBytes(cap);
    PutNumber(b, d, 6, Zeros(8), 1, target, 0, 4, cap);
    payload := PutStruct(b, c + 4, 0, 2);
    assert Zeros(8 * 0) == [];
  }

  /** A call's segment is its parameters built after the call head. */
  lemma CallBuilt(cap: nat, question: nat, m: nat, params: Node)
    requires Aligned(params)
    ensures Aligned(CallTree(cap, question, m, params))
    ensures Segment(CallTree(cap, question, m, params)) == Build(CallOpen(cap, question, m), 11, params)
  {
    hide Build, BuildAll, OpenStruct, Size, SizeAll, Aligned, AllAligned, ToLe, Head, CallData, Segment;
    var target, payload := Struct(ToLe(4, cap) + Zeros(4), [Empty]), Struct([], [params, Empty]);
    var call := Struct(CallData(question, m), [target, payload, Empty]);
    CallSize(cap, question, m, params);
    CallPartsAligned(cap, question, m, params);
    EnvelopeBuilt(2, call);
    CallDataLength(question, m);
    BuildStruct(Head(2), 3, 2, CallData(question, m), 3, [target, payload, Empty]);
    var c1 := OpenStruct(Head(2), 2, CallData(question, m), 3);
    Build3(c1, 6, target, payload, Empty);
    BuildStruct(c1, 9, 6, ToLe(4, cap) + Zeros(4), 1, [Empty]);
    var c2 := OpenStruct(c1, 6, ToLe(4, cap) + Zeros(4), 1);
    Build1(c2, 10, Empty);
    BuildLeaf(c2, 10, [], false);
    BuildStruct(c2, 11, 7, [], 0, [params, Empty]);
    var c3 := OpenStruct(c2, 7, [], 2);
    Build2(c3, 11, params, Empty);
    var c4 := Build(c3, 11, params);
    BuildLeaf(c4, 12, [], false);
    BuildLeaf(c4, 8, [], false);
  }

  lemma CallDataLength(question: nat, m: nat)
    ensures |CallData(question, m)| == 24
  {
  }

  lemma CallPartsAligned(cap: nat, question: nat, m: nat, params: Node)
    requires Aligned(params)
    ensures Aligned(Empty) && AllAligned([Empty]) && Aligned(Struct(ToLe(4, cap) + Zeros(4), [Empty]))
    ensures AllAligned([params, Empty]) && Aligned(Struct([], [params, Empty]))
    ensures var fields := [Struct(ToLe(4, cap) + Zeros(4), [Empty]), Struct([], [params, Empty]), Empty];
            AllAligned(fields) && Aligned(Struct(CallData(question, m), fields))
  {
    hide Aligned, AllAligned, ToLe;
    LeafSizes([], false);
    SizeAll1(Empty);
    StructSize(ToLe(4, cap) + Zeros(4), [Empty]);
    SizeAll2(params, Empty);
    StructSize([], [params, Empty]);
    var fields := [Struct(ToLe(4, cap) + Zeros(4), [Empty]), Struct([], [params, Empty]), Empty];
    SizeAll3(fields[0], fields[1], Empty);
    StructSize(CallData(question, m), fields);
  }

  /** The registration call; the size bound makes the encode-failure branch dead. */
  method WriteRegister(cap: nat, cred: Credentials, opt: Options, out: array<Byte>) returns (rc: Code, n: nat)
    requires cap < U32 && Registrable(cred, opt) && TX_MAX <= out.Length
    modifies out
    ensures rc == Ok && n == |Frame(CallRegister(cap, cred, opt))| <= TX_MAX
        && out[..n] == Frame(CallRegister(cap, cred, opt))
    ensures forall j :: TX_MAX <= j < out.Length ==> out[j] == old(out[j])
  {
    hide Segment, Frame, Build, Aligned, CallOpen, Size, ParamsTree, CallTree, Ascii, Hex;
    var b := new Builder(out, 0, TX_MAX);
    ParamsSize(cred, opt);
    var payload := PutCall(b, cap, 1, 0);
    PutParams(b, payload, cred, opt);
    CallBuilt(cap, 1, 0, ParamsTree(cred, opt));
    rc, n := Close(b, CallRegister(cap, cred, opt));
    assert out[0..n] == out[..n];
  }

  method WriteUnregister(cap: nat, out: array<Byte>) returns (rc: Code, n: nat)
    requires cap < U32 && TX_MAX <= out.Length
    modifies out
    ensures rc == Ok && n == |Frame(CallUnregister(cap))| <= TX_MAX && out[..n] == Frame(CallUnregister(cap))
    ensures forall j :: TX_MAX <= j < out.Length ==> out[j] == old(out[j])
  {
    hide Segment, Frame, Build, Aligned, CallOpen, CallTree, OpenStruct;
    var b := new Builder(out, 0, TX_MAX);
    var payload := PutCall(b, cap, 2, 1);
    var empty := PutStruct(b, payload, 0, 0);
    assert Zeros(8 * 0) == [];
    BuildNoFields(CallOpen(cap, 2, 1), 11, []);
    CallBuilt(cap, 2, 1, Struct([], []));
    rc, n := Close(b, CallUnregister(cap));
    assert out[0..n] == out[..n];
  }
}
