/** The reply parser: what it accepts, what it yields, and the answer it fills in place. */
module DnsReply {
  import opened Core
  import opened DnsNames
  import opened DnsQuery

  const RECORD_MAX: nat := 16
  const ITEMS_MAX: nat := 64
  const EDGE_PORT: nat := 7844
  /** ".argotunnel.com" */
  const SUFFIX: Text := [46, 97, 114, 103, 111, 116, 117, 110, 110, 101, 108, 46, 99, 111, 109]

  datatype Record = Record(target: Text, ip: Bytes, priority: nat, weight: nat, port: nat, ttl: nat)

  const BLANK := Record([], [0, 0, 0, 0], 0, 0, 0, 0)

  function U16At(p: Bytes, i: nat): (v: nat)
    requires i + 2 <= |p|
    ensures v < U16
  {
    p[i] as int * 256 + p[i + 1]
  }

  function U32At(p: Bytes, i: nat): nat
    requires i + 4 <= |p|
  {
    U16At(p, i) * U16 + U16At(p, i + 2)
  }

  predicate EdgeTarget(name: Text)
  {
    |SUFFIX| < |name| <= NAME_MAX && name[|name| - |SUFFIX|..] == SUFFIX
  }

  /** A routable unicast address: not this network, loopback, multicast or reserved. */
  predicate Unicast(first: Byte) { first != 0 && first < 224 && first != 127 }

  // ---- the parser, step by step

  datatype Reply = Parsed(records: seq<Record>) | Failed(code: Code)

  datatype Question = Question(name: Text, kind: nat, answers: nat, count: nat)

  function HeaderCode(p: Bytes, id: nat): Code
  {
    if |p| < 12 then ErrTruncated
    else if |p| > PACKET_MAX then ErrLimit
    else if U16At(p, 0) != id || p[2] / 8 != 16 || U16At(p, 4) != 1 then ErrFormat
    else if p[2] / 2 % 2 == 1 then ErrTruncated
    else if p[3] % 16 != 0 then ErrState
    else Ok
  }

  predicate Asks(p: Bytes, at: nat, kind: nat) { at + 4 <= |p| && U16At(p, at) == kind && U16At(p, at + 2) == 1 }

  function Answers(p: Bytes): nat
    requires |p| >= 12
  {
    U16At(p, 6)
  }

  function Items(p: Bytes): nat
    requires |p| >= 12
  {
    U16At(p, 6) + U16At(p, 8) + U16At(p, 10)
  }

  function Parse(p: Bytes, name: Text, kind: nat, id: nat): Reply
  {
    if kind != TYPE_A && kind != TYPE_SRV then Failed(ErrArgument)
    else if HeaderCode(p, id) != Ok then Failed(HeaderCode(p, id))
    else match ReadName(p, 12)
      case Bad(code) => Failed(code)
      case Read(owner, at) =>
        if owner != name || !Asks(p, at, kind) then Failed(ErrFormat)
        else if Items(p) > ITEMS_MAX then Failed(ErrLimit)
        else Walk(p, at + 4, 0, Question(name, kind, Answers(p), Items(p)), [])
  }

  /** An answer to the question itself, which must conform; other items are only skipped. */
  predicate Wanted(p: Bytes, fixed: nat, owner: Text, i: nat, q: Question)
    requires fixed + 10 <= |p|
  {
    i < q.answers && U16At(p, fixed) == q.kind && U16At(p, fixed + 2) == 1 && owner == q.name
  }

  function Walk(p: Bytes, at: nat, i: nat, q: Question, records: seq<Record>): Reply
    decreases q.count - i
  {
    if i >= q.count then
      if at != |p| then Failed(ErrFormat) else if records == [] then Failed(ErrState) else Parsed(records)
    else match ReadName(p, at)
      case Bad(code) => Failed(code)
      case Read(owner, fixed) =>
        if fixed + 10 > |p| || U16At(p, fixed + 8) > |p| - (fixed + 10) then Failed(ErrTruncated)
        else
          var end := fixed + 10 + U16At(p, fixed + 8);
          if !Wanted(p, fixed, owner, i, q) then Walk(p, end, i + 1, q, records)
          else if |records| >= RECORD_MAX then Failed(ErrLimit)
          else match Answer(p, fixed + 10, end, q.kind, U32At(p, fixed + 4))
            case Failed(code) => Failed(code)
            case Parsed(one) => Walk(p, end, i + 1, q, records + one)
  }

  /** One wanted answer: a single record, or the reason it does not conform. */
  function Answer(p: Bytes, at: nat, end: nat, kind: nat, ttl: nat): Reply
    requires at <= end <= |p|
  {
    if kind == TYPE_A then
      if end - at != 4 || !Unicast(p[at]) then Failed(ErrFormat)
      else Parsed([Record([], p[at..at + 4], 0, 0, 0, ttl)])
    else if end - at < 7 then Failed(ErrFormat)
    else match ReadName(p, at + 6)
      case Bad(code) => Failed(code)
      case Read(target, next) =>
        if next != end || U16At(p, at + 4) != EDGE_PORT || !EdgeTarget(target) then Failed(ErrUnsupported)
        else Parsed([Record(target, [0, 0, 0, 0], U16At(p, at), U16At(p, at + 2), U16At(p, at + 4), ttl)])
  }

  // ---- what a well-formed reply is

  /** A resource record in the packet: its owner's name at `at`, ten fixed octets, then data up to `end`. */
  datatype Item = Item(at: nat, owner: Text, data: nat, end: nat)

  ghost predicate IsItem(p: Bytes, it: Item)
  {
    && Says(p, it.at, it.owner)
    && it.data == EndOf(p, it.at) + 10 <= |p|
    && it.end == it.data + U16At(p, it.data - 2) <= |p|
  }

  /** The items lie end to end from an offset to the end of the packet. */
  ghost predicate Tiles(p: Bytes, at: nat, items: seq<Item>)
    decreases |items|
  {
    if items == [] then at == |p|
    else items[0].at == at && IsItem(p, items[0]) && Tiles(p, items[0].end, items[1..])
  }

  /** An address record or a service record that the policy admits, as the application sees it. */
  ghost predicate Conforms(p: Bytes, it: Item, kind: nat, r: Record)
    requires IsItem(p, it)
  {
    && r.ttl == U32At(p, it.data - 6)
    && if kind == TYPE_A then
         && it.end == it.data + 4 && Unicast(p[it.data])
         && r == Record([], p[it.data..it.end], 0, 0, 0, r.ttl)
       else
         && it.data + 6 <= it.end && Says(p, it.data + 6, r.target) && EndOf(p, it.data + 6) == it.end
         && r.priority == U16At(p, it.data) && r.weight == U16At(p, it.data + 2)
             && r.port == U16At(p, it.data + 4) == EDGE_PORT
         && EdgeTarget(r.target) && r.ip == [0, 0, 0, 0]
  }

  /** The wanted items conform, and the records are theirs, in order. */
  ghost predicate Yields(p: Bytes, items: seq<Item>, i: nat, q: Question, records: seq<Record>)
    requires forall j :: 0 <= j < |items| ==> IsItem(p, items[j])
  {
    if items == [] then records == []
    else
      assert IsItem(p, items[0]);
      if Wanted(p, items[0].data - 10, items[0].owner, i, q) then
        records != [] && Conforms(p, items[0], q.kind, records[0]) && Yields(p, items[1..], i + 1, q, records[1..])
      else Yields(p, items[1..], i + 1, q, records)
  }

  /**
   * A reply to the question: header, question, and items tiling the rest of the packet, of which the wanted ones
   * conform.
   */
  ghost predicate WellFormed(p: Bytes, name: Text, kind: nat, id: nat, items: seq<Item>, records: seq<Record>)
  {
    && (kind == TYPE_A || kind == TYPE_SRV)
    && HeaderCode(p, id) == Ok && Says(p, 12, name) && Asks(p, EndOf(p, 12), kind)
    && |items| == Items(p) <= ITEMS_MAX && Tiles(p, EndOf(p, 12) + 4, items)
    && (TilesAreItems(p, EndOf(p, 12) + 4, items);
        Yields(p, items, 0, Question(name, kind, Answers(p), Items(p)), records))
    && 1 <= |records| <= RECORD_MAX
  }

  lemma {:induction false} TilesAreItems(p: Bytes, at: nat, items: seq<Item>)
    requires Tiles(p, at, items)
    ensures forall j :: 0 <= j < |items| ==> IsItem(p, items[j])
    decreases |items|
  {
    hide IsItem;
    if items != [] {
      TilesAreItems(p, items[0].end, items[1..]);
      forall j | 0 <= j < |items| ensures IsItem(p, items[j]) { if j > 0 { assert items[j] == items[1..][j - 1]; } }
    }
  }

  /** The reader and the item agree on the owner's name. */
  lemma ItemRead(p: Bytes, it: Item)
    requires IsItem(p, it)
    ensures ReadName(p, it.at) == Read(it.owner, it.data - 10)
  {
    hide ReadName, Says, EndOf;
    ReadNameMeans(p, it.at);
  }

  lemma AnswerConforms(p: Bytes, it: Item, kind: nat, r: Record)
    requires IsItem(p, it)
    ensures Answer(p, it.data, it.end, kind, U32At(p, it.data - 6)) == Parsed([r]) <==> Conforms(p, it, kind, r)
  {
    hide ReadName, Says, EndOf, U16At, U32At, EdgeTarget, Unicast;
    assert [r][0] == r;
    if kind != TYPE_A && it.data + 6 <= it.end {
      ReadNameMeans(p, it.data + 6);
      assert ReadName(p, it.data + 6) == Read(r.target, it.end) <==>
          Says(p, it.data + 6, r.target) && it.end == EndOf(p, it.data + 6);
    }
  }

  /** An answer that is not refused is one record. */
  lemma AnswerIsOne(p: Bytes, at: nat, end: nat, kind: nat, ttl: nat)
    requires at <= end <= |p|
    ensures var r := Answer(p, at, end, kind, ttl); r.Parsed? ==> |r.records| == 1
  {
    hide ReadName;
  }

  lemma {:induction false} WalkAccepts(p: Bytes, at: nat, i: nat, q: Question, before: seq<Record>, items: seq<Item>,
      records: seq<Record>)
    requires Tiles(p, at, items) && i + |items| == q.count && forall j :: 0 <= j < |items| ==> IsItem(p, items[j])
    requires Yields(p, items, i, q, records) && 1 <= |before| + |records| <= RECORD_MAX
    ensures Walk(p, at, i, q, before) == Parsed(before + records)
    decreases |items|
  {
    hide ReadName, IsItem, Wanted, Answer, Conforms, U16At, U32At;
    if items == [] {
      assert before + records == before;
    } else {
      var it, rest := items[0], items[1..];
      ItemRead(p, it);
      ItemShape(p, it);
      if Wanted(p, it.data - 10, it.owner, i, q) {
        var r := records[0];
        AnswerConforms(p, it, q.kind, r);
        WalkAccepts(p, it.end, i + 1, q, before + [r], rest, records[1..]);
        assert before + [r] + records[1..] == before + records;
      } else {
        WalkAccepts(p, it.end, i + 1, q, before, rest, records);
      }
    }
  }

  lemma ItemShape(p: Bytes, it: Item)
    requires IsItem(p, it)
    ensures 10 <= it.data <= it.end <= |p| && it.end == it.data + U16At(p, it.data - 2)
        && it.data - 10 == EndOf(p, it.at)
  {
  }

  lemma MakesItem(p: Bytes, at: nat) returns (it: Item)
    requires ReadName(p, at).Read?
    requires var fixed := ReadName(p, at).next; fixed + 10 <= |p| && U16At(p, fixed + 8) <= |p| - (fixed + 10)
    ensures IsItem(p, it) && it.at == at && it.owner == ReadName(p, at).text && it.data == ReadName(p, at).next + 10
  {
    hide ReadName, Says, EndOf;
    var n := ReadName(p, at);
    ReadNameMeans(p, at);
    assert n == Read(n.text, n.next);
    it := Item(at, n.text, n.next + 10, n.next + 10 + U16At(p, n.next + 8));
  }

  lemma {:induction false} WalkTiles(p: Bytes, at: nat, i: nat, q: Question, before: seq<Record>)
    returns (items: seq<Item>, records: seq<Record>)
    requires i <= q.count && |before| <= RECORD_MAX && Walk(p, at, i, q, before).Parsed?
    ensures Tiles(p, at, items) && i + |items| == q.count && forall j :: 0 <= j < |items| ==> IsItem(p, items[j])
    ensures Yields(p, items, i, q, records) && 1 <= |before| + |records| <= RECORD_MAX
    ensures Walk(p, at, i, q, before) == Parsed(before + records)
    decreases q.count - i
  {
    hide ReadName, IsItem, Wanted, Answer, Conforms, U16At, U32At;
    if i == q.count {
      items, records := [], [];
      assert before + records == before;
    } else {
      var it := MakesItem(p, at);
      ItemShape(p, it);
      var rest;
      if Wanted(p, it.data - 10, it.owner, i, q) {
        AnswerIsOne(p, it.data, it.end, q.kind, U32At(p, it.data - 6));
        var one := Answer(p, it.data, it.end, q.kind, U32At(p, it.data - 6)).records;
        assert one == [one[0]];
        AnswerConforms(p, it, q.kind, one[0]);
        rest, records := WalkTiles(p, it.end, i + 1, q, before + one);
        assert before + one + records == before + (one + records);
        records := one + records;
        assert records[1..] == records[|one|..];
      } else {
        rest, records := WalkTiles(p, it.end, i + 1, q, before);
      }
      items := [it] + rest;
      assert items[1..] == rest;
    }
  }

  /** Every well-formed reply parses to exactly its records, in order. */
  lemma WellFormedReplyParses(p: Bytes, name: Text, kind: nat, id: nat, items: seq<Item>, records: seq<Record>)
    requires WellFormed(p, name, kind, id, items, records)
    ensures Parse(p, name, kind, id) == Parsed(records)
  {
    hide ReadName, Says, EndOf, Walk, HeaderCode, Tiles, Yields, IsItem;
    ReadNameMeans(p, 12);
    assert ReadName(p, 12) == Read(name, EndOf(p, 12));
    HeaderSize(p, id);
    TilesAreItems(p, EndOf(p, 12) + 4, items);
    WalkAccepts(p, EndOf(p, 12) + 4, 0, Question(name, kind, Answers(p), Items(p)), [], items, records);
    assert [] + records == records;
  }

  lemma HeaderSize(p: Bytes, id: nat)
    requires HeaderCode(p, id) == Ok
    ensures 12 <= |p| <= PACKET_MAX
  {
  }

  /** Every accepted packet is a well-formed reply: its items tile it, and the records are those of the wanted ones. */
  lemma AcceptedReplyIsWellFormed(p: Bytes, name: Text, kind: nat, id: nat) returns (items: seq<Item>)
    requires Parse(p, name, kind, id).Parsed?
    ensures WellFormed(p, name, kind, id, items, Parse(p, name, kind, id).records)
  {
    hide ReadName, Says, EndOf, Walk, HeaderCode, Tiles, Yields, IsItem;
    ReadNameMeans(p, 12);
    HeaderSize(p, id);
    var n := ReadName(p, 12);
    assert n == Read(n.text, n.next);
    var records;
    items, records := WalkTiles(p, n.next + 4, 0, Question(name, kind, Answers(p), Items(p)), []);
    assert [] + records == records;
  }

  /** Only a lower-case name can be answered. */
  lemma AnsweredNameIsLower(p: Bytes, name: Text, kind: nat, id: nat)
    requires Parse(p, name, kind, id).Parsed?
    ensures name == LowerAll(name)
  {
    hide ReadName, Expand, EndOf, Walk, HeaderCode, Join, Lowered, LowerAll, Proper;
    ReadNameMeans(p, 12);
    var n := ReadName(p, 12);
    assert n == Read(n.text, n.next);
    var labels := Expand(p, 12, HOPS_MAX).value;
    LoweredJoin(Lowered(labels));
    LoweredJoin(labels);
  }

  // ---- the answer filled in place

  class DnsAnswer {
    const records: array<Record>
    var count: nat

    ghost predicate Valid()
      reads this
    {
      records.Length == RECORD_MAX && count <= RECORD_MAX
    }

    ghost predicate IsBlank()
      reads this, records
    {
      count == 0 && forall i :: 0 <= i < records.Length ==> records[i] == BLANK
    }

    constructor ()
      ensures Valid() && IsBlank() && fresh(records)
    {
      records := new Record[RECORD_MAX](_ => BLANK);
      count := 0;
    }

    method Clear()
      requires Valid()
      modifies this, records
      ensures Valid() && IsBlank()
    {
      for i := 0 to records.Length
        invariant forall j :: 0 <= j < i ==> records[j] == BLANK
      {
        records[i] := BLANK;
      }
      count := 0;
    }

    /** Checks one wanted answer and stores it in the next record. */
    method Store(p: Bytes, at: nat, end: nat, kind: nat, ttl: nat, text: array<Byte>) returns (code: Code)
      requires Valid() && count < RECORD_MAX && at <= end <= |p| && text.Length > NAME_MAX
      modifies records, text, this`count
      ensures Valid()
      ensures code == Ok ==>
          Answer(p, at, end, kind, ttl).Parsed?
          && records[..count] == old(records[..count]) + Answer(p, at, end, kind, ttl).records
      ensures code != Ok ==> Answer(p, at, end, kind, ttl) == Failed(code)
    {
      hide ReadName, U16At, EdgeTarget, Unicast;
      var r;
      if kind == TYPE_A {
        if end - at != 4 { return ErrFormat; }
        if !Unicast(p[at]) { return ErrFormat; }
        r := Record([], p[at..at + 4], 0, 0, 0, ttl);
      } else {
        if end - at < 7 { return ErrFormat; }
        var used, next;
        code, used, next := ReadNameInto(p, at + 6, text);
        if code != Ok { return; }
        var target := text[..used];
        if next != end || U16At(p, at + 4) != EDGE_PORT || !EdgeTarget(target) { return ErrUnsupported; }
        r := Record(target, [0, 0, 0, 0], U16At(p, at), U16At(p, at + 2), U16At(p, at + 4), ttl);
      }
      records[count] := r;
      count := count + 1;
      return Ok;
    }

    /** The items after the question; every exit but the last leaves the answer to be cleared. */
    method WalkItems(p: Bytes, start: nat, q: Question) returns (code: Code)
      requires Valid() && count == 0
      modifies this, records
      ensures Valid()
      ensures code == Ok ==> Walk(p, start, 0, q, []) == Parsed(records[..count])
      ensures code != Ok ==> Walk(p, start, 0, q, []) == Failed(code)
    {
      hide ReadName, U16At, U32At, Answer, Wanted;
      var at: nat := start;
      var text := new Byte[NAME_MAX + 1];
      for i := 0 to q.count
        invariant Valid() && fresh(text)
        invariant Walk(p, start, 0, q, []) == Walk(p, at, i, q, records[..count])
      {
        var used, fixed;
        code, used, fixed := ReadNameInto(p, at, text);
        if code != Ok { return; }
        if fixed + 10 > |p| { return ErrTruncated; }
        var len := U16At(p, fixed + 8);
        if len > |p| - (fixed + 10) { return ErrTruncated; }
        at := fixed + 10 + len;
        if Wanted(p, fixed, text[..used], i, q) {
          if count >= RECORD_MAX { return ErrLimit; }
          code := Store(p, fixed + 10, at, q.kind, U32At(p, fixed + 4), text);
          if code != Ok { return; }
        }
      }
      if at != |p| { return ErrFormat; }
      return if count != 0 then Ok else ErrState;
    }

    method ParseReply(p: Bytes, name: Text, kind: nat, id: nat) returns (code: Code)
      requires Valid()
      modifies this, records
      ensures Valid()
      ensures code == Ok ==> Parse(p, name, kind, id) == Parsed(records[..count])
      ensures code != Ok ==> Parse(p, name, kind, id) == Failed(code) && IsBlank()
    {
      hide ReadName, U16At, Walk;
      Clear();
      if kind != TYPE_A && kind != TYPE_SRV { return ErrArgument; }
      code := HeaderCode(p, id);
      if code != Ok { return; }
      var owner := new Byte[NAME_MAX + 1];
      var used, at;
      code, used, at := ReadNameInto(p, 12, owner);
      if code != Ok { return; }
      if owner[..used] != name || !Asks(p, at, kind) { return ErrFormat; }
      if Items(p) > ITEMS_MAX { return ErrLimit; }
      code := WalkItems(p, at + 4, Question(name, kind, Answers(p), Items(p)));
      if code != Ok { Clear(); }
    }
  }
}
