/** Replies printed with compressed owner names, and the records the parser reads back from them. */
module DnsRoundTrip {
  import opened Core
  import opened DnsNames
  import opened DnsQuery
  import opened DnsReply

  // ---- printed names anywhere in a packet

  predicate GoodName(name: Text)
  {
    name != [] && |name| <= NAME_MAX && GoodLabels(LabelsOf(name)) && LowerAll(name) == name
  }

  /** A name in place: its labels and the root. */
  function Encoded(name: Text): (b: Bytes)
    requires GoodName(name)
    ensures |b| == |name| + 2
  {
    CutJoins(name, 0, 0);
    WireSize(LabelsOf(name));
    assert name[0..] == name;
    Wire(LabelsOf(name)) + [0]
  }

  predicate Printed(p: Bytes, at: nat, b: Bytes) { at + |b| <= |p| && p[at..at + |b|] == b }

  lemma PrintedPart(p: Bytes, at: nat, b: Bytes, lo: nat, hi: nat)
    requires Printed(p, at, b) && lo <= hi <= |b|
    ensures Printed(p, at + lo, b[lo..hi])
  {
    SliceOfSlice(p, at, at + |b|, lo, hi);
  }

  lemma PrintedParts(p: Bytes, at: nat, a: Bytes, b: Bytes)
    requires Printed(p, at, a + b)
    ensures Printed(p, at, a) && Printed(p, at + |a|, b)
  {
    PrintedPart(p, at, a + b, 0, |a|);
    PrintedPart(p, at, a + b, |a|, |a| + |b|);
    assert (a + b)[0..|a|] == a && (a + b)[|a|..|a| + |b|] == b;
  }

  /** A printed name expands to its labels however many pointers led there. */
  lemma PrintedNameExpands(p: Bytes, at: nat, name: Text, hops: nat)
    requires GoodName(name) && Printed(p, at, Encoded(name))
    ensures Expand(p, at, hops) == Some(Lowered(LabelsOf(name))) && EndOf(p, at) == at + |name| + 2
  {
    hide Cut, Wire, GoodLabels, Expand, EndOf;
    var wire := Wire(LabelsOf(name));
    PrintedParts(p, at, wire, [0]);
    assert p[at + |wire|] == p[at + |wire|..at + |wire| + 1][0];
    PrintedLabelsExpand(p, at, LabelsOf(name), hops);
  }

  /** Any offset whose expansion is that of the name says the name. */
  lemma ExpansionSays(p: Bytes, at: nat, name: Text)
    requires GoodName(name) && Expand(p, at, HOPS_MAX) == Some(Lowered(LabelsOf(name)))
    ensures Says(p, at, name)
  {
    hide Cut, Expand, Proper, Lowered, LowerAll, Join;
    var labels := LabelsOf(name);
    CutJoins(name, 0, 0);
    assert name[0..] == name;
    LoweredJoin(labels);
    forall i | 0 <= i < |labels| ensures Proper(Lowered(labels)[i]) {
      assert GoodLabel(labels[i]);
      LowerTwice(labels[i]);
    }
  }

  lemma PrintedNameReads(p: Bytes, at: nat, name: Text)
    requires GoodName(name) && Printed(p, at, Encoded(name))
    ensures ReadName(p, at) == Read(name, at + |name| + 2)
  {
    hide ReadName, Expand, EndOf, Says, Encoded, GoodName;
    PrintedNameExpands(p, at, name, HOPS_MAX);
    ExpansionSays(p, at, name);
    ReadNameMeans(p, at);
  }

  /** A pointer to a printed name reads as that name and ends after two octets. */
  lemma PointerReads(p: Bytes, at: nat, name: Text)
    requires GoodName(name) && Printed(p, 12, Encoded(name)) && at > 12 && Printed(p, at, [192, 12])
    ensures ReadName(p, at) == Read(name, at + 2)
  {
    hide ReadName, Says, Encoded, GoodName;
    PrintedNameExpands(p, 12, name, HOPS_MAX - 1);
    assert p[at] == p[at..at + 2][0] && p[at + 1] == p[at..at + 2][1];
    assert Target(192, 12) == 12;
    ExpansionSays(p, at, name);
    ReadNameMeans(p, at);
    assert EndOf(p, at) == at + 2;
  }

  lemma PrintedNumber(p: Bytes, at: nat, v: nat)
    requires v < U16 && Printed(p, at, Be16(v))
    ensures U16At(p, at) == v
  {
    assert p[at] == p[at..at + 2][0] && p[at + 1] == p[at..at + 2][1];
  }

  // ---- printed records

  /** A record the policy admits, as the parser presents it. */
  predicate Presentable(r: Record, kind: nat)
  {
    && r.ttl < U16 * U16
    && if kind == TYPE_A then |r.ip| == 4 && Unicast(r.ip[0]) && r == Record([], r.ip, 0, 0, 0, r.ttl)
       else
         && r.ip == [0, 0, 0, 0] && r.priority < U16 && r.weight < U16 && r.port == EDGE_PORT
         && GoodName(r.target) && EdgeTarget(r.target)
  }

  function DataOf(r: Record, kind: nat): (b: Bytes)
    requires Presentable(r, kind)
    ensures |b| == if kind == TYPE_A then 4 else 8 + |r.target|
  {
    if kind == TYPE_A then r.ip else Be16(r.priority) + Be16(r.weight) + Be16(EDGE_PORT) + Encoded(r.target)
  }

  /** Type, class, time to live and data length. */
  function Fixed(r: Record, kind: nat): (b: Bytes)
    requires Presentable(r, kind) && kind < U16
    ensures |b| == 10
  {
    Be16(kind) + [0, 1] + Be16(r.ttl / U16) + Be16(r.ttl % U16) + Be16(|DataOf(r, kind)|)
  }

  /** One answer, owned by the name in the question. */
  function PrintItem(r: Record, kind: nat): Bytes
    requires Presentable(r, kind) && kind < U16
  {
    [192, 12] + Fixed(r, kind) + DataOf(r, kind)
  }

  predicate AllPresentable(records: seq<Record>, kind: nat)
  {
    forall i :: 0 <= i < |records| ==> Presentable(records[i], kind)
  }

  function PrintItems(records: seq<Record>, kind: nat): Bytes
    requires AllPresentable(records, kind) && kind < U16
  {
    if records == [] then [] else PrintItem(records[0], kind) + PrintItems(records[1..], kind)
  }

  function ReplyHead(id: nat, n: nat): (b: Bytes)
    requires id < U16 && n < U16
    ensures |b| == 12
  {
    Be16(id) + [128, 0, 0, 1] + Be16(n) + [0, 0, 0, 0]
  }

  function PrintReply(name: Text, kind: nat, id: nat, records: seq<Record>): Bytes
    requires GoodName(name) && kind < U16 && id < U16 && |records| < U16 && AllPresentable(records, kind)
  {
    ReplyHead(id, |records|) + (Encoded(name) + (Be16(kind) + [0, 1] + PrintItems(records, kind)))
  }

  lemma FixedReads(p: Bytes, at: nat, r: Record, kind: nat)
    requires Presentable(r, kind) && kind < U16 && Printed(p, at, Fixed(r, kind))
    ensures at + 10 <= |p| && U16At(p, at) == kind && U16At(p, at + 2) == 1 && U32At(p, at + 4) == r.ttl
    ensures U16At(p, at + 8) == |DataOf(r, kind)|
  {
    hide Be16, U16At, DataOf, EdgeTarget, Unicast, GoodLabels, LowerAll;
    var b := Fixed(r, kind);
    PrintedPart(p, at, b, 0, 2);
    PrintedPart(p, at, b, 2, 4);
    PrintedPart(p, at, b, 4, 6);
    PrintedPart(p, at, b, 6, 8);
    PrintedPart(p, at, b, 8, 10);
    assert b[0..2] == Be16(kind) && b[2..4] == [0, 1] && b[4..6] == Be16(r.ttl / U16) && b[6..8] == Be16(r.ttl % U16);
    assert b[8..10] == Be16(|DataOf(r, kind)|);
    PrintedNumber(p, at, kind);
    assert [0, 1] == Be16(1) by { One(); }
    PrintedNumber(p, at + 2, 1);
    PrintedNumber(p, at + 4, r.ttl / U16);
    PrintedNumber(p, at + 6, r.ttl % U16);
    PrintedNumber(p, at + 8, |DataOf(r, kind)|);
  }

  lemma One()
    ensures Be16(1) == [0, 1]
  {
  }

  lemma DataReads(p: Bytes, at: nat, r: Record, kind: nat)
    requires Presentable(r, kind) && Printed(p, at, DataOf(r, kind))
    ensures Answer(p, at, at + |DataOf(r, kind)|, kind, r.ttl) == Parsed([r])
  {
    hide ReadName, GoodName, Encoded, EdgeTarget, Unicast, U16At, Be16;
    var b := DataOf(r, kind);
    if kind == TYPE_A {
      assert p[at] == p[at..at + 4][0];
    } else {
      PrintedPart(p, at, b, 0, 2);
      PrintedPart(p, at, b, 2, 4);
      PrintedPart(p, at, b, 4, 6);
      PrintedPart(p, at, b, 6, |b|);
      assert b[0..2] == Be16(r.priority) && b[2..4] == Be16(r.weight) && b[4..6] == Be16(EDGE_PORT)
          && b[6..|b|] == Encoded(r.target);
      PrintedNumber(p, at, r.priority);
      PrintedNumber(p, at + 2, r.weight);
      PrintedNumber(p, at + 4, EDGE_PORT);
      PrintedNameReads(p, at + 6, r.target);
    }
  }

  /** The parser's walk over printed answers. */
  lemma {:induction false} WalkReadsBack(p: Bytes, at: nat, i: nat, q: Question, before: seq<Record>,
      records: seq<Record>)
    requires GoodName(q.name) && Printed(p, 12, Encoded(q.name)) && 12 < at && q.kind < U16
        && q.answers == q.count == i + |records|
    requires AllPresentable(records, q.kind) && Printed(p, at, PrintItems(records, q.kind))
        && at + |PrintItems(records, q.kind)| == |p|
    requires 1 <= |before| + |records| <= RECORD_MAX
    ensures Walk(p, at, i, q, before) == Parsed(before + records)
    decreases |records|
  {
    hide ReadName, GoodName, Encoded, Presentable, Fixed, DataOf, Answer, U16At, U32At;
    if records == [] {
      assert before + records == before;
    } else {
      var r, rest := records[0], PrintItems(records[1..], q.kind);
      PrintedParts(p, at, PrintItem(r, q.kind), rest);
      PrintedParts(p, at, [192, 12] + Fixed(r, q.kind), DataOf(r, q.kind));
      PrintedParts(p, at, [192, 12], Fixed(r, q.kind));
      PointerReads(p, at, q.name);
      FixedReads(p, at + 2, r, q.kind);
      DataReads(p, at + 12, r, q.kind);
      var end := at + 12 + |DataOf(r, q.kind)|;
      WalkReadsBack(p, end, i + 1, q, before + [r], records[1..]);
      assert before + [r] + records[1..] == before + records;
    }
  }

  /** Printing 1 to 16 presentable records as a reply that fits a packet and parsing it gives them back. */
  lemma ReplyReadsBack(name: Text, kind: nat, id: nat, records: seq<Record>)
    requires GoodName(name) && (kind == TYPE_A || kind == TYPE_SRV) && id < U16
    requires 1 <= |records| <= 16 && AllPresentable(records, kind)
        && |PrintReply(name, kind, id, records)| <= 1232
    ensures Parse(PrintReply(name, kind, id, records), name, kind, id) == Parsed(records)
  {
    hide ReadName, GoodName, Encoded, AllPresentable, PrintItems, Walk, Be16, U16At;
    var p := PrintReply(name, kind, id, records);
    var items := PrintItems(records, kind);
    var ask := Be16(kind) + [0, 1];
    assert Printed(p, 0, p);
    PrintedParts(p, 0, ReplyHead(id, |records|), Encoded(name) + (ask + items));
    PrintedParts(p, 12, Encoded(name), ask + items);
    var at := 12 + |name| + 2;
    PrintedParts(p, at, ask, items);
    PrintedParts(p, at, Be16(kind), [0, 1]);
    One();
    PrintedNumber(p, at, kind);
    PrintedNumber(p, at + 2, 1);
    HeadReads(p, id, |records|);
    PrintedNameReads(p, 12, name);
    WalkReadsBack(p, at + 4, 0, Question(name, kind, Answers(p), Items(p)), [], records);
    assert [] + records == records;
  }

  lemma HeadReads(p: Bytes, id: nat, n: nat)
    requires id < U16 && n < U16 && Printed(p, 0, ReplyHead(id, n)) && |p| <= PACKET_MAX
    ensures HeaderCode(p, id) == Ok && U16At(p, 6) == n && U16At(p, 8) == 0 && U16At(p, 10) == 0
  {
    hide Be16, U16At;
    var b := ReplyHead(id, n);
    assert b[0..2] == Be16(id) && b[4..6] == [0, 1] && b[6..8] == Be16(n) && b[8..10] == [0, 0] && b[10..12] == [0, 0];
    PrintedPart(p, 0, b, 0, 2);
    PrintedPart(p, 0, b, 4, 6);
    PrintedPart(p, 0, b, 6, 8);
    PrintedPart(p, 0, b, 8, 10);
    PrintedPart(p, 0, b, 10, 12);
    One();
    Zero();
    PrintedNumber(p, 0, id);
    PrintedNumber(p, 4, 1);
    PrintedNumber(p, 6, n);
    PrintedNumber(p, 8, 0);
    PrintedNumber(p, 10, 0);
    assert p[2] == p[0..12][2] == 128 && p[3] == p[0..12][3] == 0;
  }

  lemma Zero()
    ensures Be16(0) == [0, 0]
  {
  }
}
