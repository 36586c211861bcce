/** The query and the reply in octets: headers, the OPT record, the echoed id and the answer policy. */
module DnsMeaning {
  import opened Core
  import opened DnsNames
  import opened DnsQuery
  import opened DnsReply
  import opened DnsRoundTrip

  /**
   * An accepted query carries the id in network order, asks a standard question with recursion desired, counts one
   * question and one additional record, and ends in an empty OPT record for 1232 octets.
   */
  lemma QueryInOctets(name: Text, kind: nat, id: nat, capacity: nat)
    requires QueryCode(name, kind, capacity) == Ok && id < U16
    ensures var q := Query(LabelsOf(name), kind, id);
            var e := 12 + |name| + 6;
            && |q| == e + 11
            && q[0] == id / 256 && q[1] == id % 256 && q[2] == 1 && q[3] == 0
            && U16At(q, 0) == id && U16At(q, 4) == 1 && U16At(q, 6) == 0 && U16At(q, 8) == 0 && U16At(q, 10) == 1
            && U16At(q, e - 4) == kind && U16At(q, e - 2) == 1
            && q[e] == 0 && U16At(q, e + 1) == 41 && U16At(q, e + 3) == 1232 && U32At(q, e + 5) == 0
                && U16At(q, e + 9) == 0
  {
    hide Proper, LowerAll, Lowered, Wire, Join, Cut, Head, Tail, U16At, U32At, Be16;
    var labels := LabelsOf(name);
    var q := Query(labels, kind, id);
    CutJoins(name, 0, 0);
    WireSize(labels);
    assert name[0..] == name;
    var n := 12 + |Wire(labels)|;
    assert q[0..12] == Head(id) && q[n..n + 16] == Tail(kind);
    HeadInOctets(q, id);
    TailInOctets(q, n, kind);
  }

  lemma HeadInOctets(q: Bytes, id: nat)
    requires |q| >= 12 && id < U16 && q[0..12] == Head(id)
    ensures q[0] == id / 256 && q[1] == id % 256 && q[2] == 1 && q[3] == 0
    ensures U16At(q, 0) == id && U16At(q, 4) == 1 && U16At(q, 6) == 0 && U16At(q, 8) == 0 && U16At(q, 10) == 1
  {
    var h := Head(id);
    assert forall i :: 0 <= i < 12 ==> q[i] == q[0..12][i];
    assert h[0] == id / 256 && h[1] == id % 256;
    assert h[2..] == [1, 0, 0, 1, 0, 0, 0, 0, 0, 1];
    assert forall i :: 2 <= i < 12 ==> q[i] == h[2..][i - 2];
  }

  lemma TailInOctets(q: Bytes, n: nat, kind: nat)
    requires n + 16 <= |q| && kind < U16 && q[n..n + 16] == Tail(kind)
    ensures U16At(q, n + 1) == kind && U16At(q, n + 3) == 1
    ensures q[n + 5] == 0 && U16At(q, n + 6) == 41 && U16At(q, n + 8) == 1232 && U32At(q, n + 10) == 0
        && U16At(q, n + 14) == 0
  {
    var t, rest := Tail(kind), q[n..];
    assert forall i :: 0 <= i < 16 ==> rest[i] == t[i] by { assert rest[..16] == t; }
    assert t[1] == kind / 256 && t[2] == kind % 256;
    assert t[3..] == [0, 1, 0, 0, 41, 4, 208, 0, 0, 0, 0, 0, 0];
    assert rest[3] == 0 && rest[4] == 1 && rest[5] == 0 && rest[6] == 0 && rest[7] == 41 && rest[8] == 4
        && rest[9] == 208;
    assert rest[10] == 0 && rest[11] == 0 && rest[12] == 0 && rest[13] == 0 && rest[14] == 0 && rest[15] == 0;
  }

  /** A reply to the query that echoes its first two octets is accepted under the query's id. */
  lemma EchoedReplyParses(name: Text, kind: nat, id: nat, capacity: nat, records: seq<Record>)
    requires QueryCode(name, kind, capacity) == Ok && id < U16 && GoodName(name)
    requires 1 <= |records| <= 16 && AllPresentable(records, kind) && |PrintReply(name, kind, 0, records)| <= 1232
    ensures var echoed := Query(LabelsOf(name), kind, id)[..2] + PrintReply(name, kind, 0, records)[2..];
            Parse(echoed, name, kind, id) == Parsed(records)
  {
    hide Parse, Query, GoodName, Encoded, AllPresentable, PrintItems;
    QueryInOctets(name, kind, id, capacity);
    var q, p := Query(LabelsOf(name), kind, id), PrintReply(name, kind, 0, records);
    assert q[..2] == Be16(id);
    assert q[..2] + p[2..] == PrintReply(name, kind, id, records);
    ReplyReadsBack(name, kind, id, records);
  }

  // ---- which replies and answers are taken

  /**
   * A header is accepted exactly when the packet has 12 to 1232 octets, the id matches, it is a whole standard response
   * (whatever the bits for authority and recursion say) without an error code, and it repeats one question.
   */
  lemma HeaderInOctets(p: Bytes, id: nat)
    ensures HeaderCode(p, id) == Ok <==>
              && 12 <= |p| <= 1232 && p[0] as int * 256 + p[1] == id && p[2] in {128, 129, 132, 133} && p[3] % 16 == 0
              && p[4] == 0 && p[5] == 1
  {
    if |p| >= 12 {
      FlagOctet(p[2]);
      assert U16At(p, 0) == p[0] as int * 256 + p[1] && U16At(p, 4) == p[4] as int * 256 + p[5];
    }
  }

  lemma FlagOctet(b: Byte)
    ensures b / 8 == 16 && b / 2 % 2 != 1 <==> b in {128, 129, 132, 133}
  {
    assert b / 8 == 16 <==> 128 <= b < 136;
  }

  /** A truncated response is refused as truncated, one with an error code as failed. */
  lemma HeaderRefusals(p: Bytes, id: nat)
    requires 12 <= |p| <= 1232 && p[0] as int * 256 + p[1] == id && p[4] == 0 && p[5] == 1
    ensures p[2] in {130, 131, 134, 135} ==> HeaderCode(p, id) == ErrTruncated
    ensures p[2] in {128, 129, 132, 133} && p[3] % 16 != 0 ==> HeaderCode(p, id) == ErrState
    ensures !(128 <= p[2] < 136) ==> HeaderCode(p, id) == ErrFormat
  {
    assert U16At(p, 0) == p[0] as int * 256 + p[1] && U16At(p, 4) == p[4] as int * 256 + p[5];
    assert p[2] / 8 == 16 <==> 128 <= p[2] < 136;
  }

  /** An address is taken exactly when its first octet is 1 to 223 but not 127, and it is those four octets. */
  lemma AddressInOctets(p: Bytes, at: nat, end: nat, ttl: nat, r: Record)
    requires at <= end <= |p|
    ensures Answer(p, at, end, 1, ttl) == Parsed([r]) <==>
              && end == at + 4 && 1 <= p[at] <= 223 && p[at] != 127
              && r == Record([], [p[at], p[at + 1], p[at + 2], p[at + 3]], 0, 0, 0, ttl)
  {
    assert [r][0] == r;
    if end == at + 4 { assert p[at..at + 4] == [p[at], p[at + 1], p[at + 2], p[at + 3]]; }
  }

  /**
   * A service record is taken exactly when it names port 7844 and a longer name under argotunnel.com, and fills its
   * data.
   */
  lemma ServiceInOctets(p: Bytes, at: nat, end: nat, ttl: nat, r: Record)
    requires at <= end <= |p|
    ensures Answer(p, at, end, 33, ttl) == Parsed([r]) <==>
              && at + 6 < end && Says(p, at + 6, r.target) && EndOf(p, at + 6) == end
                  && p[at + 4] as int * 256 + p[at + 5] == 7844
              && (exists host: Text :: host != [] && r.target == host + Octets(".argotunnel.com"))
              && r == Record(r.target, [0, 0, 0, 0], p[at] as int * 256 + p[at + 1], p[at + 2] as int * 256 + p[at + 3],
                  7844, ttl)
  {
    hide ReadName, Says, EndOf, EdgeTarget, Octets;
    assert [r][0] == r;
    if at + 6 < end {
      ReadNameMeans(p, at + 6);
      assert ReadName(p, at + 6) == Read(r.target, end) <==> Says(p, at + 6, r.target) && end == EndOf(p, at + 6);
      SaysShort(p, at + 6, r.target);
      if |r.target| <= NAME_MAX { UnderSuffix(r.target); }
      assert U16At(p, at + 4) == p[at + 4] as int * 256 + p[at + 5];
    }
  }

  lemma SaysShort(p: Bytes, at: nat, text: Text)
    ensures Says(p, at, text) ==> |text| <= NAME_MAX
  {
    hide Expand, Proper;
  }

  lemma UnderSuffix(name: Text)
    requires |name| <= NAME_MAX
    ensures EdgeTarget(name) <==> exists host: Text :: host != [] && name == host + Octets(".argotunnel.com")
  {
    hide Octets;
    assert Octets(".argotunnel.com") == SUFFIX;
    if EdgeTarget(name) {
      var host := name[..|name| - |SUFFIX|];
      assert name == host + SUFFIX;
    }
  }

  // ---- names

  /**
   * A compression pointer is two octets, 14 bits of which are an offset; it stands for the name there, which must be
   * earlier.
   */
  lemma PointerMeans(p: Bytes, at: nat, target: nat, hops: nat)
    requires at + 2 <= |p| && target < 16384 && p[at] == 192 + target / 256 && p[at + 1] == target % 256
    ensures EndOf(p, at) == at + 2
    ensures target < at && hops > 0 ==> Expand(p, at, hops) == Expand(p, target, hops - 1)
    ensures target >= at || hops == 0 ==> Expand(p, at, hops).None?
  {
    assert target == target / 256 * 256 + target % 256;
    assert Target(p[at], p[at + 1]) == target;
  }

  /** A letter, a figure, a hyphen or an underscore, in either case. */
  predicate LabelOctet(c: Byte)
  {
    'a' as int <= c <= 'z' as int || 'A' as int <= c <= 'Z' as int || '0' as int <= c <= '9' as int || c == '-' as int
        || c == '_' as int
  }

  predicate LabelText(word: Text) { forall i :: 0 <= i < |word| ==> LabelOctet(word[i]) }

  lemma ProperMeans(word: Text)
    ensures Proper(word) <==> LabelText(word)
  {
  }

  /**
   * The reader takes exactly the names that expand over at most 16 pointers to labels of such octets, 253 in all with
   * the dots.
   */
  lemma NamesInNumbers(p: Bytes, at: nat)
    ensures ReadName(p, at).Read? <==>
              var e := Expand(p, at, 16);
              e.Some? && (forall i :: 0 <= i < |e.value| ==> LabelText(e.value[i])) && |Join(Lowered(e.value))| <= 253
  {
    hide ReadName, Expand, EndOf, Join, Lowered, LabelText, Proper;
    ReadNameMeans(p, at);
    var e := Expand(p, at, 16);
    forall word ensures Proper(word) <==> LabelText(word) { ProperMeans(word); }
    if e.Some? {
      var text := Join(Lowered(e.value));
      assert ReadName(p, at) == Read(text, EndOf(p, at)) <==> Says(p, at, text);
    }
    if ReadName(p, at).Read? {
      var n := ReadName(p, at);
      assert n == Read(n.text, n.next);
    }
  }

  // ---- which names are asked for

  /** The name is these words between dots, each of 1 to 63 label octets. */
  ghost predicate IsDotted(name: Text, labels: Labels)
  {
    labels != [] && Join(labels) == name && forall i :: 0 <= i < |labels| ==>
        1 <= |labels[i]| <= 63 && LabelText(labels[i])
  }

  lemma {:induction false} CutWaits(name: Text, start: nat, i: nat, j: nat)
    requires start <= i <= j <= |name| && forall k :: i <= k < j ==> name[k] != DOT
    ensures Cut(name, start, i) == Cut(name, start, j)
    decreases j - i
  {
    if i < j { CutWaits(name, start, i + 1, j); }
  }

  lemma {:induction false} CutOfJoin(name: Text, start: nat, labels: Labels)
    requires start <= |name| && labels != [] && name[start..] == Join(labels)
    requires forall i :: 0 <= i < |labels| ==> DOT !in labels[i]
    ensures Cut(name, start, start) == labels
    decreases |labels|
  {
    var n := |labels[0]|;
    assert forall k :: 0 <= k < n ==> name[start..][k] == labels[0][k];
    assert forall k :: start <= k < start + n ==> name[k] == labels[0][k - start];
    CutWaits(name, start, start, start + n);
    assert name[start..start + n] == labels[0];
    if |labels| > 1 {
      assert name[start..][n] == DOT;
      assert name[start + n + 1..] == name[start..][n + 1..] == Join(labels[1..]);
      CutOfJoin(name, start + n + 1, labels[1..]);
    } else {
      assert labels == [labels[0]];
    }
  }

  /**
   * A query is printed exactly for type 1 or 33, a name of 1 to 253 octets that is dotted label words, and room for 29
   * more.
   */
  lemma QueriesExactly(name: Text, kind: nat, capacity: nat)
    ensures QueryCode(name, kind, capacity) == Ok <==>
              && (kind == 1 || kind == 33) && 1 <= |name| <= 253 && capacity >= |name| + 29
              && exists labels :: IsDotted(name, labels)
  {
    hide Cut, Join, LabelText, Proper;
    forall word ensures Proper(word) <==> LabelText(word) { ProperMeans(word); }
    CutJoins(name, 0, 0);
    assert name[0..] == name;
    if GoodLabels(LabelsOf(name)) {
      forall i | 0 <= i < |LabelsOf(name)| ensures 1 <= |LabelsOf(name)[i]| <= 63 && LabelText(LabelsOf(name)[i]) {
        assert GoodLabel(LabelsOf(name)[i]);
      }
      assert IsDotted(name, LabelsOf(name));
    }
    forall labels | IsDotted(name, labels) ensures GoodLabels(LabelsOf(name)) {
      forall i | 0 <= i < |labels| ensures DOT !in labels[i] { NoDot(labels[i]); }
      CutOfJoin(name, 0, labels);
    }
  }

  lemma NoDot(word: Text)
    requires LabelText(word)
    ensures DOT !in word
  {
  }
}
