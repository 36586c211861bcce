/** The query printer, and the question read back from it. */
module DnsQuery {
  import opened Core
  import opened DnsNames

  const TYPE_A: nat := 1
  const TYPE_SRV: nat := 33
  const PACKET_MAX: nat := 1232

  /** Cutting a text at its dots: the label being collected starts at `start`, and `i` is the next character. */
  function Cut(name: Text, start: nat, i: nat): (r: Labels)
    requires start <= i <= |name|
    ensures r != []
    decreases |name| - i
  {
    if i == |name| then [name[start..i]]
    else if name[i] == DOT then [name[start..i]] + Cut(name, i + 1, i + 1)
    else Cut(name, start, i + 1)
  }

  function LabelsOf(name: Text): Labels { Cut(name, 0, 0) }

  /** Cutting undoes joining and no label holds a dot, so the labels are the text's only reading. */
  lemma {:induction false} CutJoins(name: Text, start: nat, i: nat)
    requires start <= i <= |name| && forall k :: start <= k < i ==> name[k] != DOT
    ensures Join(Cut(name, start, i)) == name[start..]
    ensures forall j :: 0 <= j < |Cut(name, start, i)| ==> DOT !in Cut(name, start, i)[j]
    decreases |name| - i
  {
    if i == |name| {
      assert name[start..i] == name[start..];
    } else if name[i] == DOT {
      CutJoins(name, i + 1, i + 1);
      assert name[start..] == name[start..i] + [DOT] + name[i + 1..];
      var rest := Cut(name, i + 1, i + 1);
      assert ([name[start..i]] + rest)[1..] == rest;
    } else {
      CutJoins(name, start, i + 1);
    }
  }

  predicate GoodLabel(word: Text) { 1 <= |word| <= 63 && Proper(word) }

  predicate GoodLabels(labels: Labels) { forall i :: 0 <= i < |labels| ==> GoodLabel(labels[i]) }

  /** Each label in lower case behind its length. */
  function Wire(labels: Labels): Bytes
    requires GoodLabels(labels)
  {
    if labels == [] then [] else [|labels[0]|] + LowerAll(labels[0]) + Wire(labels[1..])
  }

  lemma {:induction false} WireSize(labels: Labels)
    requires GoodLabels(labels) && labels != []
    ensures |Wire(labels)| == |Join(labels)| + 1
  {
    if |labels| > 1 { WireSize(labels[1..]); } else { assert labels[1..] == []; }
  }

  /** The high and low octet of a 16-bit number. */
  function Be16(v: nat): (s: Bytes)
    requires v < U16
    ensures |s| == 2
  {
    [v / 256, v % 256]
  }

  function Head(id: nat): (s: Bytes)
    requires id < U16
    ensures |s| == 12
  {
    Be16(id) + [1, 0, 0, 1, 0, 0, 0, 0, 0, 1]
  }

  /** An empty OPT record announcing the packet limit (section 6.1.2 of RFC 6891). */
  const OPT: Bytes := [0, 0, 41, 4, 208, 0, 0, 0, 0, 0, 0]

  function Query(labels: Labels, kind: nat, id: nat): Bytes
    requires GoodLabels(labels) && kind < U16 && id < U16
  {
    Head(id) + Wire(labels) + Tail(kind)
  }

  /** The root label, the question's type and class, and the OPT record. */
  function Tail(kind: nat): (s: Bytes)
    requires kind < U16
    ensures |s| == 16 && s[0] == 0 && s[1..5] == Be16(kind) + [0, 1]
  {
    [0] + Be16(kind) + [0, 1] + OPT
  }

  /** The verdict on a query. */
  function QueryCode(name: Text, kind: nat, capacity: nat): Code
  {
    if kind != TYPE_A && kind != TYPE_SRV then ErrArgument
    else if name == [] || |name| > NAME_MAX || capacity < |name| + 29 then ErrLimit
    else if !GoodLabels(LabelsOf(name)) then ErrArgument
    else Ok
  }

  // ---- reading the question back

  /** Labels printed anywhere in a packet expand to themselves, in lower case. */
  lemma {:induction false} PrintedLabelsExpand(p: Bytes, at: nat, labels: Labels, hops: nat)
    requires GoodLabels(labels) && at + |Wire(labels)| < |p|
    requires p[at..at + |Wire(labels)|] == Wire(labels) && p[at + |Wire(labels)|] == 0
    ensures Expand(p, at, hops) == Some(Lowered(labels)) && EndOf(p, at) == at + |Wire(labels)| + 1
    decreases |labels|
  {
    hide Proper, LowerAll, Expand, EndOf, Wire, Lowered;
    if labels == [] {
      NothingPrinted(p, at, hops);
    } else {
      var n := |labels[0]|;
      var size := |Wire(labels)|;
      WireParts(labels);
      assert p[at] == p[at..at + size][0];
      SliceOfSlice(p, at, at + size, 1, 1 + n);
      SliceOfSlice(p, at, at + size, 1 + n, size);
      PrintedLabelsExpand(p, at + 1 + n, labels[1..], hops);
      OneLabelMore(p, at, n, hops);
      assert Lowered(labels) == [LowerAll(labels[0])] + Lowered(labels[1..]) by { LoweredParts(labels); }
    }
  }

  lemma WireParts(labels: Labels)
    requires GoodLabels(labels) && labels != []
    ensures var n, w := |labels[0]|, Wire(labels);
            1 <= n <= 63 && |w| == 1 + n + |Wire(labels[1..])| && w[0] == n && w[1..1 + n] == LowerAll(labels[0])
                && w[1 + n..] == Wire(labels[1..])
  {
    hide Proper, LowerAll;
    assert GoodLabel(labels[0]);
  }

  lemma LoweredParts(labels: Labels)
    requires labels != []
    ensures Lowered(labels) == [LowerAll(labels[0])] + Lowered(labels[1..])
  {
  }

  lemma NothingPrinted(p: Bytes, at: nat, hops: nat)
    requires at + |Wire([])| < |p| && p[at + |Wire([])|] == 0
    ensures |Wire([])| == 0 && Expand(p, at, hops) == Some(Lowered([])) && EndOf(p, at) == at + 1
  {
  }

  lemma OneLabelMore(p: Bytes, at: nat, n: nat, hops: nat)
    requires 1 <= n <= 63 && at + 1 + n <= |p| && p[at] == n && Expand(p, at + 1 + n, hops).Some?
    ensures Expand(p, at, hops) == Some([p[at + 1..at + 1 + n]] + Expand(p, at + 1 + n, hops).value)
    ensures EndOf(p, at) == EndOf(p, at + 1 + n)
  {
    hide Target;
  }

  lemma LowerTwice(s: Text)
    ensures LowerAll(LowerAll(s)) == LowerAll(s)
    ensures Proper(s) ==> Proper(LowerAll(s))
  {
  }

  lemma {:induction false} LoweredJoin(labels: Labels)
    ensures Join(Lowered(labels)) == LowerAll(Join(labels))
    ensures Lowered(Lowered(labels)) == Lowered(labels)
  {
    hide LowerAll;
    if labels == [] {
      LowerEmpty();
    } else {
      LoweredJoin(labels[1..]);
      LowerTwice(labels[0]);
      assert Lowered(labels)[1..] == Lowered(labels[1..]);
      if |labels| > 1 { LowerDotted(labels[0], Join(labels[1..])); }
    }
  }

  lemma LowerEmpty()
    ensures LowerAll([]) == [] && Lowered([]) == []
  {
  }

  lemma LowerDotted(a: Text, b: Text)
    ensures LowerAll(a + [DOT] + b) == LowerAll(a) + [DOT] + LowerAll(b)
  {
  }

  /**
   * An accepted query is exactly 29 bytes longer than the name, and its question reads back as the name in lower case.
   */
  lemma QuestionReadsBack(name: Text, kind: nat, id: nat, capacity: nat)
    requires QueryCode(name, kind, capacity) == Ok && id < U16
    ensures var q := Query(LabelsOf(name), kind, id);
            && |q| == |name| + 29
            && ReadName(q, 12) == Read(LowerAll(name), 12 + |name| + 2)
            && q[12 + |name| + 2..12 + |name| + 6] == Be16(kind) + [0, 1]
  {
    hide Proper, LowerAll, Lowered, Wire, Join, Cut, ReadName, Expand, EndOf, Be16, Tail;
    var labels := LabelsOf(name);
    var q := Query(labels, kind, id);
    CutJoins(name, 0, 0);
    WireSize(labels);
    assert name[0..] == name;
    assert q[12..12 + |Wire(labels)|] == Wire(labels);
    assert q[14 + |name|..18 + |name|] == Tail(kind)[1..5];
    PrintedLabelsExpand(q, 12, labels, HOPS_MAX);
    LoweredJoin(labels);
    forall i | 0 <= i < |labels| ensures Proper(Lowered(labels)[i]) {
      assert GoodLabel(labels[i]);
      LowerTwice(labels[i]);
    }
    ReadNameMeans(q, 12);
    assert Says(q, 12, LowerAll(name));
  }

  // ---- the printer

  lemma {:induction false} WireMore(labels: Labels, word: Text)
    requires GoodLabels(labels) && GoodLabel(word)
    ensures GoodLabels(labels + [word]) && Wire(labels + [word]) == Wire(labels) + ([|word|] + LowerAll(word))
    decreases |labels|
  {
    hide Proper, LowerAll;
    if labels == [] {
      assert [word][1..] == [];
    } else {
      assert (labels + [word])[1..] == labels[1..] + [word];
      WireMore(labels[1..], word);
    }
  }

  /** The label being collected keeps every character read so far. */
  lemma {:induction false} CutFirst(name: Text, start: nat, i: nat)
    requires start <= i <= |name|
    ensures |Cut(name, start, i)[0]| >= i - start && forall k :: 0 <= k < i - start ==>
        Cut(name, start, i)[0][k] == name[start + k]
    decreases |name| - i
  {
    if i < |name| && name[i] != DOT { CutFirst(name, start, i + 1); }
  }

  lemma ImproperIsBad(name: Text, start: nat, i: nat, before: Labels)
    requires start <= i < |name| && name[i] != DOT && !NameChar(Lower(name[i]))
    ensures !GoodLabels(before + Cut(name, start, i))
  {
    var all := before + Cut(name, start, i);
    CutFirst(name, start, i + 1);
    assert all[|before|] == Cut(name, start, i + 1)[0];
    assert all[|before|][i - start] == name[i];
  }

  lemma BadLengthIsBad(name: Text, start: nat, i: nat, before: Labels)
    requires start <= i <= |name| && (i == |name| || name[i] == DOT) && !(1 <= i - start <= 63)
    ensures !GoodLabels(before + Cut(name, start, i))
  {
    assert (before + Cut(name, start, i))[|before|] == name[start..i];
  }

  /** One label behind its length, in lower case. */
  method PutLabel(name: Text, start: nat, end: nat, out: array<Byte>, offset: nat)
    requires start <= end <= |name| && end - start <= 63 && offset + 1 + end - start <= out.Length
    modifies out
    ensures out[offset..offset + 1 + end - start] == [end - start] + LowerAll(name[start..end])
    ensures out[..offset] == old(out[..offset])
  {
    hide Lower;
    out[offset] := end - start;
    ghost var word := name[start..end];
    var n, from := end - start, offset + 1;
    for k := 0 to n
      invariant out[offset] == n
      invariant forall j :: from <= j < from + k ==> out[j] == Lower(word[j - from])
      invariant forall j :: 0 <= j < offset ==> out[j] == old(out[j])
    {
      assert word[k] == name[start + k];
      out[from + k] := Lower(name[start + k]);
    }
    assert out[offset..from] == [n] && out[from..from + n] == LowerAll(word);
    Adjacent(out[..], offset, from, from + n);
  }

  /** The label that follows those already printed. */
  method PutNext(name: Text, start: nat, end: nat, out: array<Byte>, ghost before: Labels)
    requires start <= end <= |name| && 12 + end + 1 <= out.Length && GoodLabel(name[start..end])
    requires GoodLabels(before) && out[12..12 + start] == Wire(before)
    modifies out
    ensures GoodLabels(before + [name[start..end]]) && out[12..12 + end + 1] == Wire(before + [name[start..end]])
    ensures out[..12] == old(out[..12])
  {
    hide Wire, LowerAll, GoodLabels, Proper;
    ghost var was := out[..12 + start];
    PutLabel(name, start, end, out, 12 + start);
    WireMore(before, name[start..end]);
    assert out[..12 + start] == was;
    assert out[..12] == was[..12] && out[12..12 + start] == was[12..];
    Adjacent(out[..], 12, 12 + start, 12 + end + 1);
  }

  /** The name, label by label; false at the first bad label or character. */
  method PutName(name: Text, out: array<Byte>) returns (good: bool)
    requires name != [] && |name| <= NAME_MAX && 12 + |name| + 1 <= out.Length
    modifies out
    ensures good <==> GoodLabels(LabelsOf(name))
    ensures good ==> out[12..12 + |name| + 1] == Wire(LabelsOf(name))
    ensures out[..12] == old(out[..12])
  {
    hide Wire, LowerAll, Cut, GoodLabels, Proper, NameChar, Lower;
    var start, i := 0, 0;
    ghost var before: Labels := [];
    NoLabels();
    while i <= |name|
      invariant i <= |name| + 1 && start <= i && (i == |name| + 1 ==> start == i) && GoodLabels(before)
      invariant LabelsOf(name) == if i <= |name| then before + Cut(name, start, i) else before
      invariant i <= |name| ==> Proper(name[start..i])
      invariant out[12..12 + start] == Wire(before)
      invariant out[..12] == old(out[..12])
    {
      CutStep(name, start, i, before);
      if i == |name| || name[i] == DOT {
        if i - start == 0 || i - start > 63 {
          BadLengthIsBad(name, start, i, before);
          return false;
        }
        PutNext(name, start, i, out, before);
        before := before + [name[start..i]];
        start := i + 1;
        assert start <= |name| ==> name[start..start] == [];
      } else if !NameChar(Lower(name[i])) {
        ImproperIsBad(name, start, i, before);
        return false;
      } else {
        ProperMore(name, start, i);
      }
      i := i + 1;
    }
    return true;
  }

  lemma NoLabels()
    ensures GoodLabels([]) && Wire([]) == [] && Proper([])
  {
  }

  lemma CutStep(name: Text, start: nat, i: nat, before: Labels)
    requires start <= i <= |name|
    ensures before + Cut(name, start, i) ==
              if i == |name| then before + [name[start..i]]
              else if name[i] == DOT then (before + [name[start..i]]) + Cut(name, i + 1, i + 1)
              else before + Cut(name, start, i + 1)
  {
  }

  lemma ProperMore(name: Text, start: nat, i: nat)
    requires start <= i < |name| && Proper(name[start..i]) && NameChar(Lower(name[i]))
    ensures Proper(name[start..i + 1])
  {
    var word := name[start..i + 1];
    forall k | 0 <= k < |word| ensures NameChar(Lower(word[k])) {
      if k < i - start { assert name[start..i][k] == word[k]; }
    }
  }

  method PrintQuery(name: Text, kind: nat, id: nat, out: array<Byte>) returns (code: Code, written: nat)
    requires id < U16
    modifies out
    ensures code == QueryCode(name, kind, out.Length)
    ensures if code == Ok then written == |name| + 29 && out[..written] == Query(LabelsOf(name), kind, id)
        else written == 0
  {
    hide Wire, Cut, GoodLabels, Join, Tail, Head;
    if kind != TYPE_A && kind != TYPE_SRV { return ErrArgument, 0; }
    var n := |name|;
    if n == 0 || n > NAME_MAX || out.Length < n + 29 { return ErrLimit, 0; }
    PutAll(out, 0, Head(id));
    var good := PutName(name, out);
    if !good { return ErrArgument, 0; }
    ghost var front := out[..13 + n];
    assert front == Head(id) + Wire(LabelsOf(name)) by { Adjacent(out[..], 0, 12, 13 + n); }
    PutAll(out, 13 + n, Tail(kind));
    Adjacent(out[..], 0, 13 + n, 29 + n);
    assert out[..29 + n] == front + Tail(kind);
    return Ok, 29 + n;
  }

  method PutAll(out: array<Byte>, at: nat, bytes: Bytes)
    requires at + |bytes| <= out.Length
    modifies out
    ensures out[at..at + |bytes|] == bytes && out[..at] == old(out[..at])
  {
    for k := 0 to |bytes|
      invariant out[at..at + k] == bytes[..k]
      invariant forall j :: 0 <= j < at ==> out[j] == old(out[j])
    {
      out[at + k] := bytes[k];
      assert out[at..at + k + 1] == out[at..at + k] + [bytes[k]];
    }
  }
}
