/**
 * Domain names on the wire: labels, backward compression pointers, and the bounded reader (section 4.1.4 of RFC 1035).
 */
module DnsNames {
  import opened Core

  const NAME_MAX: nat := 253
  const HOPS_MAX: nat := 16
  const LABELS_MAX: nat := 127
  const DOT: Byte := 46

  type Text = Bytes
  type Labels = seq<Text>

  function Lower(c: Byte): Byte { if 65 <= c <= 90 then c + 32 else c }

  /** A lower-case letter, a digit, a hyphen or an underscore. */
  predicate NameChar(c: Byte) { 97 <= c <= 122 || 48 <= c <= 57 || c == 45 || c == 95 }

  function LowerAll(s: Text): (r: Text)
    ensures |r| == |s| && forall i :: 0 <= i < |s| ==> r[i] == Lower(s[i])
  {
    if s == [] then [] else LowerAll(s[..|s| - 1]) + [Lower(s[|s| - 1])]
  }

  /** Every character is allowed once it is in lower case. */
  predicate Proper(s: Text) { forall i :: 0 <= i < |s| ==> NameChar(Lower(s[i])) }

  function Lowered(labels: Labels): (r: Labels)
    ensures |r| == |labels| && forall i :: 0 <= i < |labels| ==> r[i] == LowerAll(labels[i])
  {
    if labels == [] then [] else [LowerAll(labels[0])] + Lowered(labels[1..])
  }

  /** The dotted text of a list of labels. */
  function Join(labels: Labels): Text
  {
    if labels == [] then [] else if |labels| == 1 then labels[0] else labels[0] + [DOT] + Join(labels[1..])
  }

  // ---- the meaning of an encoded name

  function Target(hi: Byte, lo: Byte): (t: nat) requires hi >= 192 { (hi - 192) * 256 + lo }

  /**
   * The labels the name at an offset stands for: literal labels up to a zero octet, or up to a pointer to an earlier
   * name.
   */
  function Expand(p: Bytes, at: nat, hops: nat): Option<Labels>
    decreases hops, |p| - at
  {
    if at >= |p| then None
    else if p[at] >= 192 then
      if at + 1 >= |p| || hops == 0 || Target(p[at], p[at + 1]) >= at then None
      else Expand(p, Target(p[at], p[at + 1]), hops - 1)
    else if p[at] > 63 then None
    else if p[at] == 0 then Some([])
    else if p[at] > |p| - at - 1 then None
    else
      var rest := Expand(p, at + 1 + p[at], hops);
      if rest.None? then None else Some([p[at + 1..at + 1 + p[at]]] + rest.value)
  }

  /** Where the in-place encoding ends: after the zero octet or after the first pointer. */
  function EndOf(p: Bytes, at: nat): (e: nat)
    ensures e >= at
    decreases |p| - at
  {
    if at >= |p| then at
    else if p[at] >= 192 then at + 2
    else if p[at] == 0 then at + 1
    else EndOf(p, at + 1 + p[at])
  }

  /** The name at an offset is readable and says `text`. */
  ghost predicate Says(p: Bytes, at: nat, text: Text)
  {
    var labels := Expand(p, at, HOPS_MAX);
    && labels.Some?
    && (forall i :: 0 <= i < |labels.value| ==> Proper(labels.value[i]))
    && text == Join(Lowered(labels.value)) && |text| <= NAME_MAX
  }

  // ---- the reader

  datatype Name = Read(text: Text, next: nat) | Bad(code: Code)

  function Extend(text: Text, word: Text): Text { if text == [] then word else text + [DOT] + word }

  /** The reader's loop: where it stands, the text and labels so far, the pointers followed, and where to resume. */
  function Scan(p: Bytes, at: nat, text: Text, labels: nat, hops: nat, resume: nat): Name
    requires hops <= HOPS_MAX
    decreases HOPS_MAX - hops, |p| - at
  {
    if at >= |p| then Bad(ErrTruncated)
    else if p[at] >= 192 then
      if at + 1 >= |p| then Bad(ErrTruncated)
      else if hops + 1 > HOPS_MAX || Target(p[at], p[at + 1]) >= at then Bad(ErrFormat)
      else Scan(p, Target(p[at], p[at + 1]), text, labels, hops + 1, if resume == 0 then at + 2 else resume)
    else if p[at] > 63 then Bad(ErrFormat)
    else if p[at] == 0 then Read(text, if resume != 0 then resume else at + 1)
    else if TooLong(p, at, text, labels) then Bad(ErrLimit)
    else
      var word := p[at + 1..at + 1 + p[at]];
      if !Proper(word) then Bad(ErrFormat)
      else Scan(p, at + 1 + p[at], Extend(text, LowerAll(word)), labels + 1, hops, resume)
  }

  predicate TooLong(p: Bytes, at: nat, text: Text, labels: nat)
    requires at < |p|
  {
    labels + 1 > LABELS_MAX || p[at] > |p| - at - 1 || |text| + p[at] + (if text != [] then 1 else 0) > NAME_MAX
  }

  function ReadName(p: Bytes, at: nat): Name { Scan(p, at, [], 0, 0, 0) }

  // ---- the reader reads what the name means

  /** Joining labels one at a time onto a text. */
  function Append(text: Text, labels: Labels): Text
    decreases |labels|
  {
    if labels == [] then text else Append(Extend(text, labels[0]), labels[1..])
  }

  lemma {:induction false} AppendIsJoin(text: Text, labels: Labels)
    requires forall i :: 0 <= i < |labels| ==> labels[i] != []
    ensures Append(text, labels) == if text == [] then Join(labels) else if labels == [] then text
        else text + [DOT] + Join(labels)
    ensures |Append(text, labels)| >= |text|
    decreases |labels|
  {
    if labels != [] {
      AppendIsJoin(Extend(text, labels[0]), labels[1..]);
      if |labels| == 1 { assert labels[1..] == []; }
    }
  }

  predicate AllProper(labels: Labels) { forall i :: 0 <= i < |labels| ==> Proper(labels[i]) }

  /** The text holds that many labels. */
  predicate Holds(text: Text, labels: nat)
  {
    (text == [] <==> labels == 0) && |text| >= 2 * labels - 1 && |text| <= NAME_MAX
  }

  /** What a scan from the middle of a name must yield. */
  ghost predicate Agrees(r: Name, text: Text, e: Option<Labels>, next: nat)
  {
    && (r.Read? <==> e.Some? && AllProper(e.value) && |Append(text, Lowered(e.value))| <= NAME_MAX)
    && (r.Read? ==> r == Read(Append(text, Lowered(e.value)), next))
  }

  function Next(resume: nat, end: nat): nat { if resume != 0 then resume else end }

  lemma {:induction false} ExpandLabels(p: Bytes, at: nat, hops: nat)
    ensures var e := Expand(p, at, hops); e.Some? ==> forall i :: 0 <= i < |e.value| ==> 1 <= |e.value[i]| <= 63
    ensures Expand(p, at, hops).Some? ==> at < EndOf(p, at) <= |p|
    decreases hops, |p| - at
  {
    hide Target;
    if at < |p| {
      if p[at] >= 192 {
        if Expand(p, at, hops).Some? { ExpandLabels(p, Target(p[at], p[at + 1]), hops - 1); }
      } else if 0 < p[at] <= 63 && p[at] <= |p| - at - 1 {
        ExpandLabels(p, at + 1 + p[at], hops);
        var rest := Expand(p, at + 1 + p[at], hops);
        if rest.Some? {
          var all := Expand(p, at, hops).value;
          assert |all[0]| == p[at];
          forall i | 0 <= i < |all| ensures 1 <= |all[i]| <= 63 { if i > 0 { assert all[i] == rest.value[i - 1]; } }
        }
      }
    }
  }

  lemma {:induction false} ScanAgrees(p: Bytes, at: nat, text: Text, labels: nat, hops: nat, resume: nat)
    requires hops <= HOPS_MAX && Holds(text, labels)
    ensures Agrees(Scan(p, at, text, labels, hops, resume), text, Expand(p, at, HOPS_MAX - hops),
        Next(resume, EndOf(p, at)))
    decreases HOPS_MAX - hops, |p| - at
  {
    hide Target, Append, Proper, LowerAll, Lowered;
    if at < |p| {
      if p[at] >= 192 {
        if at + 1 < |p| && hops < HOPS_MAX && Target(p[at], p[at + 1]) < at {
          ScanAgrees(p, Target(p[at], p[at + 1]), text, labels, hops + 1, if resume == 0 then at + 2 else resume);
        }
      } else if p[at] == 0 {
        assert Lowered([]) == [];
        AppendNothing(text);
      } else if p[at] <= 63 && p[at] <= |p| - at - 1 {
        ScanLabel(p, at, text, labels, hops, resume);
      }
    }
  }

  lemma AppendNothing(text: Text)
    ensures Append(text, []) == text
  {
  }

  /** One literal label. */
  lemma {:induction false} ScanLabel(p: Bytes, at: nat, text: Text, labels: nat, hops: nat, resume: nat)
    requires hops <= HOPS_MAX && Holds(text, labels) && at < |p| && 0 < p[at] <= 63 && p[at] <= |p| - at - 1
    ensures Agrees(Scan(p, at, text, labels, hops, resume), text, Expand(p, at, HOPS_MAX - hops),
        Next(resume, EndOf(p, at)))
    decreases HOPS_MAX - hops, |p| - at, 0
  {
    hide Target, Append, Proper, LowerAll, Lowered, Scan, Expand, EndOf, Extend, TooLong, AllProper;
    var word := p[at + 1..at + 1 + p[at]];
    var more := Extend(text, LowerAll(word));
    var rest := Expand(p, at + 1 + p[at], HOPS_MAX - hops);
    LabelStep(p, at, text, labels, hops, resume);
    LabelRoom(p, at, text, labels, word);
    if rest.Some? {
      ExpandLabels(p, at + 1 + p[at], HOPS_MAX - hops);
      AppendLabel(text, word, rest.value);
    }
    if !TooLong(p, at, text, labels) && Proper(word) {
      ScanAgrees(p, at + 1 + p[at], more, labels + 1, hops, resume);
    }
  }

  /** What reading one literal label comes down to. */
  lemma LabelStep(p: Bytes, at: nat, text: Text, labels: nat, hops: nat, resume: nat)
    requires hops <= HOPS_MAX && at < |p| && 0 < p[at] <= 63 && p[at] <= |p| - at - 1
    ensures var word, next := p[at + 1..at + 1 + p[at]], at + 1 + p[at];
            && EndOf(p, at) == EndOf(p, next)
            && Expand(p, at, HOPS_MAX - hops) ==
                 (if Expand(p, next, HOPS_MAX - hops).None? then None
                     else Some([word] + Expand(p, next, HOPS_MAX - hops).value))
            && Scan(p, at, text, labels, hops, resume) ==
                 if TooLong(p, at, text, labels) then Bad(ErrLimit) else if !Proper(word) then Bad(ErrFormat)
                 else Scan(p, next, Extend(text, LowerAll(word)), labels + 1, hops, resume)
  {
    hide Target, Proper, LowerAll, Extend, TooLong;
  }

  /** A label is too long exactly when the text with it would be: the limit on labels never decides. */
  lemma LabelRoom(p: Bytes, at: nat, text: Text, labels: nat, word: Text)
    requires at < |p| && 0 < p[at] <= |p| - at - 1 && Holds(text, labels) && word == p[at + 1..at + 1 + p[at]]
    ensures TooLong(p, at, text, labels) <==> |Extend(text, LowerAll(word))| > NAME_MAX
    ensures !TooLong(p, at, text, labels) ==> Holds(Extend(text, LowerAll(word)), labels + 1)
  {
  }

  lemma AppendLabel(text: Text, word: Text, rest: Labels)
    requires word != [] && forall i :: 0 <= i < |rest| ==> rest[i] != []
    ensures Append(text, Lowered([word] + rest)) == Append(Extend(text, LowerAll(word)), Lowered(rest))
    ensures |Append(text, Lowered([word] + rest))| >= |Extend(text, LowerAll(word))|
    ensures AllProper([word] + rest) <==> Proper(word) && AllProper(rest)
  {
    hide Proper, LowerAll;
    assert ([word] + rest)[1..] == rest;
    assert Lowered([word] + rest)[1..] == Lowered(rest);
    AppendIsJoin(Extend(text, LowerAll(word)), Lowered(rest));
    if AllProper([word] + rest) {
      assert Proper(([word] + rest)[0]);
      forall i | 0 <= i < |rest| ensures Proper(rest[i]) { assert rest[i] == ([word] + rest)[i + 1]; }
    }
  }

  /**
   * The reader accepts exactly the names that expand, within sixteen backward pointers, to proper labels of at most 253
   * characters; it yields their lower-case text and the end of the in-place encoding, strictly forward and inside the
   * packet.
   */
  lemma ReadNameMeans(p: Bytes, at: nat)
    ensures forall text, next :: ReadName(p, at) == Read(text, next) <==> Says(p, at, text) && next == EndOf(p, at)
    ensures ReadName(p, at).Read? ==> at < ReadName(p, at).next <= |p| && |ReadName(p, at).text| <= NAME_MAX
  {
    hide Scan, Expand, EndOf, Proper, Lowered, Join, Append;
    ScanAgrees(p, at, [], 0, 0, 0);
    var e := Expand(p, at, HOPS_MAX);
    ExpandLabels(p, at, HOPS_MAX);
    if e.Some? {
      forall i | 0 <= i < |e.value| ensures Lowered(e.value)[i] != [] { assert |Lowered(e.value)[i]| == |e.value[i]|; }
      AppendIsJoin([], Lowered(e.value));
    }
  }

  // ---- the reader in place

  /** Copies n label bytes in lower case; stops at the first improper one. */
  method CopyLabel(p: Bytes, at: nat, n: nat, out: array<Byte>, used: nat) returns (proper: bool)
    requires at + n <= |p| && used + n <= out.Length
    modifies out
    ensures proper <==> Proper(p[at..at + n])
    ensures proper ==> out[used..used + n] == LowerAll(p[at..at + n])
    ensures out[..used] == old(out[..used])
  {
    hide NameChar, Lower;
    ghost var word := p[at..at + n];
    for k := 0 to n
      invariant forall j :: 0 <= j < k ==> NameChar(Lower(word[j]))
      invariant forall j :: used <= j < used + k ==> out[j] == Lower(word[j - used])
      invariant forall j :: 0 <= j < used ==> out[j] == old(out[j])
    {
      var c := Lower(p[at + k]);
      assert word[k] == p[at + k];
      if !NameChar(c) { return false; }
      out[used + k] := c;
    }
    return true;
  }

  /** Appends a label that fits, with a dot before it unless it is the first. */
  method AddLabel(p: Bytes, at: nat, n: nat, out: array<Byte>, used: nat) returns (proper: bool, now: nat)
    requires 0 < n && at + n <= |p| && used + n + (if used != 0 then 1 else 0) <= NAME_MAX < out.Length
    modifies out
    ensures proper <==> Proper(p[at..at + n])
    ensures proper ==> now <= NAME_MAX && out[..now] == Extend(old(out[..used]), LowerAll(p[at..at + n]))
  {
    hide Proper, LowerAll;
    ghost var text, word := out[..used], p[at..at + n];
    now := used;
    if now != 0 {
      out[now] := DOT;
      now := now + 1;
    }
    ghost var before := out[..now];
    assert before == if used == 0 then [] else text + [DOT];
    proper := CopyLabel(p, at, n, out, now);
    if proper {
      Adjacent(out[..], 0, now, now + n);
      assert out[..now + n] == before + LowerAll(word);
      assert before + LowerAll(word) == Extend(text, LowerAll(word));
    }
    now := now + n;
  }

  method ReadNameInto(p: Bytes, offset: nat, out: array<Byte>) returns (code: Code, used: nat, next: nat)
    requires out.Length > NAME_MAX
    modifies out
    ensures code == Ok ==> used <= NAME_MAX && ReadName(p, offset) == Read(out[..used], next) && out[used] == 0
    ensures code != Ok ==> ReadName(p, offset) == Bad(code) && next == offset
  {
    hide Proper, LowerAll, Extend, Target;
    var at: nat, resume: nat, hops: nat, labels: nat := offset, 0, 0, 0;
    used, next := 0, offset;
    while true
      invariant hops <= HOPS_MAX && used <= NAME_MAX && next == offset
      invariant ReadName(p, offset) == Scan(p, at, out[..used], labels, hops, resume)
      decreases HOPS_MAX - hops, |p| - at
    {
      if at >= |p| { return ErrTruncated, used, next; }
      var n := p[at];
      if n >= 192 {
        if at + 1 >= |p| { return ErrTruncated, used, next; }
        var target := Target(n, p[at + 1]);
        hops := hops + 1;
        if hops > HOPS_MAX || target >= at { return ErrFormat, used, next; }
        if resume == 0 { resume := at + 2; }
        at := target;
      } else {
        if n > 63 { return ErrFormat, used, next; }
        if n == 0 {
          out[used] := 0;
          return Ok, used, if resume != 0 then resume else at + 1;
        }
        at := at + 1;
        labels := labels + 1;
        if labels > LABELS_MAX || n > |p| - at || used + n + (if used != 0 then 1 else 0) > NAME_MAX {
          return ErrLimit, used, next;
        }
        var proper;
        proper, used := AddLabel(p, at, n, out, used);
        if !proper { return ErrFormat, used, next; }
        at := at + n;
      }
    }
  }
}
