/** Which header lists the codec takes, character by character. */
module HeaderMeaning {
  import opened Core
  import opened HeaderCodec

  /** The token characters of a header name that are neither letters nor figures. */
  const MARKS: string := "!#$%&'*+-.^_`|~"

  predicate InText(c: Byte, text: string) { exists i :: 0 <= i < |text| && text[i] as int == c }

  predicate NameOctet(c: Byte)
  {
    'a' as int <= c <= 'z' as int || 'A' as int <= c <= 'Z' as int || '0' as int <= c <= '9' as int || InText(c, MARKS)
  }

  /** A tab, or anything from the space on but DEL. */
  predicate ValueOctet(c: Byte) { c == 9 || (c >= 32 && c != 127) }

  predicate Proper(h: Header)
  {
    && h.name != [] && (forall i :: 0 <= i < |h.name| ==> NameOctet(h.name[i]))
    && forall i :: 0 <= i < |h.value| ==> ValueOctet(h.value[i])
  }

  lemma TokensAreNames(c: Byte)
    ensures TokenByte(c) <==> NameOctet(c)
  {
    assert MARKS == ['!', '#', '$', '%', '&', '\'', '*', '+', '-', '.', '^', '_', '`', '|', '~'];
    assert InText(c, MARKS) <==>
        c in [33, 35, 36, 37, 38, 39, 42, 43, 45, 46, 94, 95, 96, 124, 126] by { MarksInText(c); }
  }

  lemma MarksInText(c: Byte)
    ensures InText(c, MARKS) <==> c in [33, 35, 36, 37, 38, 39, 42, 43, 45, 46, 94, 95, 96, 124, 126]
  {
    var octets: Bytes := [33, 35, 36, 37, 38, 39, 42, 43, 45, 46, 94, 95, 96, 124, 126];
    assert |MARKS| == |octets|;
    assert forall i :: 0 <= i < |octets| ==> MARKS[i] as int == octets[i];
  }

  lemma ValidIsProper(h: Header)
    ensures ValidHeader(h) <==> Proper(h)
  {
    hide TokenByte, NameOctet;
    forall c: Byte ensures TokenByte(c) <==> NameOctet(c) { TokensAreNames(c); }
  }

  /** All names and values together. */
  function Total(hs: seq<Header>): nat { if hs == [] then 0 else |hs[0].name| + |hs[0].value| + Total(hs[1..]) }

  lemma {:induction false} ScanMeans(hs: seq<Header>, room: nat)
    ensures Scan(hs, room) == Ok <==> Total(hs) <= room && forall i :: 0 <= i < |hs| ==> Proper(hs[i])
    decreases |hs|
  {
    hide Proper, ValidHeader;
    if hs != [] {
      ValidIsProper(hs[0]);
      if Size(hs[0]) <= room { ScanMeans(hs[1..], room - Size(hs[0])); }
      assert forall i :: 0 < i < |hs| ==> hs[i] == hs[1..][i - 1];
    }
  }

  /**
   * A list is encoded exactly when it has at most 32 proper headers of at most 4096 octets and its wire fits 6144 and
   * the buffer.
   */
  lemma EncodesExactly(hs: seq<Header>, cap: nat)
    ensures EncodeCode(hs, cap) == Ok <==>
              && |hs| <= 32 && Total(hs) <= 4096 && (forall i :: 0 <= i < |hs| ==> Proper(hs[i]))
              && |Wire(hs)| <= cap && |Wire(hs)| <= 6144
  {
    hide Scan, Wire, Proper;
    ScanMeans(hs, 4096);
  }
}
