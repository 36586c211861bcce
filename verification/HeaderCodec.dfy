/** The serialized header list `b64(name):b64(value);...`. */
module HeaderCodec {
  import opened Core
  import Base64

  const COUNT_MAX := 32
  const DECODED_MAX := 4096
  const WIRE_MAX := 6144
  const COLON: Byte := 58
  const SEMICOLON: Byte := 59

  datatype Header = Header(name: Bytes, value: Bytes)

  // ---- validators

  predicate TokenByte(c: Byte)
  {
    || 97 <= c <= 122 || 65 <= c <= 90 || 48 <= c <= 57
    || c in [33, 35, 36, 37, 38, 39, 42, 43, 45, 46, 94, 95, 96, 124, 126]  // !#$%&'*+-.^_`|~
  }

  predicate ValidName(s: Bytes) { s != [] && forall i :: 0 <= i < |s| ==> TokenByte(s[i]) }

  predicate ValidValue(s: Bytes) { forall i :: 0 <= i < |s| ==> (s[i] >= 32 || s[i] == 9) && s[i] != 127 }

  predicate ValidHeader(h: Header) { ValidName(h.name) && ValidValue(h.value) }

  // ---- the wire form

  function Pair(h: Header): Bytes { Base64.Encode(h.name, false) + [COLON] + Base64.Encode(h.value, false) }

  function Pairs(hs: seq<Header>): (ps: seq<Bytes>)
    ensures |ps| == |hs|
  {
    seq(|hs|, i requires 0 <= i < |hs| => Pair(hs[i]))
  }

  /** The pieces separated by single semicolons. */
  function Join(ps: seq<Bytes>): Bytes
  {
    if ps == [] then [] else if |ps| == 1 then ps[0] else ps[0] + [SEMICOLON] + Join(ps[1..])
  }

  function Wire(hs: seq<Header>): Bytes { Join(Pairs(hs)) }

  /** The position of the first c, or the length. */
  function Until(w: Bytes, c: Byte): (n: nat)
    ensures n <= |w| && c !in w[..n] && (n < |w| ==> w[n] == c)
  {
    if w == [] || w[0] == c then 0 else
      var n := 1 + Until(w[1..], c);
      assert w[..n] == [w[0]] + w[1..][..n - 1];
      n
  }

  function After(w: Bytes, n: nat): Bytes { if n < |w| then w[n + 1..] else [] }

  /** The non-empty pieces between semicolons, in order. */
  function Pieces(w: Bytes): seq<Bytes>
    decreases |w|
  {
    if w == [] then [] else
      var e := Until(w, SEMICOLON);
      (if e == 0 then [] else [w[..e]]) + Pieces(After(w, e))
  }

  // ---- decoding

  datatype Parsed = Parsed(list: seq<Header>) | Refused(code: Code)
  datatype OneParsed = One(h: Header) | NotOne(code: Code)

  function ParsePair(p: Bytes, room: nat): OneParsed
  {
    var colon := Until(p, COLON);
    if colon == |p| then NotOne(ErrFormat) else
      var name, value := p[..colon], p[colon + 1..];
      var c := Base64.DecodeCode(name, false, room);
      if c != Ok then NotOne(c) else
        Base64.CodeOk(name, false, room);
        var n := Base64.Decode(name, false).value;
        var d := Base64.DecodeCode(value, false, room - |n|);
        if d != Ok then NotOne(d) else
          Base64.CodeOk(value, false, room - |n|);
          var h := Header(n, Base64.Decode(value, false).value);
          if ValidHeader(h) then One(h) else NotOne(ErrFormat)
  }

  function Size(h: Header): nat { |h.name| + |h.value| }

  /** A parsed pair fits the room it was given. */
  lemma ParsePairFits(p: Bytes, room: nat)
    requires ParsePair(p, room).One?
    ensures Size(ParsePair(p, room).h) <= room
  {
    hide ValidHeader, Base64.Decode, Base64.DecodeCode;
    var colon := Until(p, COLON);
    Base64.CodeOk(p[..colon], false, room);
    Base64.CodeOk(p[colon + 1..], false, room - |Base64.Decode(p[..colon], false).value|);
  }

  function ParsePairs(ps: seq<Bytes>, slots: nat, room: nat): Parsed
  {
    if ps == [] then Parsed([])
    else if slots == 0 then Refused(ErrLimit)
    else match ParsePair(ps[0], room)
      case NotOne(c) => Refused(c)
      case One(h) =>
        ParsePairFits(ps[0], room);
        Prepend([h], ParsePairs(ps[1..], slots - 1, room - Size(h)))
  }

  function Prepend(l: seq<Header>, r: Parsed): Parsed { if r.Refused? then r else Parsed(l + r.list) }

  /** What a wire decodes to, given `slots` entries and `cap` arena bytes. */
  function DecodeList(wire: Bytes, slots: nat, cap: nat): Parsed
  {
    if |wire| > WIRE_MAX then Refused(ErrLimit)
    else ParsePairs(Pieces(wire), Min(slots, COUNT_MAX), Min(cap, DECODED_MAX))
  }

  // ---- encoding

  /** The first objection to a header list, read from the front with `room` decoded bytes left. */
  function Scan(hs: seq<Header>, room: nat): Code
  {
    if hs == [] then Ok
    else if |hs[0].name| > room || |hs[0].value| > room - |hs[0].name| then ErrLimit
    else if !ValidHeader(hs[0]) then ErrFormat
    else Scan(hs[1..], room - Size(hs[0]))
  }

  function EncodeCode(hs: seq<Header>, cap: nat): Code
  {
    if |hs| > COUNT_MAX then ErrLimit
    else if Scan(hs, DECODED_MAX) != Ok then Scan(hs, DECODED_MAX)
    else if |Wire(hs)| > cap || |Wire(hs)| > WIRE_MAX then ErrLimit else Ok
  }

  // ---- the two codecs are inverse

  lemma TextHasNoSeparator(x: Bytes)
    ensures COLON !in Base64.Encode(x, false) && SEMICOLON !in Base64.Encode(x, false)
    ensures x != [] ==> Base64.Encode(x, false) != []
  {
    Base64.BodyOfEncode(x, false);
    Base64.DecodeOfEncode(x, false);
    assert Base64.AllDigits(Base64.Encode(x, false));
    assert Base64.Digit(COLON) == -1 && Base64.Digit(SEMICOLON) == -1;
  }

  lemma {:induction false} UntilFirst(a: Bytes, c: Byte, b: Bytes)
    requires c !in a
    ensures Until(a + [c] + b, c) == |a| && Until(a, c) == |a|
  {
    if a != [] {
      UntilFirst(a[1..], c, b);
      assert (a + [c] + b)[1..] == a[1..] + [c] + b;
    }
  }

  lemma ParseOfPair(h: Header, room: nat)
    requires ValidHeader(h) && Size(h) <= room
    ensures ParsePair(Pair(h), room) == One(h)
    ensures SEMICOLON !in Pair(h) && Pair(h) != []
  {
    var n, v := Base64.Encode(h.name, false), Base64.Encode(h.value, false);
    TextHasNoSeparator(h.name);
    TextHasNoSeparator(h.value);
    UntilFirst(n, COLON, v);
    var p := Pair(h);
    assert p[..|n|] == n && p[|n| + 1..] == v;
    DecodesTo(h.name, room);
    DecodesTo(h.value, room - |h.name|);
  }

  lemma DecodesTo(x: Bytes, room: nat)
    requires |x| <= room
    ensures Base64.DecodeCode(Base64.Encode(x, false), false, room) == Ok
    ensures Base64.Decode(Base64.Encode(x, false), false) == Some(x)
  {
    Base64.DecodeOfEncode(x, false);
    Base64.LengthsBack(|Base64.Body(Base64.Encode(x, false), false)|);
  }

  lemma {:induction false} PiecesOfJoin(ps: seq<Bytes>)
    requires forall i :: 0 <= i < |ps| ==> ps[i] != [] && SEMICOLON !in ps[i]
    ensures Pieces(Join(ps)) == ps
  {
    if |ps| == 1 {
      UntilFirst(ps[0], SEMICOLON, []);
      assert ps[0][..|ps[0]|] == ps[0];
    } else if |ps| > 1 {
      var w := Join(ps);
      UntilFirst(ps[0], SEMICOLON, Join(ps[1..]));
      assert w[..|ps[0]|] == ps[0] && After(w, |ps[0]|) == Join(ps[1..]);
      PiecesOfJoin(ps[1..]);
    }
  }

  lemma ScanFits(hs: seq<Header>, room: nat)
    requires hs != [] && Scan(hs, room) == Ok
    ensures ValidHeader(hs[0]) && Size(hs[0]) <= room && Scan(hs[1..], room - Size(hs[0])) == Ok
  {
  }

  lemma {:induction false} ParseOfPairs(hs: seq<Header>, slots: nat, room: nat)
    requires Scan(hs, room) == Ok && |hs| <= slots
    ensures ParsePairs(Pairs(hs), slots, room) == Parsed(hs)
    ensures forall i :: 0 <= i < |hs| ==> Pairs(hs)[i] != [] && SEMICOLON !in Pairs(hs)[i]
  {
    hide ParsePair, Pair, ValidHeader, Size;
    if hs != [] {
      ScanFits(hs, room);
      ParseOfPair(hs[0], room);
      ParseOfPairs(hs[1..], slots - 1, room - Size(hs[0]));
      assert Pairs(hs)[1..] == Pairs(hs[1..]);
      assert forall i :: 0 < i < |hs| ==> Pairs(hs)[i] == Pairs(hs)[1..][i - 1];
    }
  }

  /** Every accepted list, duplicates and empty values included, survives the wire. */
  lemma DecodeOfEncode(hs: seq<Header>, cap: nat)
    requires EncodeCode(hs, cap) == Ok
    ensures DecodeList(Wire(hs), COUNT_MAX, DECODED_MAX) == Parsed(hs)
  {
    ParseOfPairs(hs, COUNT_MAX, DECODED_MAX);
    PiecesOfJoin(Pairs(hs));
  }

  lemma PairOfParse(p: Bytes, room: nat)
    requires ParsePair(p, room).One?
    ensures Pair(ParsePair(p, room).h) == p && ValidHeader(ParsePair(p, room).h)
  {
    hide ValidHeader, Base64.Decode, Base64.DecodeCode, Base64.Encode;
    var colon := Until(p, COLON);
    var name, value := p[..colon], p[colon + 1..];
    Base64.CodeOk(name, false, room);
    Base64.CodeOk(value, false, room - |Base64.Decode(name, false).value|);
    Base64.EncodeOfDecode(name, false);
    Base64.EncodeOfDecode(value, false);
    assert p == p[..colon] + [COLON] + p[colon + 1..];
  }

  lemma {:induction false} PairsOfParse(ps: seq<Bytes>, slots: nat, room: nat)
    requires ParsePairs(ps, slots, room).Parsed?
    ensures var hs := ParsePairs(ps, slots, room).list;
            Pairs(hs) == ps && |hs| <= slots && Scan(hs, room) == Ok
  {
    hide ParsePair, Pair, ValidHeader;
    if ps != [] {
      var h := ParsePair(ps[0], room).h;
      ParsePairFits(ps[0], room);
      PairOfParse(ps[0], room);
      PairsOfParse(ps[1..], slots - 1, room - Size(h));
      var rest := ParsePairs(ps[1..], slots - 1, room - Size(h)).list;
      assert ([h] + rest)[1..] == rest;
      assert Pairs([h] + rest) == [ps[0]] + ps[1..];
    }
  }

  lemma {:induction false} JoinOfPieces(w: Bytes)
    ensures |Join(Pieces(w))| <= |w|
    ensures forall i :: 0 <= i < |Pieces(w)| ==> Pieces(w)[i] != [] && SEMICOLON !in Pieces(w)[i]
    decreases |w|
  {
    if w != [] {
      var e := Until(w, SEMICOLON);
      var rest := Pieces(After(w, e));
      JoinOfPieces(After(w, e));
      if e > 0 {
        assert Pieces(w) == [w[..e]] + rest && Pieces(w)[1..] == rest;
        assert forall i :: 0 < i < |Pieces(w)| ==> Pieces(w)[i] == rest[i - 1];
      } else {
        assert Pieces(w) == rest;
      }
    }
  }

  /** Re-encoding an accepted wire gives that wire without its empty pairs, and always succeeds. */
  lemma EncodeOfDecode(wire: Bytes, slots: nat, cap: nat)
    requires DecodeList(wire, slots, cap).Parsed?
    ensures var hs := DecodeList(wire, slots, cap).list;
            Wire(hs) == Join(Pieces(wire)) && EncodeCode(hs, |wire|) == Ok
  {
    PairsOfParse(Pieces(wire), Min(slots, COUNT_MAX), Min(cap, DECODED_MAX));
    JoinOfPieces(wire);
    ScanMonotone(DecodeList(wire, slots, cap).list, Min(cap, DECODED_MAX), DECODED_MAX);
  }

  lemma {:induction false} ScanMonotone(hs: seq<Header>, small: nat, large: nat)
    requires small <= large && Scan(hs, small) == Ok
    ensures Scan(hs, large) == Ok
  {
    if hs != [] { ScanMonotone(hs[1..], small - Size(hs[0]), large - Size(hs[0])); }
  }

  predicate Doubled(w: Bytes, i: int)
  {
    0 <= i < |w| - 1 && w[i] == SEMICOLON && w[i + 1] == SEMICOLON
  }

  /** No piece of w is empty: no leading, trailing or doubled semicolon. */
  predicate Tight(w: Bytes)
  {
    && (w != [] ==> w[0] != SEMICOLON && w[|w| - 1] != SEMICOLON)
    && forall i | 0 <= i < |w| :: !Doubled(w, i)
  }

  lemma TightGlue(a: Bytes, b: Bytes)
    requires a != [] && SEMICOLON !in a && b != []
    ensures Tight(a + [SEMICOLON] + b) <==> Tight(b)
  {
    var w := a + [SEMICOLON] + b;
    assert w[0] == a[0] && w[|w| - 1] == b[|b| - 1];
    forall i | 0 <= i < |b| ensures Doubled(b, i) <==> Doubled(w, |a| + 1 + i) {
      assert w[|a| + 1 + i] == b[i];
      if i + 1 < |b| { assert w[|a| + 1 + i + 1] == b[i + 1]; }
    }
    if Tight(w) {
      assert !Doubled(w, |a|);
    }
    if Tight(b) {
      forall i | 0 <= i < |w| ensures !Doubled(w, i) {
        if i < |a| {
          assert w[i] == a[i];
        } else if i == |a| {
          assert w[i + 1] == b[0];
        } else {
          assert !Doubled(b, i - |a| - 1);
        }
      }
    }
  }

  lemma TightPiece(a: Bytes)
    requires SEMICOLON !in a
    ensures Tight(a)
  {
  }

  lemma {:induction false} TightJoin(ps: seq<Bytes>)
    requires forall i :: 0 <= i < |ps| ==> ps[i] != [] && SEMICOLON !in ps[i]
    ensures Tight(Join(ps)) && (ps != [] ==> Join(ps) != [])
  {
    hide Tight;
    if |ps| == 0 {
      TightPiece([]);
    } else if |ps| == 1 {
      TightPiece(ps[0]);
    } else {
      TightJoin(ps[1..]);
      TightGlue(ps[0], Join(ps[1..]));
    }
  }

  lemma TightHead(w: Bytes, e: nat)
    requires Tight(w) && e == Until(w, SEMICOLON) < |w|
    ensures 0 < e < |w| - 1
  {
  }

  lemma {:induction false} JoinOfTight(w: Bytes)
    requires Tight(w)
    ensures Join(Pieces(w)) == w
    decreases |w|
  {
    hide Tight;
    if w != [] {
      var e := Until(w, SEMICOLON);
      var rest := After(w, e);
      if e == |w| {
        assert Pieces(w) == [w[..e]];
      } else {
        TightHead(w, e);
        assert w == w[..e] + [SEMICOLON] + rest;
        TightGlue(w[..e], rest);
        JoinOfTight(rest);
        assert Pieces(w) == [w[..e]] + Pieces(rest) && Pieces(w)[1..] == Pieces(rest);
      }
    }
  }

  /** Removing empty pairs changes nothing exactly when there are none. */
  lemma TightWire(w: Bytes)
    ensures Tight(w) <==> Join(Pieces(w)) == w
  {
    JoinOfPieces(w);
    TightJoin(Pieces(w));
    if Tight(w) { JoinOfTight(w); }
  }

  // ---- the two loops

  /** A decoded header as two windows of the arena. */
  datatype Entry = Entry(nameAt: nat, nameLen: nat, valueAt: nat, valueLen: nat)

  /** The header that an entry shows, all of it within the first `used` arena bytes. */
  ghost predicate Shows(arena: Bytes, used: nat, e: Entry, h: Header)
  {
    && e.nameAt + e.nameLen <= used <= |arena| && e.valueAt + e.valueLen <= used
    && arena[e.nameAt..e.nameAt + e.nameLen] == h.name
    && arena[e.valueAt..e.valueAt + e.valueLen] == h.value
  }

  /** Later arena writes leave earlier windows alone. */
  lemma ShowsLater(before: Bytes, after: Bytes, used: nat, more: nat, e: Entry, h: Header)
    requires Shows(before, used, e, h) && used <= more <= |after| == |before|
    requires forall j :: 0 <= j < used ==> after[j] == before[j]
    ensures Shows(after, more, e, h)
  {
  }

  method FindByte(w: Bytes, from: nat, to: nat, c: Byte) returns (n: nat)
    requires from <= to <= |w|
    ensures from <= n <= to && n == from + Until(w[from..to], c)
  {
    n := from;
    while n < to && w[n] != c
      invariant from <= n <= to && Until(w[from..to], c) == (n - from) + Until(w[n..to], c)
    {
      assert w[n..to][1..] == w[n + 1..to];
      n := n + 1;
    }
  }

  /** One `name:value` piece, decoded into the arena from `used` on. */
  method DecodePair(piece: Bytes, arena: array<Byte>, used: nat, cap: nat)
      returns (rc: Code, e: Entry, next: nat, ghost h: Header)
    requires used <= cap <= arena.Length
    modifies arena
    ensures ParsePair(piece, cap - used) == if rc == Ok then One(h) else NotOne(rc)
    ensures rc == Ok ==> used <= next == used + Size(h) <= cap && Shows(arena[..], next, e, h)
    ensures forall j :: 0 <= j < used ==> arena[j] == old(arena[j])
  {
    hide ValidName, ValidValue, Base64.Decode, Base64.DecodeCode;
    e, next, h := Entry(0, 0, 0, 0), used, Header([], []);
    var colon := FindByte(piece, 0, |piece|, COLON);
    assert piece[0..|piece|] == piece;
    if colon == |piece| { rc := ErrFormat; return; }
    var n;
    rc, n := Base64.DecodeTo(piece[..colon], false, arena, used, cap - used);
    if rc != Ok { return; }
    ghost var name := arena[used..used + n];
    var m;
    rc, m := Base64.DecodeTo(piece[colon + 1..], false, arena, used + n, cap - used - n);
    if rc != Ok { return; }
    assert arena[used..used + n] == name;
    if !ValidName(arena[used..used + n]) || !ValidValue(arena[used + n..used + n + m]) { rc := ErrFormat; return; }
    h := Header(arena[used..used + n], arena[used + n..used + n + m]);
    e := Entry(used, n, used + n, m);
    next := used + n + m;
  }

  function Rest(wire: Bytes, start: nat): Bytes { if start < |wire| then wire[start..] else [] }

  /** What one scan from `start` to the next semicolon does to the pieces still to come. */
  lemma PiecesTurn(wire: Bytes, start: nat, end: nat)
    requires start < |wire| && start <= end <= |wire| && end == start + Until(wire[start..|wire|], SEMICOLON)
    ensures end == start ==> Pieces(Rest(wire, start)) == Pieces(Rest(wire, end + 1))
    ensures end > start ==> Pieces(Rest(wire, start)) == [wire[start..end]] + Pieces(Rest(wire, end + 1))
  {
    var rest := wire[start..];
    assert wire[start..|wire|] == rest;
    assert After(rest, end - start) == Rest(wire, end + 1);
    assert rest[..end - start] == wire[start..end];
  }

  lemma ParseTurn(p: Bytes, ps: seq<Bytes>, slots: nat, room: nat, done: seq<Header>)
    ensures slots == 0 ==> Prepend(done, ParsePairs([p] + ps, slots, room)) == Refused(ErrLimit)
    ensures slots > 0 && ParsePair(p, room).NotOne? ==>
              Prepend(done, ParsePairs([p] + ps, slots, room)) == Refused(ParsePair(p, room).code)
    ensures slots > 0 && ParsePair(p, room).One? ==>
              var h := ParsePair(p, room).h;
              && Size(h) <= room
              && Prepend(done, ParsePairs([p] + ps, slots, room))
                  == Prepend(done + [h], ParsePairs(ps, slots - 1, room - Size(h)))
  {
    hide ParsePair;
    assert ([p] + ps)[1..] == ps;
    if slots > 0 && ParsePair(p, room).One? {
      ParsePairFits(p, room);
      PrependTwice(done, ParsePair(p, room).h, ParsePairs(ps, slots - 1, room - Size(ParsePair(p, room).h)));
    }
  }

  /** The entries show the headers, all within the first `used` arena bytes. */
  ghost predicate Listed(arena: Bytes, used: nat, es: seq<Entry>, hs: seq<Header>)
  {
    |es| == |hs| && used <= |arena| && forall i :: 0 <= i < |es| ==> Shows(arena, used, es[i], hs[i])
  }

  lemma ListedLater(before: Bytes, after: Bytes, used: nat, more: nat, es: seq<Entry>, hs: seq<Header>)
    requires Listed(before, used, es, hs) && used <= more <= |after| == |before|
    requires forall j :: 0 <= j < used ==> after[j] == before[j]
    ensures Listed(after, more, es, hs)
  {
    hide Shows;
    forall i | 0 <= i < |es| ensures Shows(after, more, es[i], hs[i]) {
      ShowsLater(before, after, used, more, es[i], hs[i]);
    }
  }

  lemma ListedSnoc(arena: Bytes, used: nat, es: seq<Entry>, hs: seq<Header>, e: Entry, h: Header)
    requires Listed(arena, used, es, hs) && Shows(arena, used, e, h)
    ensures Listed(arena, used, es + [e], hs + [h])
  {
  }

  lemma ListedNone(arena: Bytes)
    ensures Listed(arena, 0, [], [])
  {
  }

  /** The scanning loop; `done` is the list read so far. */
  method DecodePairs(wire: Bytes, slots: nat, cap: nat, entries: array<Entry>, arena: array<Byte>)
    returns (rc: Code, num: nat, ghost done: seq<Header>)
    requires slots <= entries.Length && cap <= arena.Length
    modifies entries, arena
    ensures ParsePairs(Pieces(wire), slots, cap) == if rc == Ok then Parsed(done) else Refused(rc)
    ensures num == |done| <= slots
    ensures rc == Ok ==> Listed(arena[..], arena.Length, entries[..num], done)
  {
    hide ParsePair, ParsePairs, Pieces, Shows, Prepend, Size, Listed, Rest;
    var start: nat, used: nat := 0, 0;
    num, done, rc := 0, [], Ok;
    StartTurn(wire, slots, cap);
    ListedNone(arena[..]);
    while start < |wire|
      invariant rc == Ok && used <= cap && num == |done| <= slots
      invariant ParsePairs(Pieces(wire), slots, cap)
             == Prepend(done, ParsePairs(Pieces(Rest(wire, start)), slots - num, cap - used))
      invariant Listed(arena[..], used, entries[..num], done)
      decreases |wire| - start
    {
      var end := FindByte(wire, start, |wire|, SEMICOLON);
      PiecesTurn(wire, start, end);
      if end != start {
        ParseTurn(wire[start..end], Pieces(Rest(wire, end + 1)), slots - num, cap - used, done);
        if num == slots { rc := ErrLimit; return; }
        ghost var before := arena[..];
        var e, next;
        ghost var h;
        rc, e, next, h := DecodePair(wire[start..end], arena, used, cap);
        if rc != Ok { return; }
        ListedLater(before, arena[..], used, next, entries[..num], done);
        ListedSnoc(arena[..], next, entries[..num], done, e, h);
        ghost var listed := entries[..num];
        entries[num] := e;
        assert entries[..num + 1] == listed + [e];
        done := done + [h];
        used, num := next, num + 1;
      }
      start := end + 1;
    }
    RestDone(wire, start);
    FinalTurn(done, slots - num, cap - used);
    ListedLater(arena[..], arena[..], used, arena.Length, entries[..num], done);
  }

  lemma RestDone(wire: Bytes, start: nat)
    requires start >= |wire|
    ensures Rest(wire, start) == []
  {
  }

  method Decode(wire: Bytes, entries: array<Entry>, arena: array<Byte>) returns (rc: Code, count: nat)
    modifies entries, arena
    ensures match DecodeList(wire, entries.Length, arena.Length)
            case Refused(c) => rc == c && c != Ok && count == 0
            case Parsed(l) => (rc == Ok && count == |l| <= entries.Length
                               && Listed(arena[..], arena.Length, entries[..count], l))
  {
    hide ParsePairs, Pieces, Listed;
    if |wire| > WIRE_MAX { return ErrLimit, 0; }
    var cap, slots := Min(arena.Length, DECODED_MAX), Min(entries.Length, COUNT_MAX);
    var num;
    ghost var done;
    rc, num, done := DecodePairs(wire, slots, cap, entries, arena);
    if rc != Ok { return rc, 0; }
    count := num;
  }

  lemma StartTurn(wire: Bytes, slots: nat, cap: nat)
    ensures ParsePairs(Pieces(wire), slots, cap) == Prepend([], ParsePairs(Pieces(Rest(wire, 0)), slots, cap))
  {
    assert wire[0..] == wire;
    var r := ParsePairs(Pieces(wire), slots, cap);
    if r.Parsed? { assert [] + r.list == r.list; }
  }

  lemma FinalTurn(done: seq<Header>, slots: nat, room: nat)
    ensures Prepend(done, ParsePairs(Pieces([]), slots, room)) == Parsed(done)
  {
  }

  lemma PrependTwice(l: seq<Header>, h: Header, r: Parsed)
    ensures Prepend(l, Prepend([h], r)) == Prepend(l + [h], r)
  {
    if r.Parsed? { assert l + ([h] + r.list) == l + [h] + r.list; }
  }

  /** Bytes one header takes on the wire, its separator included unless it comes first. */
  function PairNeed(h: Header, first: bool): nat
  {
    Base64.RawLength(|h.name|) + Base64.RawLength(|h.value|) + 1 + if first then 0 else 1
  }

  lemma {:induction false} JoinSnoc(ps: seq<Bytes>, p: Bytes)
    ensures Join(ps + [p]) == if ps == [] then p else Join(ps) + [SEMICOLON] + p
  {
    if |ps| == 1 {
      assert (ps + [p])[1..] == [p];
    } else if |ps| > 1 {
      JoinSnoc(ps[1..], p);
      assert (ps + [p])[1..] == ps[1..] + [p];
      assert ps[0] + [SEMICOLON] + (Join(ps[1..]) + [SEMICOLON] + p) == ps[0] + [SEMICOLON] + Join(ps[1..])
          + [SEMICOLON] + p;
    }
  }

  /** The wire grows by exactly one pair and, after the first, one separator. */
  lemma WireStep(hs: seq<Header>, i: nat)
    requires i < |hs|
    ensures Wire(hs[..i + 1]) == Wire(hs[..i]) + (if i == 0 then [] else [SEMICOLON]) + Pair(hs[i])
    ensures |Wire(hs[..i + 1])| == |Wire(hs[..i])| + PairNeed(hs[i], i == 0)
  {
    hide Pair;
    assert Pairs(hs[..i + 1]) == Pairs(hs[..i]) + [Pair(hs[i])];
    JoinSnoc(Pairs(hs[..i]), Pair(hs[i]));
    PairLength(hs[i]);
  }

  lemma PairLength(h: Header)
    ensures |Pair(h)| == PairNeed(h, true)
  {
  }

  lemma {:induction false} WirePrefix(hs: seq<Header>, i: nat)
    requires i <= |hs|
    ensures |Wire(hs[..i])| <= |Wire(hs)|
    ensures hs[..|hs|] == hs
    decreases |hs| - i
  {
    if i == |hs| {
      assert hs[..i] == hs;
    } else {
      WireStep(hs, i);
      WirePrefix(hs, i + 1);
    }
  }

  /** The first pass: limits, validity, and the exact size of the wire. */
  method Measure(hs: seq<Header>) returns (rc: Code, need: nat)
    ensures rc == Scan(hs, DECODED_MAX)
    ensures rc == Ok ==> need == |Wire(hs)|
  {
    hide Wire, ValidHeader;
    var decoded: nat, i := 0, 0;
    need := 0;
    assert hs[..0] == [] && hs[0..] == hs && Wire([]) == [] by { EmptyWire(); }
    while i < |hs|
      invariant i <= |hs| && decoded <= DECODED_MAX
      invariant Scan(hs, DECODED_MAX) == Scan(hs[i..], DECODED_MAX - decoded)
      invariant need == |Wire(hs[..i])|
    {
      var a, b := |hs[i].name|, |hs[i].value|;
      assert hs[i..][1..] == hs[i + 1..];
      if a > DECODED_MAX - decoded { return ErrLimit, 0; }
      decoded := decoded + a;
      if b > DECODED_MAX - decoded { return ErrLimit, 0; }
      decoded := decoded + b;
      if !ValidHeader(hs[i]) { return ErrFormat, 0; }
      WireStep(hs, i);
      need := need + PairNeed(hs[i], i == 0);
      i := i + 1;
    }
    assert hs[..i] == hs;
    rc := Ok;
  }

  lemma EmptyWire()
    ensures Wire([]) == []
  {
  }

  /** Serialises the list; the size computed beforehand makes every inner Base64 call succeed. */
  method Encode(hs: seq<Header>, wire: array<Byte>) returns (rc: Code, written: nat)
    modifies wire
    ensures rc == EncodeCode(hs, wire.Length)
    ensures rc == Ok ==> written == |Wire(hs)| && wire[..written] == Wire(hs)
    ensures rc != Ok ==> written == 0
    ensures forall j :: written <= j < wire.Length ==> wire[j] == old(wire[j])
  {
    hide Wire, Scan, Pair;
    if |hs| > COUNT_MAX { return ErrLimit, 0; }
    var code, need := Measure(hs);
    if code != Ok { return code, 0; }
    if need > wire.Length || need > WIRE_MAX { return ErrLimit, 0; }
    var used: nat, i := 0, 0;
    assert hs[..0] == [] && Wire([]) == [] by { EmptyWire(); }
    while i < |hs|
      invariant i <= |hs| && used == |Wire(hs[..i])| <= need
      invariant wire[..used] == Wire(hs[..i])
      invariant forall j :: used <= j < wire.Length ==> wire[j] == old(wire[j])
    {
      WireStep(hs, i);
      WirePrefix(hs, i + 1);
      used := PutPair(hs[i], i > 0, wire, used, need);
      i := i + 1;
    }
    assert hs[..i] == hs;
    return Ok, used;
  }

  method PutByte(c: Byte, wire: array<Byte>, at: nat) returns (next: nat)
    requires at < wire.Length
    modifies wire
    ensures next == at + 1 && wire[..next] == old(wire[..at]) + [c]
    ensures forall j :: next <= j < wire.Length ==> wire[j] == old(wire[j])
  {
    wire[at] := c;
    next := at + 1;
  }

  /** Base64 of x at `at`; the ignored code is OK because the text is known to fit. */
  method PutText(x: Bytes, wire: array<Byte>, at: nat) returns (next: nat)
    requires at + Base64.RawLength(|x|) <= wire.Length && Base64.RawLength(|x|) <= WIRE_MAX
    modifies wire
    ensures next == at + Base64.RawLength(|x|) && wire[..next] == old(wire[..at]) + Base64.Encode(x, false)
    ensures forall j :: next <= j < wire.Length ==> wire[j] == old(wire[j])
  {
    hide Base64.Encode, Base64.TextLength, Base64.RawLength;
    Small(|x|);
    var rc, n := Base64.EncodeTo(x, false, wire, at, wire.Length - at);
    assert rc == Ok;
    next := at + n;
    assert wire[..next] == wire[..at] + wire[at..next];
  }

  method PutPair(h: Header, separator: bool, wire: array<Byte>, used: nat, need: nat) returns (next: nat)
    requires used + PairNeed(h, !separator) <= need <= Min(wire.Length, WIRE_MAX)
    modifies wire
    ensures next == used + PairNeed(h, !separator)
    ensures wire[..next] == old(wire[..used]) + (if separator then [SEMICOLON] else []) + Pair(h)
    ensures forall j :: next <= j < wire.Length ==> wire[j] == old(wire[j])
  {
    hide Base64.Encode, Base64.TextLength, Base64.RawLength;
    next := used;
    if separator { next := PutByte(SEMICOLON, wire, next); }
    ghost var head := wire[..next];
    next := PutText(h.name, wire, next);
    next := PutByte(COLON, wire, next);
    next := PutText(h.value, wire, next);
    assert wire[..next] == head + Pair(h);
  }

  lemma Small(n: nat)
    ensures Base64.TextLength(n, false) == Base64.RawLength(n)
    ensures Base64.RawLength(n) <= WIRE_MAX ==> n / 3 <= (SIZE_MAX - 4) / 4
  {
  }
}
