/** Choosing an edge server: sort by priority, rotate over the attempts, then pick by weight inside the class. */
module SrvPick {
  import opened Core
  import opened DnsReply

  type Records = seq<Record>

  // ---- the exchange sort

  predicate SortedTo(s: Records, n: nat)
    requires n <= |s|
  {
    forall i, j :: 0 <= i < j < n ==> s[i].priority <= s[j].priority
  }

  predicate Sorted(s: Records) { SortedTo(s, |s|) }

  /** The first i are in order and none of them comes after a later one. */
  predicate Placed(s: Records, i: nat)
    requires i <= |s|
  {
    forall a, b :: 0 <= a < i && a < b < |s| ==> s[a].priority <= s[b].priority
  }

  function Swapped(s: Records, i: nat, j: nat): (t: Records)
    requires i < |s| && j < |s|
    ensures |t| == |s|
  {
    s[i := s[j]][j := s[i]]
  }

  lemma SwapKeeps(s: Records, i: nat, j: nat)
    requires i < j < |s|
    ensures multiset(Swapped(s, i, j)) == multiset(s)
  {
    assert s == s[..i] + [s[i]] + s[i + 1..j] + [s[j]] + s[j + 1..];
    assert Swapped(s, i, j) == s[..i] + [s[j]] + s[i + 1..j] + [s[i]] + s[j + 1..];
  }

  /** One comparison of the sort, on positions i < j. */
  lemma SwapPlaces(s: Records, i: nat, j: nat)
    requires i < j < |s| && Placed(s, i) && (forall b :: i < b < j ==> s[i].priority <= s[b].priority)
    ensures s[j].priority < s[i].priority ==>
              Placed(Swapped(s, i, j), i) && forall b :: i < b <= j ==>
                  Swapped(s, i, j)[i].priority <= Swapped(s, i, j)[b].priority
  {
  }

  method SortByPriority(a: array<Record>, n: nat)
    requires n <= a.Length
    modifies a
    ensures Sorted(a[..n]) && multiset(a[..n]) == multiset(old(a[..n]))
    ensures a[n..] == old(a[n..])
  {
    hide Swapped, Placed, SortedTo;
    PlacedNone(a[..n]);
    for i := 0 to n
      invariant Placed(a[..n], i) && multiset(a[..n]) == multiset(old(a[..n])) && a[n..] == old(a[n..])
    {
      PlaceOne(a, n, i);
    }
    PlacedAll(a[..n]);
  }

  lemma PlacedNone(s: Records)
    ensures Placed(s, 0)
  {
  }

  lemma PlacedAll(s: Records)
    requires Placed(s, |s|)
    ensures Sorted(s)
  {
  }

  /** The inner loop: position i ends up with the least of the rest. */
  method PlaceOne(a: array<Record>, n: nat, i: nat)
    requires i < n <= a.Length && Placed(a[..n], i)
    modifies a
    ensures Placed(a[..n], i + 1) && multiset(a[..n]) == multiset(old(a[..n])) && a[n..] == old(a[n..])
  {
    hide Swapped, Placed;
    var j := i + 1;
    while j < n
      invariant i < j <= n && Placed(a[..n], i) && Least(a[..n], i, j)
      invariant multiset(a[..n]) == multiset(old(a[..n])) && a[n..] == old(a[n..])
    {
      if a[j].priority < a[i].priority {
        Exchange(a, n, i, j);
      }
      j := j + 1;
    }
    PlacedMore(a[..n], i);
  }

  predicate Least(s: Records, i: nat, j: nat)
    requires i < j <= |s|
  {
    forall b :: i < b < j ==> s[i].priority <= s[b].priority
  }

  lemma PlacedMore(s: Records, i: nat)
    requires i < |s| && Placed(s, i) && Least(s, i, |s|)
    ensures Placed(s, i + 1)
  {
  }

  method Exchange(a: array<Record>, n: nat, i: nat, j: nat)
    requires i < j < n <= a.Length && a[j].priority < a[i].priority && Placed(a[..n], i) && Least(a[..n], i, j)
    modifies a
    ensures Placed(a[..n], i) && Least(a[..n], i, j + 1) && multiset(a[..n]) == multiset(old(a[..n]))
        && a[n..] == old(a[n..])
  {
    hide Placed;
    SwapKeeps(a[..n], i, j);
    SwapPlaces(a[..n], i, j);
    var tmp := a[i];
    a[i] := a[j];
    a[j] := tmp;
    assert a[..n] == Swapped(old(a[..n]), i, j);
  }

  // ---- the priority class

  /** The longest run of equal priorities around k. */
  predicate IsClass(s: Records, k: nat, first: nat, last: nat)
  {
    && first <= k <= last < |s|
    && (forall i :: first <= i <= last ==> s[i].priority == s[k].priority)
    && (first == 0 || s[first - 1].priority != s[k].priority)
    && (last + 1 == |s| || s[last + 1].priority != s[k].priority)
  }

  /** In sorted records the run is the whole class. */
  lemma ClassIsComplete(s: Records, k: nat, first: nat, last: nat, i: nat)
    requires Sorted(s) && IsClass(s, k, first, last) && i < |s|
    ensures s[i].priority == s[k].priority <==> first <= i <= last
  {
    if i < first {
      assert s[i].priority <= s[first - 1].priority <= s[k].priority;
    } else if i > last {
      assert s[k].priority <= s[last + 1].priority <= s[i].priority;
    }
  }

  method FindClass(s: Records, k: nat) returns (first: nat, last: nat)
    requires k < |s|
    ensures IsClass(s, k, first, last)
  {
    first, last := k, k;
    while first != 0 && s[first - 1].priority == s[k].priority
      invariant first <= k && forall i :: first <= i <= k ==> s[i].priority == s[k].priority
    {
      first := first - 1;
    }
    while last + 1 < |s| && s[last + 1].priority == s[k].priority
      invariant k <= last < |s| && forall i :: k <= i <= last ==> s[i].priority == s[k].priority
    {
      last := last + 1;
    }
  }

  // ---- the weighted choice

  function Sum(s: Records, lo: nat, hi: nat): nat
    requires lo <= hi <= |s|
  {
    if lo == hi then 0 else Sum(s, lo, hi - 1) + s[hi - 1].weight
  }

  lemma {:induction false} SumMonotone(s: Records, lo: nat, mid: nat, hi: nat)
    requires lo <= mid <= hi <= |s|
    ensures Sum(s, lo, mid) <= Sum(s, lo, hi)
  {
    if mid < hi { SumMonotone(s, lo, mid, hi - 1); }
  }

  lemma {:induction false} SumBound(s: Records, lo: nat, hi: nat)
    requires lo <= hi <= |s| && forall i :: 0 <= i < |s| ==> s[i].weight < U16
    ensures Sum(s, lo, hi) <= (hi - lo) * (U16 - 1)
  {
    if lo < hi { SumBound(s, lo, hi - 1); }
  }

  /** The value falls into record i's share of the class. */
  predicate Selects(s: Records, first: nat, last: nat, value: nat, i: nat)
    requires first <= last < |s|
  {
    first <= i <= last && Sum(s, first, i) <= value < Sum(s, first, i + 1)
  }

  /** A value selects one record at most. */
  lemma SelectsOnce(s: Records, first: nat, last: nat, value: nat, i: nat, j: nat)
    requires first <= last < |s| && Selects(s, first, last, value, i) && Selects(s, first, last, value, j)
    ensures i == j
  {
    hide Sum;
    if i < j { SumMonotone(s, first, i + 1, j); }
    if j < i { SumMonotone(s, first, j + 1, i); }
  }

  /** How many of the values below n select record i. */
  ghost function Share(s: Records, first: nat, last: nat, i: nat, n: nat): nat
    requires first <= last < |s|
  {
    if n == 0 then 0 else Share(s, first, last, i, n - 1) + if Selects(s, first, last, n - 1, i) then 1 else 0
  }

  lemma {:induction false} ShareBelow(s: Records, first: nat, last: nat, i: nat, n: nat)
    requires first <= i <= last < |s|
    ensures Share(s, first, last, i, n) == Max(0, Min(n, Sum(s, first, i + 1)) - Sum(s, first, i))
  {
    hide Sum;
    SumMonotone(s, first, i, i + 1);
    if n > 0 { ShareBelow(s, first, last, i, n - 1); }
  }

  /** Of the W residues, exactly weight[i] select record i; a record without weight is never selected. */
  lemma SharesAreWeights(s: Records, first: nat, last: nat, i: nat)
    requires first <= i <= last < |s|
    ensures Share(s, first, last, i, Sum(s, first, last + 1)) == s[i].weight
  {
    hide Share;
    ShareBelow(s, first, last, i, Sum(s, first, last + 1));
    SumMonotone(s, first, i + 1, last + 1);
  }

  /** 32-bit addition. */
  function Add32(a: int, b: int): int { (a + b) % U32 }

  method TotalWeight(s: Records, first: nat, last: nat) returns (weights: nat)
    requires first <= last < |s| <= RECORD_MAX && forall i :: 0 <= i < |s| ==> s[i].weight < U16
    ensures weights == Sum(s, first, last + 1) < U32
  {
    weights := 0;
    for i := first to last + 1
      invariant weights == Sum(s, first, i)
    {
      SumBound(s, first, i + 1);
      weights := Add32(weights, s[i].weight);
    }
    SumBound(s, first, last + 1);
  }

  method PickByWeight(s: Records, first: nat, last: nat, value: nat) returns (pick: nat)
    requires first <= last < |s| && value < Sum(s, first, last + 1)
    ensures Selects(s, first, last, value, pick)
  {
    pick := first;
    var left := value;
    while pick < last
      invariant first <= pick <= last && left == value - Sum(s, first, pick) >= 0
    {
      if left < s[pick].weight { break; }
      left := left - s[pick].weight;
      pick := pick + 1;
    }
  }

  // ---- the start of an attempt

  /** The record an attempt starts from; `t` counts the attempts before it, kept in 32 bits. */
  function StartAt(t: nat, n: nat): (k: nat)
    requires n > 0
    ensures k < n
  {
    t % U32 % n
  }

  /** The whole choice of one attempt on sorted records; `random` decides only inside the class. */
  method Choose(s: Records, attempts: nat, random: nat) returns (pick: nat, first: nat, last: nat)
    requires 0 < |s| <= RECORD_MAX && attempts < U32 && forall i :: 0 <= i < |s| ==> s[i].weight < U16
    ensures IsClass(s, StartAt((attempts - 1) % U32, |s|), first, last) && first <= pick <= last
    ensures var w := Sum(s, first, last + 1);
            if w == 0 then pick == StartAt((attempts - 1) % U32, |s|) else Selects(s, first, last, random % w, pick)
  {
    hide Sum;
    pick := StartAt((attempts - 1) % U32, |s|);
    first, last := FindClass(s, pick);
    var weights := TotalWeight(s, first, last);
    if weights != 0 { pick := PickByWeight(s, first, last, random % weights); }
  }

  // ---- the rotation

  predicate HasPriority(s: Records, i: nat, q: nat) { i < |s| && s[i].priority == q }

  /** The size of a priority class, counted over the first k records. */
  function ClassSize(s: Records, q: nat, k: nat): nat
  {
    if k == 0 then 0 else ClassSize(s, q, k - 1) + if HasPriority(s, k - 1, q) then 1 else 0
  }

  /** How many of k consecutive attempts, the first with t attempts before it, use the class. */
  function Uses(s: Records, q: nat, t: nat, k: nat): nat
    requires s != []
  {
    if k == 0 then 0 else Uses(s, q, t, k - 1) + if HasPriority(s, StartAt(t + k - 1, |s|), q) then 1 else 0
  }

  /** The same with an unbounded attempt counter. */
  function Turns(s: Records, q: nat, t: nat, k: nat): nat
    requires s != []
  {
    if k == 0 then 0 else Turns(s, q, t, k - 1) + if HasPriority(s, (t + k - 1) % |s|, q) then 1 else 0
  }

  /** The window does not run past the 32-bit counter, or its wrap goes unnoticed. */
  predicate Even(t: nat, n: nat)
    requires n > 0
  {
    t % U32 + n <= U32 || U32 % n == 0
  }

  lemma {:induction false} TurnsFront(s: Records, q: nat, t: nat, k: nat)
    requires s != [] && k > 0
    ensures Turns(s, q, t, k) == (if HasPriority(s, t % |s|, q) then 1 else 0) + Turns(s, q, t + 1, k - 1)
  {
    if k > 1 { TurnsFront(s, q, t, k - 1); }
  }

  lemma AddModulus(t: nat, n: nat)
    requires n > 0
    ensures (t + n) % n == t % n
  {
    var d, r := t / n, t % n;
    assert t + n == n * (d + 1) + r;
    ModUnique(t + n, n, d + 1, r);
  }

  lemma ModUnique(x: nat, n: nat, d: nat, r: nat)
    requires n > 0 && x == n * d + r && r < n
    ensures x % n == r && x / n == d
  {
    var e := x / n;
    if e < d { Product(n, e + 1, d); } else if d < e { Product(n, d + 1, e); }
  }

  lemma Product(n: nat, a: nat, b: nat)
    requires a <= b
    ensures n * a <= n * b
  {
  }

  /** A window as long as the list sees every record once, wherever it starts. */
  lemma {:induction false} TurnsAreClassSizes(s: Records, q: nat, t: nat)
    requires s != []
    ensures Turns(s, q, t, |s|) == ClassSize(s, q, |s|)
  {
    if t == 0 {
      TurnsFromZero(s, q, |s|);
    } else {
      TurnsAreClassSizes(s, q, t - 1);
      TurnsFront(s, q, t - 1, |s|);
      AddModulus(t - 1, |s|);
    }
  }

  lemma {:induction false} TurnsFromZero(s: Records, q: nat, k: nat)
    requires s != [] && k <= |s|
    ensures Turns(s, q, 0, k) == ClassSize(s, q, k)
  {
    if k > 0 {
      TurnsFromZero(s, q, k - 1);
      ModUnique(k - 1, |s|, 0, k - 1);
    }
  }

  lemma StartUnwrapped(t: nat, k: nat, n: nat)
    requires 0 < n && k < n && Even(t, n)
    ensures StartAt(t + k, n) == (t % U32 + k) % n
  {
    var d, r := t / U32, t % U32;
    assert t == U32 * d + r;
    if r + k < U32 {
      ModUnique(t + k, U32, d, r + k);
    } else {
      assert t + k == U32 * (d + 1) + (r + k - U32) by { assert U32 * (d + 1) == U32 * d + U32; }
      WrapUnnoticed(t + k, d, r + k, n);
    }
  }

  /** When the list's length divides 2^32, dropping 2^32 changes no remainder. */
  lemma WrapUnnoticed(x: nat, d: nat, y: nat, n: nat)
    requires 0 < n <= U32 && U32 % n == 0 && U32 <= y < 2 * U32 && x == U32 * (d + 1) + (y - U32)
    ensures x % U32 == y - U32 && (y - U32) % n == y % n
  {
    ModUnique(x, U32, d + 1, y - U32);
    var e, q, r := U32 / n, (y - U32) / n, (y - U32) % n;
    assert U32 == n * e;
    assert y == n * (q + e) + r by { assert n * (q + e) == n * q + n * e; }
    ModUnique(y, n, q + e, r);
  }

  lemma {:induction false} UsesAreTurns(s: Records, q: nat, t: nat, k: nat)
    requires s != [] && k <= |s| && Even(t, |s|)
    ensures Uses(s, q, t, k) == Turns(s, q, t % U32, k)
  {
    hide Even, HasPriority, StartAt;
    if k > 0 {
      UsesAreTurns(s, q, t, k - 1);
      StartUnwrapped(t, k - 1, |s|);
    }
  }

  /** Over as many consecutive attempts as there are records, every class is used exactly as often as it has members. */
  lemma RotationIsFair(s: Records, q: nat, t: nat)
    requires s != [] && Even(t, |s|)
    ensures Uses(s, q, t, |s|) == ClassSize(s, q, |s|)
  {
    UsesAreTurns(s, q, t, |s|);
    TurnsAreClassSizes(s, q, t % U32);
  }

  // ---- past the counter's wrap

  /** Records in order, each with a priority of its own. */
  function Ladder(n: nat): (s: Records)
    ensures |s| == n && forall i :: 0 <= i < n ==> s[i].priority == i
  {
    if n == 0 then [] else Ladder(n - 1) + [BLANK.(priority := n - 1)]
  }

  lemma {:induction false} LadderSize(v: nat, n: nat, k: nat)
    requires k <= n && v < n
    ensures ClassSize(Ladder(n), v, k) == if v < k then 1 else 0
  {
    if k > 0 { LadderSize(v, n, k - 1); }
  }

  lemma {:induction false} UsesCountsBoth(s: Records, q: nat, t: nat, a: nat, b: nat, k: nat)
    requires s != [] && HasPriority(s, StartAt(t + a, |s|), q) && HasPriority(s, StartAt(t + b, |s|), q) && a < b
    ensures Uses(s, q, t, k) >= (if a < k then 1 else 0) + (if b < k then 1 else 0)
  {
    hide StartAt, HasPriority;
    if k > 0 { UsesCountsBoth(s, q, t, a, b, k - 1); }
  }

  /** Where a window that crosses the wrap unevenly starts twice from the same record. */
  lemma WrapCollides(t: nat, n: nat) returns (a: nat, b: nat, v: nat)
    requires 0 < n <= U32 && !Even(t, n)
    ensures a < b < n && v < n && StartAt(t + a, n) == v && StartAt(t + b, n) == v
  {
    var d, r := t / U32, t % U32;
    assert t == U32 * d + r;
    var c, m: nat := U32 % n, r + n - U32;
    v := Min(c, m) - 1;
    a, b := U32 - (c - v) - r, U32 + v - r;
    ModUnique(t + a, U32, d, U32 - (c - v));
    assert t + b == U32 * (d + 1) + v by { assert U32 * (d + 1) == U32 * d + U32; }
    ModUnique(t + b, U32, d + 1, v);
    ModUnique(v, n, 0, v);
    assert U32 == n * (U32 / n) + c;
    ModUnique(U32 - (c - v), n, U32 / n, v);
  }

  /** Across an uneven wrap the rotation is unfair to some sorted answer of that size. */
  lemma RotationIsUnfair(t: nat, n: nat) returns (s: Records, q: nat)
    requires 0 < n <= RECORD_MAX && !Even(t, n)
    ensures |s| == n && Sorted(s) && Uses(s, q, t, n) != ClassSize(s, q, n)
  {
    hide StartAt, Even;
    var a, b, v := WrapCollides(t, n);
    s, q := Ladder(n), v;
    LadderSize(v, n, n);
    UsesCountsBoth(s, q, t, a, b, n);
  }

  /** Three records of different priority: around the wrap the first is used twice and the last not at all. */
  lemma AWrapRepeatsARecord()
    ensures Sorted(Ladder(3)) && !Even(U32 - 1, 3)
    ensures Uses(Ladder(3), 0, U32 - 1, 3) == 2 && ClassSize(Ladder(3), 0, 3) == 1
    ensures Uses(Ladder(3), 2, U32 - 1, 3) == 0 && ClassSize(Ladder(3), 2, 3) == 1
  {
    hide StartAt;
    LadderStarts();
    LadderUses(0);
    LadderUses(2);
    LadderSize(0, 3, 3);
    LadderSize(2, 3, 3);
  }

  lemma LadderStarts()
    ensures StartAt(U32 - 1, 3) == 0 && StartAt(U32, 3) == 0 && StartAt(U32 + 1, 3) == 1
  {
  }

  lemma LadderUses(q: nat)
    ensures Uses(Ladder(3), q, U32 - 1, 3) == (if q == 0 then 2 else 0) + (if q == 1 then 1 else 0)
  {
    hide StartAt;
    LadderStarts();
    assert Uses(Ladder(3), q, U32 - 1, 1) == if q == 0 then 1 else 0;
    assert Uses(Ladder(3), q, U32 - 1, 2) == if q == 0 then 2 else 0;
  }
}
