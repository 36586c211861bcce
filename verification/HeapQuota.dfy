/** The quota allocator under the HTTP/2 engine: every live block is charged, metadata included. */
module HeapQuota {
  import opened Core

  /** A live block: the charge recorded in its header, and what its owner stored in it. */
  datatype Block = Block(charge: nat, data: Bytes)

  /** Handles index the cells; a freed cell is None and its handle is not issued again. */
  datatype Heap = Heap(meta: nat, limit: nat, current: nat, peak: nat, cells: seq<Option<Block>>)

  /** What `malloc` does: nothing to give, or uninitialised bytes. */
  datatype Malloc = Fails | Gives(junk: nat -> Byte)

  type Pointer = Option<nat>

  predicate Live(h: Heap, p: nat) { p < |h.cells| && h.cells[p].Some? }

  /** The bytes that live blocks hold, headers included. */
  function Charged(cells: seq<Option<Block>>): nat
  {
    if cells == [] then 0 else Charged(cells[..|cells| - 1]) + Charge(cells[|cells| - 1])
  }

  function Charge(cell: Option<Block>): nat { if cell.Some? then cell.value.charge else 0 }

  /** The books balance: the counter is what live blocks hold, and the quota was never exceeded. */
  ghost predicate Sound(h: Heap)
  {
    && 0 < h.meta <= h.limit <= SIZE_MAX
    && h.current == Charged(h.cells) && h.current <= h.peak <= h.limit
    && forall p :: 0 <= p < |h.cells| && h.cells[p].Some? ==>
        h.cells[p].value.charge == |h.cells[p].value.data| + h.meta
  }

  function Filled(n: nat, junk: nat -> Byte): (s: Bytes)
    ensures |s| == n && forall i :: 0 <= i < n ==> s[i] == junk(i)
  {
    if n == 0 then [] else Filled(n - 1, junk) + [junk(n - 1)]
  }

  // ---- operations

  datatype Got = Got(h: Heap, p: Pointer)

  function Allocate(h: Heap, size: nat, m: Malloc): Got
  {
    if size > h.limit - h.meta || size + h.meta > h.limit - h.current || m.Fails? then Got(h, None)
    else Got(Grown(h, size, m.junk), Some(|h.cells|))
  }

  function Grown(h: Heap, size: nat, junk: nat -> Byte): Heap
  {
    var current := h.current + size + h.meta;
    h.(current := current, peak := Max(h.peak, current),
        cells := h.cells + [Some(Block(size + h.meta, Filled(size, junk)))])
  }

  function Deallocate(h: Heap, p: Pointer): Heap
    requires p.Some? ==> Live(h, p.value) && h.cells[p.value].value.charge <= h.current
  {
    if p.None? then h
    else h.(current := h.current - h.cells[p.value].value.charge, cells := h.cells[p.value := None])
  }

  /** The new block takes over the common prefix. */
  function Copied(h: Heap, p: nat, q: nat): Heap
    requires Live(h, p) && Live(h, q)
  {
    var from, into := h.cells[p].value.data, h.cells[q].value;
    var n := Min(|from|, |into.data|);
    h.(cells := h.cells[q := Some(into.(data := from[..n] + into.data[n..]))])
  }

  /** The moment a resize holds both blocks. */
  function Both(h: Heap, p: nat, size: nat, junk: nat -> Byte): Heap
    requires Live(h, p)
  {
    Copied(Grown(h, size, junk), p, |h.cells|)
  }

  function Resize(h: Heap, p: Pointer, size: nat, m: Malloc): Got
    requires Sound(h) && (p.Some? ==> Live(h, p.value))
  {
    if p.None? then Allocate(h, size, m)
    else
      ChargeFits(h, p.value);
      if size == 0 then Got(Deallocate(h, p), None)
      else if Allocate(h, size, m).p.None? then Got(h, None)
      else
        GrownSound(h, size, m.junk);
        CopiedSound(Grown(h, size, m.junk), p.value, |h.cells|);
        ChargeFits(Both(h, p.value, size, m.junk), p.value);
        Got(Deallocate(Both(h, p.value, size, m.junk), p), Some(|h.cells|))
  }

  function Zeros(i: nat): Byte { 0 }

  /** A zeroing allocation of n * size bytes, refused when the product does not fit `size_t`. */
  function ZeroAllocate(h: Heap, n: nat, size: nat, m: Malloc): Got
  {
    if n != 0 && size > SIZE_MAX / n then Got(h, None)
    else Allocate(h, n * size, if m.Fails? then m else Gives(Zeros))
  }

  // ---- accounting lemmas

  lemma {:induction false} ChargedUpdate(cells: seq<Option<Block>>, p: nat, cell: Option<Block>)
    requires p < |cells|
    ensures Charged(cells[p := cell]) == Charged(cells) - Charge(cells[p]) + Charge(cell)
    ensures Charge(cells[p]) <= Charged(cells)
  {
    var n := |cells| - 1;
    if p == n {
      assert cells[p := cell][..n] == cells[..n];
    } else {
      ChargedUpdate(cells[..n], p, cell);
      assert cells[p := cell][..n] == cells[..n][p := cell];
    }
  }

  lemma ChargedMore(cells: seq<Option<Block>>, cell: Option<Block>)
    ensures Charged(cells + [cell]) == Charged(cells) + Charge(cell)
  {
    assert (cells + [cell])[..|cells|] == cells;
  }

  lemma ChargeFits(h: Heap, p: nat)
    requires Sound(h) && Live(h, p)
    ensures h.cells[p].value.charge <= h.current
  {
    hide Charged;
    ChargedUpdate(h.cells, p, None);
  }

  lemma GrownSound(h: Heap, size: nat, junk: nat -> Byte)
    requires Sound(h) && size + h.meta <= h.limit - h.current
    ensures Sound(Grown(h, size, junk))
  {
    hide Charged;
    ChargedMore(h.cells, Some(Block(size + h.meta, Filled(size, junk))));
  }

  lemma CopiedSound(h: Heap, p: nat, q: nat)
    requires Sound(h) && Live(h, p) && Live(h, q)
    ensures Sound(Copied(h, p, q)) && |Copied(h, p, q).cells| == |h.cells|
    ensures forall r :: 0 <= r < |h.cells| && r != q ==> Copied(h, p, q).cells[r] == h.cells[r]
  {
    hide Charged;
    ChargedUpdate(h.cells, q, Copied(h, p, q).cells[q]);
  }

  lemma DeallocateSound(h: Heap, p: nat)
    requires Sound(h) && Live(h, p) && h.cells[p].value.charge <= h.current
    ensures Sound(Deallocate(h, Some(p)))
  {
    hide Charged;
    ChargedUpdate(h.cells, p, None);
  }

  /** What an allocation gives: a new block of the size asked for, or nothing and no change. */
  lemma AllocateSound(h: Heap, size: nat, m: Malloc)
    requires Sound(h)
    ensures Sound(Allocate(h, size, m).h)
    ensures Allocate(h, size, m).p.None? ==> Allocate(h, size, m).h == h
    ensures m.Gives? ==> (Allocate(h, size, m).p.Some? <==> Charged(h.cells) + size + h.meta <= h.limit)
  {
    hide Grown, Charged;
    if Allocate(h, size, m).p.Some? { GrownSound(h, size, m.junk); }
  }

  /** The data of a live block. */
  function DataOf(h: Heap, p: nat): Bytes
    requires Live(h, p)
  {
    h.cells[p].value.data
  }

  /** A resize that returns nothing for a non-zero size has left the old block, and everything else, as it was. */
  lemma ResizeFailureIsClean(h: Heap, p: nat, size: nat, m: Malloc)
    requires Sound(h) && Live(h, p) && size > 0 && Resize(h, Some(p), size, m).p.None?
    ensures Resize(h, Some(p), size, m).h == h
  {
  }

  /** A resize that succeeds keeps the common prefix, frees the old block and touches no other. */
  lemma ResizeKeepsPrefix(h: Heap, p: nat, size: nat, m: Malloc)
    requires Sound(h) && Live(h, p) && Resize(h, Some(p), size, m).p.Some?
    ensures var g, q := Resize(h, Some(p), size, m).h, Resize(h, Some(p), size, m).p.value;
            && Live(g, q) && !Live(h, q) && !Live(g, p)
            && |DataOf(g, q)| == size
            && DataOf(g, q)[..Min(size, |DataOf(h, p)|)] == DataOf(h, p)[..Min(size, |DataOf(h, p)|)]
            && forall r :: r != p && Live(h, r) ==> Live(g, r) && DataOf(g, r) == DataOf(h, r)
  {
    hide Charged;
    var both := Both(h, p, size, m.junk);
    var n := Min(size, |DataOf(h, p)|);
    assert both.cells[|h.cells|].value.data == DataOf(h, p)[..n] + Filled(size, m.junk)[n..];
  }

  /** While a resize holds both blocks, both are charged and the quota still holds; the peak records that moment. */
  lemma ResizeChargesBoth(h: Heap, p: nat, size: nat, m: Malloc)
    requires Sound(h) && Live(h, p) && Resize(h, Some(p), size, m).p.Some?
    ensures var both := Both(h, p, size, m.junk);
            && Sound(both) && Live(both, p) && Live(both, |h.cells|)
            && both.current == Charged(h.cells) + size + h.meta
            && Resize(h, Some(p), size, m).h.peak == Max(h.peak, both.current)
  {
    hide Charged;
    GrownSound(h, size, m.junk);
    CopiedSound(Grown(h, size, m.junk), p, |h.cells|);
  }

  /** In exact arithmetic the overflow guard changes nothing: a product past `size_t` is past the quota too. */
  lemma ZeroAllocateIsExact(h: Heap, n: nat, size: nat, m: Malloc)
    requires Sound(h)
    ensures ZeroAllocate(h, n, size, m) == Allocate(h, n * size, if m.Fails? then m else Gives(Zeros))
    ensures n != 0 && size <= SIZE_MAX / n ==> n * size <= SIZE_MAX
  {
    if n != 0 { QuotientBound(n, size); }
  }

  /** A zeroing allocation that succeeds holds n * size zeros. */
  lemma ZeroAllocateIsZero(h: Heap, n: nat, size: nat, m: Malloc)
    requires ZeroAllocate(h, n, size, m).p.Some?
    ensures var g := ZeroAllocate(h, n, size, m);
            Live(g.h, g.p.value) && |DataOf(g.h, g.p.value)| == n * size && forall i :: 0 <= i < n * size ==>
                DataOf(g.h, g.p.value)[i] == 0
  {
  }

  lemma QuotientBound(n: nat, size: nat)
    requires n != 0
    ensures size <= SIZE_MAX / n <==> n * size <= SIZE_MAX
  {
    var q, r := SIZE_MAX / n, SIZE_MAX % n;
    assert SIZE_MAX == n * q + r;
    if size <= q {
      MulMonotone(n, size, q);
    } else {
      MulMonotone(n, q + 1, size);
      assert n * (q + 1) == n * q + n;
    }
  }

  lemma MulMonotone(n: nat, a: int, b: int)
    requires a <= b
    ensures n * a <= n * b
  {
  }

  // ---- runs

  datatype Op =
    | OpAllocate(size: nat, m: Malloc)
    | OpDeallocate(p: Pointer)
    | OpResize(p: Pointer, size: nat, m: Malloc)
    | OpZeroAllocate(n: nat, size: nat, m: Malloc)
    | OpStore(at: nat, data: Bytes)

  /** Callers pass pointers they own, and write inside their blocks. */
  predicate Owned(h: Heap, op: Op)
  {
    match op
    case OpDeallocate(p) => p.Some? ==> Live(h, p.value)
    case OpResize(p, _, _) => p.Some? ==> Live(h, p.value)
    case OpStore(at, data) => Live(h, at) && |data| == |h.cells[at].value.data|
    case _ => true
  }

  function Apply(h: Heap, op: Op): Heap
    requires Sound(h) && Owned(h, op)
  {
    match op
    case OpAllocate(size, m) => Allocate(h, size, m).h
    case OpDeallocate(p) => (if p.Some? then ChargeFits(h, p.value); Deallocate(h, p) else h)
    case OpResize(p, size, m) => Resize(h, p, size, m).h
    case OpZeroAllocate(n, size, m) => ZeroAllocate(h, n, size, m).h
    case OpStore(at, data) => h.(cells := h.cells[at := Some(h.cells[at].value.(data := data))])
  }

  /** The most charged at any moment of an operation; a resize has one moment more than its result. */
  function Highest(h: Heap, op: Op): nat
    requires Sound(h) && Owned(h, op)
  {
    var end := Charged(Apply(h, op).cells);
    if op.OpResize? && op.p.Some? && Resize(h, op.p, op.size, op.m).p.Some?
    then Max(Charged(Both(h, op.p.value, op.size, op.m.junk).cells), end)
    else end
  }

  lemma ApplySound(h: Heap, op: Op)
    requires Sound(h) && Owned(h, op)
    ensures Sound(Apply(h, op))
    ensures Apply(h, op).limit == h.limit && Apply(h, op).meta == h.meta
    ensures Apply(h, op).peak == Max(h.peak, Highest(h, op))
  {
    hide Charged, Both, Grown, Copied;
    match op
    case OpAllocate(size, m) => AllocateStep(h, size, m);
    case OpDeallocate(p) => if p.Some? { ChargeFits(h, p.value); FreeStep(h, p.value); }
    case OpResize(p, size, m) => ResizeStep(h, p, size, m);
    case OpZeroAllocate(n, size, m) =>
      ZeroAllocateIsExact(h, n, size, m);
      AllocateStep(h, n * size, if m.Fails? then m else Gives(Zeros));
    case OpStore(at, data) =>
      ChargedUpdate(h.cells, at, Some(h.cells[at].value.(data := data)));
  }

  lemma AllocateStep(h: Heap, size: nat, m: Malloc)
    requires Sound(h)
    ensures var g := Allocate(h, size, m).h;
            Sound(g) && g.limit == h.limit && g.meta == h.meta && g.peak == Max(h.peak, Charged(g.cells))
  {
    hide Charged;
    AllocateSound(h, size, m);
  }

  lemma FreeStep(h: Heap, p: nat)
    requires Sound(h) && Live(h, p) && h.cells[p].value.charge <= h.current
    ensures var g := Deallocate(h, Some(p));
            Sound(g) && g.limit == h.limit && g.meta == h.meta && g.peak == Max(h.peak, Charged(g.cells))
  {
    hide Charged;
    DeallocateSound(h, p);
  }

  lemma ResizeStep(h: Heap, p: Pointer, size: nat, m: Malloc)
    requires Sound(h) && (p.Some? ==> Live(h, p.value))
    ensures var g := Resize(h, p, size, m).h; Sound(g) && g.limit == h.limit && g.meta == h.meta
    ensures Resize(h, p, size, m).h.peak == Max(h.peak, Highest(h, OpResize(p, size, m)))
  {
    hide Charged;
    if p.None? {
      AllocateStep(h, size, m);
    } else {
      ChargeFits(h, p.value);
      if size == 0 {
        FreeStep(h, p.value);
      } else if Resize(h, p, size, m).p.Some? {
        ResizeChargesBoth(h, p.value, size, m);
        var both := Both(h, p.value, size, m.junk);
        ChargeFits(both, p.value);
        FreeStep(both, p.value);
      }
    }
  }

  /** A run: every state follows from the one before by an operation its caller was entitled to. */
  ghost predicate Run(states: seq<Heap>, ops: seq<Op>)
  {
    && |states| == |ops| + 1
    && states[0].meta > 0 && states[0] == Heap(states[0].meta, states[0].limit, 0, 0, [])
    && states[0].meta <= states[0].limit <= SIZE_MAX
    && forall i :: 0 <= i < |ops| ==> Follows(states[i], ops[i], states[i + 1])
  }

  ghost predicate Follows(h: Heap, op: Op, g: Heap) { Sound(h) ==> Owned(h, op) && g == Apply(h, op) }

  /** The most that was ever charged at once. */
  ghost function HighWater(states: seq<Heap>, ops: seq<Op>): nat
    requires |states| == |ops| + 1 && forall i :: 0 <= i < |ops| ==> Sound(states[i]) && Owned(states[i], ops[i])
  {
    if ops == [] then 0
    else
      var n := |ops| - 1;
      Max(HighWater(states[..n + 1], ops[..n]), Highest(states[n], ops[n]))
  }

  /** In every run the books balance in every state, and the recorded peak is exactly the high-water mark. */
  lemma {:induction false} EveryRunBalances(states: seq<Heap>, ops: seq<Op>)
    requires Run(states, ops)
    ensures forall i :: 0 <= i < |states| ==> Sound(states[i])
    ensures forall i :: 0 <= i < |ops| ==> Owned(states[i], ops[i])
    ensures states[|ops|].limit == states[0].limit
    ensures states[|ops|].peak == HighWater(states, ops) <= states[0].limit
  {
    hide Sound, Apply, Highest, Owned;
    if ops == [] {
      EmptySound(states[0]);
    } else {
      var n := |ops| - 1;
      EveryRunBalances(states[..n + 1], ops[..n]);
      assert Follows(states[n], ops[n], states[n + 1]);
      forall i | 0 <= i <= n ensures Sound(states[i]) { assert states[..n + 1][i] == states[i]; }
      forall i | 0 <= i < n ensures Owned(states[i], ops[i]) {
        assert states[..n + 1][i] == states[i] && ops[..n][i] == ops[i];
      }
      ApplySound(states[n], ops[n]);
      PeakWithinLimit(states[n + 1]);
    }
  }

  lemma EmptySound(h: Heap)
    requires 0 < h.meta <= h.limit <= SIZE_MAX && h.current == 0 && h.peak == 0 && h.cells == []
    ensures Sound(h)
  {
  }

  lemma PeakWithinLimit(h: Heap)
    requires Sound(h)
    ensures h.peak <= h.limit
  {
  }

  /** The counter is zero exactly when nothing is live. */
  lemma NothingLiveIsNothingCharged(h: Heap)
    requires Sound(h)
    ensures h.current == 0 <==> forall p :: !Live(h, p)
  {
    hide Charged;
    forall p | Live(h, p) ensures h.current > 0 { ChargeFits(h, p); }
    if forall p :: !Live(h, p) {
      forall p | 0 <= p < |h.cells| ensures h.cells[p].None? { assert !Live(h, p); }
      NothingCharged(h.cells);
    }
  }

  lemma {:induction false} NothingCharged(cells: seq<Option<Block>>)
    requires forall p :: 0 <= p < |cells| ==> cells[p].None?
    ensures Charged(cells) == 0
  {
    if cells != [] { NothingCharged(cells[..|cells| - 1]); }
  }

  // ---- the allocator callbacks

  class QuotaHeap {
    const Meta: nat
    const Limit: nat
    var current: nat
    var peak: nat
    var cells: seq<Option<Block>>

    ghost function Value(): Heap
      reads this
    {
      Heap(Meta, Limit, current, peak, cells)
    }

    constructor (meta: nat, limit: nat)
      requires 0 < meta <= limit <= SIZE_MAX
      ensures Value() == Heap(meta, limit, 0, 0, []) && Sound(Value())
    {
      Meta, Limit, current, peak, cells := meta, limit, 0, 0, [];
    }

    method Get(size: nat, m: Malloc) returns (p: Pointer)
      requires Sound(Value())
      modifies this
      ensures Got(Value(), p) == Allocate(old(Value()), size, m) && Sound(Value())
    {
      hide Charged;
      AllocateSound(Value(), size, m);
      if size > Limit - Meta { return None; }
      var total := size + Meta;
      if total > Limit - current { return None; }
      if m.Fails? { return None; }
      p := Some(|cells|);
      cells := cells + [Some(Block(total, Filled(size, m.junk)))];
      current := current + total;
      if peak < current { peak := current; }
    }

    method Free(p: Pointer)
      requires Sound(Value()) && (p.Some? ==> Live(Value(), p.value))
      modifies this
      ensures Sound(Value())
      ensures p.None? ==> Value() == old(Value())
      ensures p.Some? ==> old(cells[p.value].value.charge <= current) && Value() == Deallocate(old(Value()), p)
    {
      hide Charged;
      if p.None? { return; }
      ChargeFits(Value(), p.value);
      DeallocateSound(Value(), p.value);
      var bytes := cells[p.value].value.charge;
      current := current - bytes;
      cells := cells[p.value := None];
    }

    method Regrow(p: Pointer, size: nat, m: Malloc) returns (next: Pointer)
      requires Sound(Value()) && (p.Some? ==> Live(Value(), p.value))
      modifies this
      ensures Got(Value(), next) == Resize(old(Value()), p, size, m) && Sound(Value())
    {
      hide Charged;
      if p.None? {
        next := Get(size, m);
        return;
      }
      if size == 0 {
        Free(p);
        return None;
      }
      var was := cells[p.value].value.charge - Meta;
      next := Get(size, m);
      if next.None? { return; }
      CopiedSound(Value(), p.value, next.value);
      var n := if was < size then was else size;
      var block := cells[next.value].value;
      cells := cells[next.value := Some(block.(data := cells[p.value].value.data[..n] + block.data[n..]))];
      Free(p);
    }

    method GetZeroed(n: nat, size: nat, m: Malloc) returns (p: Pointer)
      requires Sound(Value())
      modifies this
      ensures Got(Value(), p) == ZeroAllocate(old(Value()), n, size, m) && Sound(Value())
    {
      hide Charged;
      if n != 0 && size > SIZE_MAX / n { return None; }
      p := Get(n * size, m);
      if p.Some? {
        ghost var zeros := Some(cells[p.value].value.(data := Filled(n * size, Zeros)));
        ChargedUpdate(cells, p.value, zeros);
        cells := cells[p.value := Some(cells[p.value].value.(data := Filled(n * size, Zeros)))];
      }
    }
  }
}
