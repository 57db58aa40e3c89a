/** The arena of guarded cells: validated geometry, tiling and poison
    (probe/rig_probe_main.cpp). */
module Geometry {
  import opened Arithmetic
  import opened Options

  const SIZE_MAX: nat := 0xFFFF_FFFF_FFFF_FFFF
  const SSIZE_MAX: nat := 0x7FFF_FFFF_FFFF_FFFF
  const MAX_REG: nat := 4 * 1024 * 1024 * 1024 - 64 * 1024

  // --- checked size_t arithmetic -----------------------------------------------------------

  method CheckedAdd(a: nat, b: nat) returns (r: Option<nat>)
    requires a <= SIZE_MAX && b <= SIZE_MAX
    ensures r == if a + b <= SIZE_MAX then Some(a + b) else None
  {
    if a > SIZE_MAX - b { return None; }
    return Some(a + b);
  }

  method CheckedMul(a: nat, b: nat) returns (r: Option<nat>)
    requires a <= SIZE_MAX && b <= SIZE_MAX
    ensures r == if a * b <= SIZE_MAX then Some(a * b) else None
  {
    if a != 0 && b > SIZE_MAX / a {
      assert a * (SIZE_MAX / a + 1) > SIZE_MAX;
      TimesMonotone(a, SIZE_MAX / a + 1, b);
      return None;
    }
    if a != 0 { TimesMonotone(a, b, SIZE_MAX / a); }
    return Some(a * b);
  }

  // --- geometry ----------------------------------------------------------------------------

  datatype Shape = Shape(
    slotBytes: nat, guard: nat, range: Option<(nat, nat)>, expected: Option<nat>, ownObjects: bool)

  /** Every number fits size_t. */
  predicate Sized(o: Shape) {
    && o.slotBytes <= SIZE_MAX && o.guard <= SIZE_MAX
    && (o.range.Some? ==> o.range.value.0 <= SIZE_MAX && o.range.value.1 <= SIZE_MAX)
    && (o.expected.Some? ==> o.expected.value <= SIZE_MAX)
  }

  datatype Geometry = Geometry(cell: nat, arena: nat, expected: nat)

  function First(o: Shape): nat { if o.range.Some? then o.range.value.0 else 0 }

  function Last(o: Shape): int { if o.range.Some? then o.range.value.1 else o.slotBytes - 1 }

  /** What an acceptable geometry is, in unbounded arithmetic. */
  predicate Acceptable(o: Shape, slots: nat) {
    && 0 < o.slotBytes <= SSIZE_MAX && 0 < o.guard && 1 <= slots <= 256
    && slots * (o.slotBytes + 2 * o.guard) <= MAX_REG
    && First(o) <= Last(o) && Last(o) - First(o) + 1 <= o.slotBytes
    && (o.expected.Some? ==> o.expected.value <= Last(o) - First(o) + 1)
  }

  /** validate_geometry: the checked arithmetic accepts exactly the geometries that
      are acceptable in unbounded arithmetic, with the exact sizes. */
  method Validate(o: Shape, slots: nat, concurrent: bool) returns (r: Option<Geometry>)
    requires Sized(o) && slots <= SIZE_MAX
    ensures r.Some? <==> Acceptable(o, slots)
    ensures r.Some? ==>
              && r.value.cell == o.slotBytes + 2 * o.guard && r.value.arena == slots * r.value.cell
              && r.value.expected == if o.expected.Some? then o.expected.value else Last(o) - First(o) + 1
  {
    if o.slotBytes == 0 || o.slotBytes > SSIZE_MAX { return None; }
    if o.guard == 0 { return None; }
    if slots == 0 || slots > 256 { return None; }
    TimesMonotone(o.slotBytes + 2 * o.guard, 1, slots);
    var twoGuard := CheckedMul(o.guard, 2);
    if twoGuard.None? { return None; }
    var cell := CheckedAdd(o.slotBytes, twoGuard.value);
    if cell.None? { return None; }
    var arena := CheckedMul(cell.value, slots);
    if arena.None? || arena.value > MAX_REG { return None; }
    var start := if o.range.Some? then o.range.value.0 else 0;
    var end := if o.range.Some? then o.range.value.1 else o.slotBytes - 1;
    if end < start { return None; }
    var len := CheckedAdd(end - start, 1);
    if len.None? || len.value > o.slotBytes { return None; }
    var expected := if o.expected.Some? then o.expected.value else len.value;
    if expected > len.value { return None; }
    if concurrent && !o.ownObjects {
      var last := CheckedMul(o.slotBytes, slots);
      TimesMonotone(slots, o.slotBytes, cell.value);
      if last.None? { return None; }
    }
    return Some(Geometry(cell.value, arena.value, expected));
  }

  // --- cells -----------------------------------------------------------------------------------

  /** [guard | payload | guard] */
  datatype Cell = Cell(base: nat, payload: nat, guard: nat, size: nat)

  function MakeCell(index: nat, guard: nat, payload: nat): Cell {
    var size := guard + payload + guard;
    Cell(index * size, index * size + guard, guard, size)
  }

  /** Whether an arena offset belongs to cell `k`. */
  predicate InCell(at: nat, k: nat, guard: nat, payload: nat) {
    var c := MakeCell(k, guard, payload);
    c.base <= at < c.base + c.size
  }

  /** Whether an arena offset belongs to the payload of cell `k`. */
  predicate InPayload(at: nat, k: nat, guard: nat, payload: nat) {
    var c := MakeCell(k, guard, payload);
    c.payload <= at < c.payload + payload
  }

  /** The cells tile the arena: each lies inside it, no two share an offset, every
      offset is in one, and each payload keeps a guard's distance from its cell's edges. */
  lemma CellsTile(slots: nat, guard: nat, payload: nat)
    requires guard > 0
    ensures forall k :: 0 <= k < slots ==>
              MakeCell(k, guard, payload).base + MakeCell(k, guard, payload).size <= slots * (payload + 2 * guard)
    ensures forall at :: 0 <= at < slots * (payload + 2 * guard) ==> Tiled(at, slots, guard, payload)
    ensures forall at: nat, k: nat :: InPayload(at, k, guard, payload) ==> InCell(at, k, guard, payload)
  {
    var size := payload + 2 * guard;
    forall k | 0 <= k < slots
      ensures MakeCell(k, guard, payload).base + MakeCell(k, guard, payload).size <= slots * size
    {
      CellFits(k, slots, guard, payload);
    }
    forall at | 0 <= at < slots * size ensures Tiled(at, slots, guard, payload) {
      var k := CellOf(at, slots, guard, payload);
      forall j: nat | InCell(at, j, guard, payload) ensures j == k { CellIsUnique(at, j, k, guard, payload); }
    }
  }

  /** An offset that is in exactly one of the cells. */
  ghost predicate Tiled(at: nat, slots: nat, guard: nat, payload: nat) {
    exists k :: 0 <= k < slots && InCell(at, k, guard, payload) && forall j: nat :: InCell(at, j, guard, payload) ==> j == k
  }

  lemma CellFits(k: nat, slots: nat, guard: nat, payload: nat)
    requires k < slots
    ensures MakeCell(k, guard, payload).base + MakeCell(k, guard, payload).size <= slots * (payload + 2 * guard)
  {
    var size := payload + 2 * guard;
    TimesMonotone(size, k + 1, slots);
    assert size * (k + 1) == k * size + size;
  }

  lemma CellOf(at: nat, slots: nat, guard: nat, payload: nat) returns (k: nat)
    requires guard > 0 && at < slots * (payload + 2 * guard)
    ensures k < slots && InCell(at, k, guard, payload)
  {
    var size := payload + 2 * guard;
    k := 0;
    while k + 1 < slots && (k + 1) * size <= at
      invariant k * size <= at && k < slots
    {
      k := k + 1;
    }
    assert (k + 1) * size == k * size + size;
  }

  lemma CellIsUnique(at: nat, j: nat, k: nat, guard: nat, payload: nat)
    requires InCell(at, j, guard, payload) && InCell(at, k, guard, payload)
    ensures j == k
  {
    var size := payload + 2 * guard;
    NotBefore(at, j, k, size);
    NotBefore(at, k, j, size);
  }

  lemma NotBefore(at: nat, j: nat, k: nat, size: nat)
    requires j * size <= at < j * size + size && k * size <= at < k * size + size
    ensures j >= k
  {
    assert (j + 1) * size == j * size + size;
    if j + 1 <= k { TimesMonotone(size, j + 1, k); }
  }

  // --- poison ----------------------------------------------------------------------------------

  type Byte = bv8

  /** The generator's 32-bit state after `n` steps. */
  function State(nonce: bv32, n: nat): bv32 {
    if n == 0 then Seed(nonce) else Advance(State(nonce, n - 1))
  }

  function Seed(nonce: bv32): bv32 { 0x9E37_79B9 ^ nonce }

  function Advance(x: bv32): bv32 { x * 1664525 + 1013904223 }

  function TopByte(x: bv32): Byte { ((x >> 24) as Byte) ^ 0xA5 }

  function PoisonByte(nonce: bv32, i: nat): Byte { TopByte(State(nonce, i + 1)) }

  function Poison(len: nat, nonce: bv32): seq<Byte> { seq(len, i requires 0 <= i < len => PoisonByte(nonce, i)) }

  method PoisonPattern(len: nat, nonce: bv32) returns (p: array<Byte>)
    ensures fresh(p) && p[..] == Poison(len, nonce)
  {
    p := new Byte[len];
    var x := Seed(nonce);
    for i := 0 to len
      invariant x == State(nonce, i) && forall j :: 0 <= j < i ==> p[j] == PoisonByte(nonce, j)
    {
      x := Advance(x);
      p[i] := TopByte(x);
    }
  }
}
