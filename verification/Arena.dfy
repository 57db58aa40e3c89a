/** Writing poison into the arena and looking for damage (probe/rig_probe_main.cpp). */
module Arena {
  import opened Geometry

  /** Everything of cell `c` outside the first `landed` payload bytes is still poison. */
  predicate Intact(mem: seq<Byte>, c: Cell, landed: nat, nonce: bv32)
    requires c.base + c.size <= |mem|
  {
    forall i :: 0 <= i < c.size && !(c.guard <= i < c.guard + landed) ==> mem[c.base + i] == PoisonByte(nonce, i)
  }

  /** The arena with `bytes` written at `off`. */
  function Spliced(mem: seq<Byte>, off: nat, bytes: seq<Byte>): (r: seq<Byte>)
    requires off + |bytes| <= |mem|
    ensures |r| == |mem|
  {
    mem[..off] + bytes + mem[off + |bytes|..]
  }

  method WriteSpan(a: array<Byte>, off: nat, bytes: array<Byte>)
    requires off + bytes.Length <= a.Length && a != bytes
    modifies a
    ensures a[..] == Spliced(old(a[..]), off, bytes[..])
  {
    for i := 0 to bytes.Length
      invariant forall j :: 0 <= j < a.Length ==> a[j] == if off <= j < off + i then bytes[j - off] else old(a[j])
    {
      a[off + i] := bytes[i];
    }
  }

  method PoisonCell(a: array<Byte>, c: Cell, nonce: bv32)
    requires c.base + c.size <= a.Length
    modifies a
    ensures a[..] == Spliced(old(a[..]), c.base, Poison(c.size, nonce))
  {
    var p := PoisonPattern(c.size, nonce);
    WriteSpan(a, c.base, p);
  }

  /** poison_intact_outside, over the cell's own span only. */
  method IntactOutside(a: array<Byte>, c: Cell, landed: nat, nonce: bv32) returns (ok: bool)
    requires c.base + c.size <= a.Length
    ensures ok <==> Intact(a[..], c, landed, nonce)
  {
    var pattern := PoisonPattern(c.size, nonce);
    assert forall i :: 0 <= i < c.size ==> pattern[..][i] == PoisonByte(nonce, i);
    for i := 0 to c.size
      invariant forall j :: 0 <= j < i && !(c.guard <= j < c.guard + landed) ==> a[c.base + j] == PoisonByte(nonce, j)
    {
      var inLanding := c.guard <= i < c.guard + landed;
      assert pattern[i] == pattern[..][i];
      if !inLanding && a[c.base + i] != pattern[i] { return false; }
    }
    return true;
  }

  /** A freshly written cell is intact with nothing landed, and other cells do not notice. */
  lemma PoisonedIsIntact(mem: seq<Byte>, c: Cell, nonce: bv32)
    requires c.base + c.size <= |mem|
    ensures Intact(Spliced(mem, c.base, Poison(c.size, nonce)), c, 0, nonce)
  {}

  lemma OtherCellsUnchanged(mem: seq<Byte>, j: nat, k: nat, guard: nat, payload: nat, nonce: bv32)
    requires j != k && MakeCell(j, guard, payload).base + MakeCell(j, guard, payload).size <= |mem|
    requires MakeCell(k, guard, payload).base + MakeCell(k, guard, payload).size <= |mem|
    requires Intact(mem, MakeCell(j, guard, payload), 0, nonce)
    ensures var c := MakeCell(k, guard, payload);
            Intact(Spliced(mem, c.base, Poison(c.size, nonce)), MakeCell(j, guard, payload), 0, nonce)
  {
    var c, d := MakeCell(k, guard, payload), MakeCell(j, guard, payload);
    var r := Spliced(mem, c.base, Poison(c.size, nonce));
    forall i | 0 <= i < d.size ensures r[d.base + i] == PoisonByte(nonce, i) {
      if InCell(d.base + i, k, guard, payload) { CellIsUnique(d.base + i, j, k, guard, payload); }
    }
  }

  /** What the SDK and the peer leave in memory: anything. */
  method Deliver(a: array<Byte>, mem: seq<Byte>)
    requires a.Length == |mem|
    modifies a
    ensures a[..] == mem
  {
    for i := 0 to |mem|
      invariant a[..i] == mem[..i]
    {
      a[i] := mem[i];
      assert a[..i + 1] == a[..i] + [mem[i]] && mem[..i + 1] == mem[..i] + [mem[i]];
    }
  }
}
