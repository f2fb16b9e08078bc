/** The aligned cursor buffer behind the Lua bindings: a fixed array of
    32-bit floats, kept here as their bit patterns since nothing computes
    with them, and a position that each read or write first rounds up to
    the requested alignment. */
module MicrocomputeLua {

  /** A positive multiple of `a` is at least `a`. */
  lemma {:induction false} MultipleAtLeast(d: nat, a: nat)
    requires d >= 1
    ensures d * a >= a
  {
    if d > 1 {
      MultipleAtLeast(d - 1, a);
      assert d * a == (d - 1) * a + a;
    }
  }

  /** Multiplying by the same natural keeps order. */
  lemma MultiplyMonotone(k: nat, q: nat, a: nat)
    ensures k <= q ==> k * a <= q * a
  {
    if k <= q {
      var gap := (q - k) * a;
      assert q * a == k * a + gap;
    }
  }

  /** Euclidean division is unique: a quotient and remainder that
      rebuild `x` are the ones `/` and `%` give. */
  lemma DivModUnique(x: nat, a: nat, q: nat, r: nat)
    requires a > 0 && r < a && x == q * a + r
    ensures x / a == q && x % a == r
  {
    var q0, r0 := x / a, x % a;
    assert x == q0 * a + r0;
    if q0 < q {
      var gap := (q - q0) * a;
      assert q * a == q0 * a + gap;
      MultipleAtLeast(q - q0, a);
      assert false;
    } else if q < q0 {
      var gap := (q0 - q) * a;
      assert q0 * a == q * a + gap;
      MultipleAtLeast(q0 - q, a);
      assert false;
    }
  }

  /** `calc_offset`: how far `pos` is from the next multiple of `align`.
      C's `%` truncates, which agrees with Dafny's on these non-negative
      operands. */
  function CalcOffset(pos: nat, align: nat): (r: nat)
    requires align > 0
    ensures r < align
  {
    (align - pos % align) % align
  }

  /** The offset lands on a multiple of `align`, and is zero exactly when
      `pos` already is one. */
  lemma CalcOffsetAligns(pos: nat, align: nat)
    requires align > 0
    ensures (pos + CalcOffset(pos, align)) % align == 0
    ensures CalcOffset(pos, align) == 0 <==> pos % align == 0
  {
    var q, r := pos / align, pos % align;
    if r == 0 {
      DivModUnique(align, align, 1, 0);
    } else {
      DivModUnique(align - r, align, 0, align - r);
      assert pos + CalcOffset(pos, align) == (q + 1) * align;
      DivModUnique((q + 1) * align, align, q + 1, 0);
    }
  }

  /** The slot a read or write at `pos` uses. */
  function AlignedSlot(pos: nat, align: nat): nat
    requires align > 0
  {
    pos + CalcOffset(pos, align)
  }

  /** Two different multiples of `a` lie at least `a` apart. */
  lemma MultiplesApart(s: nat, m: nat, a: nat)
    requires a > 0 && s % a == 0 && m % a == 0
    ensures s > m ==> s >= m + a
  {
    if s > m {
      var i, j := s / a, m / a;
      assert s == i * a && m == j * a;
      MultiplyMonotone(i, j, a);
      var gap := (i - j) * a;
      assert s == m + gap;
      MultipleAtLeast(i - j, a);
    }
  }

  /** The slot is the first multiple of `align` at or after `pos`. */
  lemma AlignedSlotIsNextMultiple(pos: nat, align: nat, m: nat)
    requires align > 0 && pos <= m && m % align == 0
    ensures pos <= AlignedSlot(pos, align) <= m
  {
    CalcOffsetAligns(pos, align);
    MultiplesApart(AlignedSlot(pos, align), m, align);
  }

  /** `struct Databuff` */
  class Databuff {
    const size: nat
    var pos: nat
    const data: array<bv32>

    predicate Valid()
      reads this
    {
      data.Length == size
    }

    /** `databuff_create`: `size` zeroed slots and the cursor at the start. */
    constructor (size: nat)
      ensures Valid() && this.size == size && pos == 0 && fresh(data)
      ensures forall k :: 0 <= k < size ==> data[k] == 0
    {
      this.size := size;
      pos := 0;
      var zeroed := new bv32[size];
      for i := 0 to size
        invariant forall k :: 0 <= k < i ==> zeroed[k] == 0
      {
        zeroed[i] := 0;
      }
      data := zeroed;
    }

    /** `databuff_read`: the value in the next aligned slot; the cursor moves
        just past it. The C code checks no bound, so the slot must exist. */
    method Read(align: nat) returns (value: bv32)
      requires Valid() && align > 0 && AlignedSlot(pos, align) < size
      modifies this
      ensures Valid()
      ensures pos == AlignedSlot(old(pos), align) + 1
      ensures value == data[pos - 1]
    {
      pos := pos + CalcOffset(pos, align) + 1;
      value := data[pos - 1];
    }

    /** `databuff_write`: `value` goes into the next aligned slot, no other
        slot changes, and the cursor moves just past it. */
    method Write(align: nat, value: bv32)
      requires Valid() && align > 0 && AlignedSlot(pos, align) < size
      modifies this, data
      ensures Valid()
      ensures pos == AlignedSlot(old(pos), align) + 1
      ensures data[..] == old(data[..])[pos - 1 := value]
    {
      pos := pos + CalcOffset(pos, align) + 1;
      data[pos - 1] := value;
    }
  }
}
