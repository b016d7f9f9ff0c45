/** Addresses inside the static buffer pool: where each slot's in-use flag and data bytes lie. */
module PoolLayout {
  import opened Arithmetic

  /** `x & ~m` on the binary digits of `x` and `m`. */
  function AndNot(x: nat, m: nat): nat {
    if x == 0 then 0
    else 2 * AndNot(x / 2, m / 2) + (if m % 2 == 1 then 0 else x % 2)
  }

  lemma {:induction false} AndNotZero(x: nat)
    ensures AndNot(x, 0) == x
  {
    if x != 0 {
      AndNotZero(x / 2);
    }
  }

  lemma DivModUnique(x: int, d: int, q: int, r: int)
    requires x == q * d + r && 0 <= r < d
    ensures x / d == q && x % d == r
  {
    var q', r' := x / d, x % d;
    assert x == q' * d + r';
    assert (q - q') * d == r' - r;
    if q - q' >= 1 {
      MulMono(1, q - q', d);
    } else if q' - q >= 1 {
      MulMono(1, q' - q, d);
    }
  }

  /** The remainder by an even divisor keeps the lowest binary digit and halves the rest. */
  lemma HalveRemainder(x: nat, h: nat)
    requires h >= 1
    ensures x % (2 * h) == 2 * ((x / 2) % h) + x % 2
  {
    var q, r := (x / 2) / h, (x / 2) % h;
    assert x / 2 == q * h + r;
    assert q * (2 * h) == 2 * (q * h);
    DivModUnique(x, 2 * h, q, 2 * r + x % 2);
  }

  /** Clearing the low bits of an alignment mask rounds down to a multiple of the alignment. */
  lemma {:induction false} MaskRoundsDown(x: nat, k: nat)
    ensures AndNot(x, Pow2(k) - 1) == x - x % Pow2(k)
    decreases k
  {
    if k == 0 {
      AndNotZero(x);
    } else {
      var h := Pow2(k - 1);
      MaskRoundsDown(x / 2, k - 1);
      HalveRemainder(x, h);
      assert (2 * h - 1) / 2 == h - 1 && (2 * h - 1) % 2 == 1;
    }
  }

  lemma RoundedIsMultiple(x: nat, d: nat)
    requires d >= 1
    ensures (x - x % d) % d == 0
  {
    DivModUnique(x - x % d, d, x / d, 0);
  }

  /**
   The pool's parameters: the address of the static array, the number of slots, the size of a
   buffer, and the exponent of the alignment, which is a power of two.
   */
  datatype Config = Config(base: nat, count: nat, size: nat, shift: nat)
  {
    function Alignment(): (a: nat)
      ensures a >= 1
    {
      Pow2(shift)
    }

    /** The length of one row of the static array: one flag byte, the data, the slack. */
    function Stride(): nat {
      1 + size + (Alignment() - 1)
    }

    function SlotAddress(i: nat): nat {
      base + i * Stride()
    }

    function AlignPointer(p: nat): nat {
      AndNot(p + (Alignment() - 1), Alignment() - 1)
    }

    /** Where the user data of slot `i` begins. */
    function Data(i: nat): nat {
      AlignPointer(SlotAddress(i) + 1)
    }

    /** The address of the in-use flag of the buffer whose data begins at `data`. */
    function FlagOfData(data: int): int {
      data - 1
    }

    function Flag(i: nat): int {
      FlagOfData(Data(i))
    }

    function End(): nat {
      base + count * Stride()
    }
  }

  /** The data is aligned, and flag and data lie inside the slot's own row. */
  lemma SlotFits(c: Config, i: nat)
    ensures c.SlotAddress(i) == c.base + i * (c.size + Pow2(c.shift)) && c.Data(i) % Pow2(c.shift) == 0
    ensures c.SlotAddress(i) <= c.Flag(i) == c.Data(i) - 1
    ensures c.Data(i) + c.size <= c.SlotAddress(i + 1) == c.SlotAddress(i) + c.Stride()
  {
    var x := c.SlotAddress(i) + 1 + (c.Alignment() - 1);
    MaskRoundsDown(x, c.shift);
    RoundedIsMultiple(x, c.Alignment());
    assert (i + 1) * c.Stride() == i * c.Stride() + c.Stride();
  }

  /** Flag and data bytes of different slots never overlap, and both lie inside the pool. */
  lemma SlotsDisjoint(c: Config, i: nat, j: nat)
    requires i < j
    ensures c.Data(i) + c.size <= c.Flag(j)
    ensures c.Data(i) < c.Data(j)
  {
    SlotFits(c, i);
    SlotFits(c, j);
    MulMono(i + 1, j, c.Stride());
  }

  lemma SlotInPool(c: Config, i: nat)
    requires i < c.count
    ensures c.base <= c.Flag(i) < c.Data(i) <= c.Data(i) + c.size <= c.End()
  {
    SlotFits(c, i);
    MulMono(i + 1, c.count, c.Stride());
  }

  lemma SlotDetermined(c: Config, i: nat, j: nat)
    requires c.Data(i) == c.Data(j)
    ensures i == j
  {
    if i < j {
      SlotsDisjoint(c, i, j);
    } else if j < i {
      SlotsDisjoint(c, j, i);
    }
  }

  /** The address arithmetic never leaves the pool, so it cannot wrap where the pool does not. */
  lemma AlignmentStaysInPool(c: Config, i: nat)
    requires i < c.count
    ensures c.SlotAddress(i) + 1 + (c.Alignment() - 1) <= c.End()
  {
    MulMono(i + 1, c.count, c.Stride());
    assert (i + 1) * c.Stride() == i * c.Stride() + c.Stride();
  }

  /** Addresses owned by slot `i`: its flag and its data bytes. */
  predicate InSlot(c: Config, i: nat, a: int) {
    c.Flag(i) <= a < c.Data(i) + c.size
  }

  lemma InOneSlot(c: Config, i: nat, j: nat, a: int)
    requires InSlot(c, i, a) && InSlot(c, j, a)
    ensures i == j
  {
    if i < j {
      SlotsDisjoint(c, i, j);
    } else if j < i {
      SlotsDisjoint(c, j, i);
    }
  }
}
