/** Ring indexing by `position & (Capacity - 1)`, over unbounded naturals.

    Both queues compute a slot index with a bit mask. The lemmas here say what the mask does
    when the capacity passes the queues' static assertion, and nothing else in the project
    reasons about bits or remainders of positions. */
module BitMask {

  function Pow2(k: nat): (r: nat)
    ensures r >= 1
  {
    if k == 0 then 1 else 2 * Pow2(k - 1)
  }

  /** The bitwise `&` of two naturals. */
  function And(x: nat, y: nat): (r: nat)
    ensures r <= x && r <= y
  {
    if x == 0 || y == 0 then 0
    else (if x % 2 == 1 && y % 2 == 1 then 1 else 0) + 2 * And(x / 2, y / 2)
  }

  /** The static assertion on `Capacity` of both queues. */
  predicate ValidCapacity(cap: nat) {
    cap >= 2 && And(cap, cap - 1) == 0
  }

  /** `pos & mask_`. */
  function Slot(pos: nat, cap: nat): (r: nat)
    requires ValidCapacity(cap)
    ensures r < cap
  {
    And(pos, cap - 1)
  }

  /** The static assertion accepts exactly the powers of two that are at least two. */
  lemma {:induction false} CapacityIsPowerOfTwo(cap: nat)
    ensures ValidCapacity(cap) <==> exists k: nat :: k >= 1 && cap == Pow2(k)
  {
    if ValidCapacity(cap) {
      var k := PowerOfCapacity(cap);
      assert k >= 1 && cap == Pow2(k);
    }
    forall k: nat | k >= 1 && cap == Pow2(k) ensures ValidCapacity(cap) {
      PowerMeetsItsPredecessor(k);
      assert Pow2(k) == 2 * Pow2(k - 1);
    }
  }

  lemma {:induction false} PowerOfCapacity(cap: nat) returns (k: nat)
    requires cap >= 1 && And(cap, cap - 1) == 0
    ensures cap == Pow2(k) && (cap >= 2 ==> k >= 1)
    decreases cap
  {
    if cap == 1 {
      k := 0;
    } else {
      assert cap % 2 == 0 by {
        if cap % 2 == 1 {
          OddMeetsItsPredecessor(cap);
        }
      }
      assert (cap - 1) / 2 == cap / 2 - 1;
      k := PowerOfCapacity(cap / 2);
      k := k + 1;
    }
  }

  lemma {:induction false} OddMeetsItsPredecessor(x: nat)
    requires x % 2 == 1 && x >= 3
    ensures And(x, x - 1) != 0
  {
    assert (x - 1) / 2 == x / 2;
    AndSelf(x / 2);
  }

  lemma {:induction false} AndSelf(x: nat)
    ensures And(x, x) == x
  {
    if x != 0 {
      AndSelf(x / 2);
    }
  }

  lemma {:induction false} PowerMeetsItsPredecessor(k: nat)
    ensures And(Pow2(k), Pow2(k) - 1) == 0
  {
    if k > 0 {
      var h := Pow2(k - 1);
      assert (2 * h - 1) / 2 == h - 1 && (2 * h) / 2 == h && (2 * h) % 2 == 0;
      PowerMeetsItsPredecessor(k - 1);
    }
  }

  /** Masking by `Capacity - 1` is the remainder modulo `Capacity`. */
  lemma {:induction false} SlotIsRemainder(pos: nat, cap: nat)
    requires ValidCapacity(cap)
    ensures Slot(pos, cap) == pos % cap
    decreases pos
  {
    if pos < cap {
      SlotOfSmall(pos, cap);
      RemainderOfSmall(pos, cap);
    } else {
      SlotNextLap(pos - cap, cap);
      SlotIsRemainder(pos - cap, cap);
      RemainderNextLap(pos - cap, cap);
    }
  }

  lemma RemainderOfSmall(x: nat, d: nat)
    requires x < d
    ensures x % d == x
  {
  }

  lemma RemainderNextLap(x: nat, d: nat)
    requires d >= 1
    ensures (x + d) % d == x % d
  {
    var q, r := x / d, x % d;
    var q', r' := (x + d) / d, (x + d) % d;
    var n := q' - q - 1;
    assert d * n == r - r' by {
      assert x == d * q + r && x + d == d * q' + r';
      assert d * n == d * q' - d * q - d;
    }
    assert n == 0 by {
      if n > 0 {
        ProductAtLeast(d, n);
      }
      if n < 0 {
        assert d * n == -(d * -n);
        ProductAtLeast(d, -n);
      }
    }
  }

  lemma {:induction false} ProductAtLeast(d: nat, n: nat)
    requires n >= 1
    ensures d * n >= d
  {
    if n > 1 {
      ProductAtLeast(d, n - 1);
      assert d * n == d * (n - 1) + d;
    }
  }

  /** One lap further on is the same slot. */
  lemma {:induction false} SlotNextLap(pos: nat, cap: nat)
    requires ValidCapacity(cap)
    ensures Slot(pos + cap, cap) == Slot(pos, cap)
  {
    var k := PowerOfCapacity(cap);
    MaskNextLap(pos, k);
  }

  lemma {:induction false} MaskNextLap(x: nat, k: nat)
    ensures And(x + Pow2(k), Pow2(k) - 1) == And(x, Pow2(k) - 1)
    decreases k
  {
    if k > 0 {
      var h := Pow2(k - 1);
      MaskNextLap(x / 2, k - 1);
      assert (x + 2 * h) / 2 == x / 2 + h && (2 * h - 1) / 2 == h - 1;
    }
  }

  /** Two different positions that share a slot are at least a whole lap apart. */
  lemma {:induction false} SameSlotFarApart(p: nat, q: nat, cap: nat)
    requires ValidCapacity(cap) && p < q && Slot(p, cap) == Slot(q, cap)
    ensures p + cap <= q
  {
    var k := PowerOfCapacity(cap);
    SameMaskFarApart(p, q, k);
  }

  lemma {:induction false} SameMaskFarApart(p: nat, q: nat, k: nat)
    requires p < q && And(p, Pow2(k) - 1) == And(q, Pow2(k) - 1)
    ensures p + Pow2(k) <= q
    decreases k
  {
    if k > 0 {
      var m := 2 * Pow2(k - 1) - 1;
      assert m / 2 == Pow2(k - 1) - 1;
      SplitMask(p, m);
      SplitMask(q, m);
      SameMaskFarApart(p / 2, q / 2, k - 1);
    }
  }

  lemma SplitMask(x: nat, m: nat)
    requires m % 2 == 1
    ensures And(x, m) == x % 2 + 2 * And(x / 2, m / 2)
  {
  }

  /** Positions below the capacity are their own slot. */
  lemma {:induction false} SlotOfSmall(pos: nat, cap: nat)
    requires ValidCapacity(cap) && pos < cap
    ensures Slot(pos, cap) == pos
  {
    var k := PowerOfCapacity(cap);
    MaskOfSmall(pos, k);
  }

  lemma {:induction false} MaskOfSmall(x: nat, k: nat)
    requires x < Pow2(k)
    ensures And(x, Pow2(k) - 1) == x
    decreases k
  {
    if k > 0 {
      var m := 2 * Pow2(k - 1) - 1;
      assert m / 2 == Pow2(k - 1) - 1;
      SplitMask(x, m);
      MaskOfSmall(x / 2, k - 1);
    }
  }

  /** Positions of one slot are laps apart, whichever comes first. */
  lemma SlotOrder(p: nat, q: nat, cap: nat)
    requires ValidCapacity(cap) && Slot(p, cap) == Slot(q, cap)
    ensures p == q || p + cap <= q || q + cap <= p
  {
    if p < q {
      SameSlotFarApart(p, q, cap);
    } else if q < p {
      SameSlotFarApart(q, p, cap);
    }
  }

  /** Positions less than a lap apart are in different slots. */
  lemma NearSlotsDiffer(p: nat, q: nat, cap: nat)
    requires ValidCapacity(cap) && p < q < p + cap
    ensures Slot(p, cap) != Slot(q, cap)
  {
    if Slot(p, cap) == Slot(q, cap) {
      SameSlotFarApart(p, q, cap);
    }
  }

  /** Advancing a masked index and masking again gives the slot of the next positions. */
  lemma {:induction false} SlotAdvance(pos: nat, d: nat, cap: nat)
    requires ValidCapacity(cap) && d <= cap
    ensures Slot(pos + d, cap) == Slot(Slot(pos, cap) + d, cap)
    ensures Slot(pos + d, cap) == if Slot(pos, cap) + d < cap then Slot(pos, cap) + d else Slot(pos, cap) + d - cap
    decreases pos
  {
    if pos < cap {
      SlotOfSmall(pos, cap);
      if pos + d < cap {
        SlotOfSmall(pos + d, cap);
      } else {
        SlotNextLap(pos + d - cap, cap);
        SlotOfSmall(pos + d - cap, cap);
      }
    } else {
      SlotNextLap(pos - cap, cap);
      SlotNextLap(pos + d - cap, cap);
      SlotAdvance(pos - cap, d, cap);
    }
  }
}
