/** The ring of block slots: block b lives in slot b modulo NUM_BLOCKS, at both ends. */
module Slots {
  import opened Config

  function Slot(b: nat): (s: nat)
    ensures s < NUM_BLOCKS
  {
    b % NUM_BLOCKS
  }

  lemma NonzeroMultiple(d: nat, k: int)
    requires k != 0
    ensures d * k >= d || -(d * k) >= d
  {
    if k >= 1 {
      assert d * k >= d * 1;
    } else {
      assert d * k <= d * -1;
    }
  }

  lemma SameRemainder(a: nat, b: nat, d: nat)
    requires 0 < d && a % d == b % d
    ensures b - a == d * (b / d - a / d)
  {
    assert a == d * (a / d) + a % d && b == d * (b / d) + b % d;
  }

  /** Blocks of one window have slots of their own. */
  lemma SlotsDistinct(a: nat, b: nat)
    requires a < b < a + NUM_BLOCKS
    ensures Slot(a) != Slot(b)
  {
    if Slot(a) == Slot(b) {
      SameRemainder(a, b, NUM_BLOCKS);
      NonzeroMultiple(NUM_BLOCKS, b / NUM_BLOCKS - a / NUM_BLOCKS);
      assert false;
    }
  }

  lemma OtherSlot(curr: nat, a: nat, b: nat)
    requires curr <= a < curr + NUM_BLOCKS && curr <= b < curr + NUM_BLOCKS && a != b
    ensures Slot(a) != Slot(b)
  {
    if a < b {
      SlotsDistinct(a, b);
    } else {
      SlotsDistinct(b, a);
    }
  }

  lemma DivisionIsUnique(n: nat, d: nat, q: nat, r: nat)
    requires r < d && n == d * q + r
    ensures n % d == r
  {
    assert n == d * (n / d) + n % d;
    assert d * (q - n / d) == d * q - d * (n / d);
    if q != n / d {
      NonzeroMultiple(d, q - n / d);
      assert false;
    }
  }

  /** The window is as long as the ring: its end has the slot of its start. */
  lemma SlotWraps(b: nat)
    ensures Slot(b + NUM_BLOCKS) == Slot(b)
  {
    var q := b / NUM_BLOCKS;
    assert b + NUM_BLOCKS == NUM_BLOCKS * (q + 1) + Slot(b);
    DivisionIsUnique(b + NUM_BLOCKS, NUM_BLOCKS, q + 1, Slot(b));
  }
}
