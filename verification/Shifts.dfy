/** Shifting numbers by bits, one bit at a time. */
module Shifts {

  /** p >> order */
  function Shift(p: nat, order: nat): nat {
    if order == 0 then p else Shift(p, order - 1) / 2
  }

  /** index << order */
  function Up(index: nat, order: nat): nat {
    if order == 0 then index else 2 * Up(index, order - 1)
  }

  lemma {:induction false} ShiftAdds(p: nat, a: nat, b: nat)
    ensures Shift(Shift(p, a), b) == Shift(p, a + b)
    decreases b
  {
    if b > 0 {
      ShiftAdds(p, a, b - 1);
    }
  }

  lemma {:induction false} ShiftUp(k: nat, order: nat)
    ensures Shift(Up(k, order), order) == k
    decreases order
  {
    if order > 0 {
      ShiftUp(2 * k, order - 1);
      UpDoubles(k, order - 1);
    }
  }

  lemma {:induction false} UpDoubles(k: nat, order: nat)
    ensures Up(2 * k, order) == 2 * Up(k, order)
    decreases order
  {
    if order > 0 {
      UpDoubles(k, order - 1);
    }
  }

  lemma {:induction false} UpAdds(a: nat, b: nat, order: nat)
    ensures Up(a + b, order) == Up(a, order) + Up(b, order)
    decreases order
  {
    if order > 0 {
      UpAdds(a, b, order - 1);
    }
  }

  /** __ffs: the number of the lowest set bit. */
  function Ffs(n: nat): nat
    requires n > 0
  {
    if n % 2 == 1 then 0 else 1 + Ffs(n / 2)
  }
}
