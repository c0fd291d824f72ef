/** Shifts and masks of element indices, as division by powers of 32. */
module Shifts {
  import opened Nodes

  /** index >> (RRB_BITS * h) */
  function Shr(index: nat, h: nat): nat {
    index / Cap(h)
  }

  /** (index >> (RRB_BITS * h)) & RRB_MASK */
  function Digit(index: nat, h: nat): nat {
    Shr(index, h) % BRANCHING
  }

  lemma DivUnique(x: nat, c: nat, q: nat, r: nat)
    requires r < c && x == q * c + r
    ensures x / c == q && x % c == r
  {
    assert x / c * c + x % c == x;
    MulOrder(x / c, q, c);
    MulOrder(q, x / c, c);
  }

  lemma MulOrder(a: nat, b: nat, c: nat)
    ensures a < b ==> a * c + c <= b * c
  {
    if a < b {
      MulLeft(a + 1, b, c);
    }
  }

  /** Below 32^(h+1), the remainder of an index keeps the digits up to h. */
  lemma DigitOfRemainder(x: nat, h: nat)
    ensures Digit(x, h) == Shr(x % Cap(h + 1), h)
    ensures x % Cap(h) == x % Cap(h + 1) % Cap(h)
  {
    RemainderOfRemainder(x, Cap(h));
  }

  lemma RemainderOfRemainder(x: nat, c: nat)
    requires c >= 1
    ensures x / c % BRANCHING == x % (BRANCHING * c) / c
    ensures x % c == x % (BRANCHING * c) % c
  {
    var q, a, b := x / c / BRANCHING, x / c % BRANCHING, x % c;
    var y := a * c + b;
    assert x == (q * BRANCHING + a) * c + b;
    Distribute(q, a, c);
    MulOrder(a, BRANCHING, c);
    DivUnique(x, BRANCHING * c, q, y);
    DivUnique(y, c, a, b);
  }

  lemma Distribute(q: nat, a: nat, c: nat)
    ensures (q * BRANCHING + a) * c == q * (BRANCHING * c) + a * c
  {}

  lemma SmallShift(x: nat, h: nat)
    requires x < Cap(h)
    ensures Shr(x, h) == 0 && x % Cap(h) == x
  {
    DivUnique(x, Cap(h), 0, x);
  }

  lemma SmallDigit(x: nat, h: nat)
    requires x < Cap(h + 1)
    ensures Digit(x, h) == Shr(x, h) < BRANCHING
  {
    DigitOfRemainder(x, h);
    SmallShift(x, h + 1);
  }

  lemma CapAtLeast(h: nat)
    ensures h > 0 ==> Cap(h) >= BRANCHING
  {}
}
