/** The bits of a 32-bit mask. */
module BitMask {

  function Bit(d: nat): bv32
    requires d < 32
  {
    1 << d
  }

  predicate Meets(x: bv32, y: bv32) {
    x & y != 0
  }

  /** The mask with the bits of b cleared. */
  function Without(mask: bv32, b: bv32): bv32 {
    mask & !b
  }

  predicate Has(mask: bv32, d: nat)
    requires d < 32
  {
    Meets(mask, Bit(d))
  }

  lemma DistinctBits(d: nat, e: nat)
    requires d < 32 && e < 32
    ensures Bit(d) != 0 && (d != e ==> !Meets(Bit(d), Bit(e)))
  {
  }

  lemma SetSame(mask: bv32, b: bv32)
    requires b != 0
    ensures Meets(mask | b, b)
  {
  }

  lemma SetOther(mask: bv32, b: bv32, c: bv32)
    requires !Meets(b, c)
    ensures Meets(mask | b, c) == Meets(mask, c)
  {
  }

  lemma ClearSame(mask: bv32, b: bv32)
    ensures !Meets(Without(mask, b), b)
  {
  }

  lemma ClearOther(mask: bv32, b: bv32, c: bv32)
    requires !Meets(b, c)
    ensures Meets(Without(mask, b), c) == Meets(mask, c)
  {
  }

  lemma SetBit(mask: bv32, d: nat, e: nat)
    requires d < 32 && e < 32
    ensures Has(mask | Bit(d), e) == (d == e || Has(mask, e))
  {
    if d == e {
      SetSame(mask, Bit(d)) by { DistinctBits(d, d); }
    } else {
      SetOther(mask, Bit(d), Bit(e)) by { DistinctBits(d, e); }
    }
  }

  lemma ClearBit(mask: bv32, d: nat, e: nat)
    requires d < 32 && e < 32
    ensures Has(Without(mask, Bit(d)), e) == (d != e && Has(mask, e))
  {
    hide Without, Meets;
    if d == e {
      ClearSame(mask, Bit(d));
    } else {
      ClearOther(mask, Bit(d), Bit(e)) by { DistinctBits(d, e); }
    }
  }
}
