/** Bits of bytes: what shifts, masks and ORs do, one bit at a time. */
module Bits {
  /** Bit `i` of a byte, least significant first. */
  predicate Bit(b: bv8, i: nat)
    requires i < 8
  {
    (b >> i) & 1 == 1
  }

  /** `2^len - 1`. */
  function LowMask(len: nat): bv8
    requires len <= 8
  {
    match len
    case 0 => 0x00
    case 1 => 0x01
    case 2 => 0x03
    case 3 => 0x07
    case 4 => 0x0f
    case 5 => 0x1f
    case 6 => 0x3f
    case 7 => 0x7f
    case _ => 0xff
  }

  /** The mask of a field of `len` bits that starts at bit `start`. */
  function Mask(start: nat, len: nat): bv8
    requires start < 8 && start + len <= 8
  {
    LowMask(len) << start
  }

  lemma {:induction false} SameBits(a: bv8, b: bv8)
    requires forall i :: 0 <= i < 8 ==> Bit(a, i) == Bit(b, i)
    ensures a == b
  {
    assert Bit(a, 0) == Bit(b, 0) && Bit(a, 1) == Bit(b, 1) && Bit(a, 2) == Bit(b, 2) && Bit(a, 3) == Bit(b, 3);
    assert Bit(a, 4) == Bit(b, 4) && Bit(a, 5) == Bit(b, 5) && Bit(a, 6) == Bit(b, 6) && Bit(a, 7) == Bit(b, 7);
  }

  lemma {:induction false} BitOfAnd(a: bv8, b: bv8, i: nat)
    requires i < 8
    ensures Bit(a & b, i) == (Bit(a, i) && Bit(b, i))
  {
    if i == 0 {} else if i == 1 {} else if i == 2 {} else if i == 3 {}
    else if i == 4 {} else if i == 5 {} else if i == 6 {}
  }

  lemma {:induction false} BitOfOr(a: bv8, b: bv8, i: nat)
    requires i < 8
    ensures Bit(a | b, i) == (Bit(a, i) || Bit(b, i))
  {
    if i == 0 {} else if i == 1 {} else if i == 2 {} else if i == 3 {}
    else if i == 4 {} else if i == 5 {} else if i == 6 {}
  }

  lemma {:induction false} BitOfShl(b: bv8, s: nat, i: nat)
    requires s < 8 && i < 8
    ensures Bit((b << s), i) == (s <= i && Bit(b, i - s))
  {
    if s == 0 {} else if s == 1 {} else if s == 2 {} else if s == 3 {}
    else if s == 4 {} else if s == 5 {} else if s == 6 {}
  }

  lemma {:induction false} BitOfShr(b: bv8, s: nat, i: nat)
    requires s < 8 && i < 8
    ensures Bit(b >> s, i) == (i + s < 8 && Bit(b, i + s))
  {
    if s == 0 {} else if s == 1 {} else if s == 2 {} else if s == 3 {}
    else if s == 4 {} else if s == 5 {} else if s == 6 {}
  }

  lemma {:induction false} BitOfMask(start: nat, len: nat, i: nat)
    requires start < 8 && start + len <= 8 && i < 8
    ensures Bit(Mask(start, len), i) == (start <= i < start + len)
  {
    BitOfLowMask(len, i);
  }

  lemma {:induction false} BitOfLowMask(len: nat, i: nat)
    requires len <= 8 && i < 8
    ensures Bit(LowMask(len), i) == (i < len)
  {
    if i == 0 {} else if i == 1 {} else if i == 2 {} else if i == 3 {}
    else if i == 4 {} else if i == 5 {} else if i == 6 {}
  }

  lemma {:induction false} BitOfMaskedOr(b: bv8, v: bv8, m: bv8, i: nat)
    requires i < 8
    ensures Bit(b | (v & m), i) == (Bit(b, i) || (Bit(v, i) && Bit(m, i)))
  {
    BitOfOr(b, v & m, i);
    BitOfAnd(v, m, i);
  }

  lemma {:induction false} BitOfMaskedShr(b: bv8, m: bv8, s: nat, i: nat)
    requires s < 8 && i < 8
    ensures Bit((b & m) >> s, i) == (i + s < 8 && Bit(b, i + s) && Bit(m, i + s))
  {
    BitOfShr(b & m, s, i);
    if i + s < 8 {
      BitOfAnd(b, m, i + s);
    }
  }

  /** ORing a shifted and masked value into a byte. */
  lemma {:induction false} BitOfMerge(b: bv8, v: bv8, start: nat, len: nat, i: nat)
    requires start + len <= 8 && start < 8 && i < 8
    ensures Bit(b | ((v << start) & Mask(start, len)), i)
      == (Bit(b, i) || (start <= i < start + len && Bit(v, i - start)))
  {
    BitOfMaskedOr(b, (v << start), Mask(start, len), i);
    BitOfMask(start, len, i);
    BitOfShl(v, start, i);
  }

  /** Masking a byte and shifting the field down. */
  lemma {:induction false} BitOfExtract(b: bv8, start: nat, len: nat, i: nat)
    requires start + len <= 8 && start < 8 && i < 8
    ensures Bit((b & Mask(start, len)) >> start, i) == (i < len && Bit(b, i + start))
  {
    BitOfMaskedShr(b, Mask(start, len), start, i);
    if i + start < 8 {
      BitOfMask(start, len, i + start);
    }
  }
}
