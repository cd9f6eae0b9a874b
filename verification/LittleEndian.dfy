/** Little-endian integers, the leaves of every wire format. */
module LittleEndian {
  function Pow256(k: nat): (p: nat)
    ensures p >= 1
  {
    if k == 0 then 1 else 256 * Pow256(k - 1)
  }

  lemma {:induction false} BitAppended(b: bv8, odd: bool)
    requires b as int < 128
    ensures ((b << 1) | (if odd then 1 else 0)) as int == 2 * (b as int) + if odd then 1 else 0
  {
  }

  /** The byte of a number, from its binary digits. */
  function ByteOf(n: nat): (b: bv8)
    requires n < 256
    ensures b as int == n
  {
    if n == 0 then 0
    else
      BitAppended(ByteOf(n / 2), n % 2 == 1);
      (ByteOf(n / 2) << 1) | (if n % 2 == 1 then 1 else 0)
  }

  lemma {:induction false} ByteBack(b: bv8)
    ensures 0 <= b as int < 256 && (b as int) as bv8 == b
  {
  }

  lemma {:induction false} ByteThere(n: nat)
    requires n < 256
    ensures (n as bv8) as int == n
  {
    ByteBack(ByteOf(n));
  }

  /** The low byte of `n`. */
  function LowByte(n: nat): (b: bv8)
    ensures b as int == n % 256
  {
    ByteThere(n % 256);
    (n % 256) as bv8
  }

  /** Prepending a byte is undone by taking the low byte and the rest. */
  lemma {:induction false} LowByteOf(b: bv8, rest: nat)
    ensures LowByte(b as int + 256 * rest) == b && (b as int + 256 * rest) / 256 == rest
  {
    ByteBack(b);
    LowDigit(b as int, rest);
  }

  lemma {:induction false} LowDigit(n: nat, rest: nat)
    requires n < 256
    ensures (n + 256 * rest) % 256 == n && (n + 256 * rest) / 256 == rest
  {
  }

  /** The low `k` bytes of `n`. */
  function ToLe(n: nat, k: nat): (bs: seq<bv8>)
    ensures |bs| == k
  {
    if k == 0 then [] else [LowByte(n)] + ToLe(n / 256, k - 1)
  }

  function FromLe(bs: seq<bv8>): nat {
    if bs == [] then 0 else bs[0] as int + 256 * FromLe(bs[1..])
  }

  lemma {:induction false} FromToLe(n: nat, k: nat)
    requires n < Pow256(k)
    ensures FromLe(ToLe(n, k)) == n
  {
    if k > 0 {
      FromToLe(n / 256, k - 1);
      assert ToLe(n, k)[1..] == ToLe(n / 256, k - 1);
    }
  }

  lemma {:induction false} ToFromLe(bs: seq<bv8>)
    ensures FromLe(bs) < Pow256(|bs|) && ToLe(FromLe(bs), |bs|) == bs
  {
    if bs != [] {
      ToFromLe(bs[1..]);
      LowByteOf(bs[0], FromLe(bs[1..]));
      assert [bs[0]] + bs[1..] == bs;
    }
  }

  /** Two's complement in `k` bytes. */
  function ToLeSigned(n: int, k: nat): (bs: seq<bv8>)
    requires 0 - Pow256(k) <= n
    ensures |bs| == k
  {
    ToLe(if n < 0 then n + Pow256(k) else n, k)
  }

  function FromLeSigned(bs: seq<bv8>): int {
    var n := FromLe(bs);
    if 2 * n >= Pow256(|bs|) then n - Pow256(|bs|) else n
  }

  predicate InRange(n: int, k: nat, signed: bool) {
    if signed then 0 - Pow256(k) <= 2 * n < Pow256(k) else 0 <= n < Pow256(k)
  }

  /** A `repr` integer of `k` bytes, signed or not. */
  function ToBytes(n: int, k: nat, signed: bool): (bs: seq<bv8>)
    requires InRange(n, k, signed)
    ensures |bs| == k
  {
    if signed then ToLeSigned(n, k) else ToLe(n, k)
  }

  function FromBytes(bs: seq<bv8>, signed: bool): int {
    if signed then FromLeSigned(bs) else FromLe(bs)
  }

  lemma {:induction false} BytesRoundTrip(n: int, k: nat, signed: bool)
    requires InRange(n, k, signed)
    ensures FromBytes(ToBytes(n, k, signed), signed) == n
  {
    FromToLe(if n < 0 then n + Pow256(k) else n, k);
  }

  lemma {:induction false} IntegerRoundTrip(bs: seq<bv8>, signed: bool)
    ensures InRange(FromBytes(bs, signed), |bs|, signed)
    ensures ToBytes(FromBytes(bs, signed), |bs|, signed) == bs
  {
    ToFromLe(bs);
  }

  /** The first byte counts once, the others 256 times as much as on their own. */
  lemma {:induction false} FirstByteIsLowest(x: bv8, rest: seq<bv8>)
    ensures FromLe([x] + rest) == x as int + 256 * FromLe(rest) && FromLe([]) == 0
    ensures Pow256(0) == 1 && Pow256(|rest| + 1) == 256 * Pow256(|rest|)
  {
    assert ([x] + rest)[0] == x && ([x] + rest)[1..] == rest;
  }

  /** Negative numbers are written as two's complement. */
  lemma {:induction false} NegativeIsComplement(n: int, k: nat)
    requires InRange(n, k, true)
    ensures FromLe(ToBytes(n, k, true)) == if n < 0 then n + Pow256(k) else n
  {
    FromToLe(if n < 0 then n + Pow256(k) else n, k);
  }
}
