/** Bit vectors, least significant bit first, and the functions of the source's
    bit library that the combinational primitives are made of.  Widths are
    sequence lengths: a vector of the wrong width is never padded silently. */
module BitVectors {

  type Bits = seq<bool>

  function Min(x: nat, y: nat): nat { if x <= y then x else y }

  function Max(x: nat, y: nat): nat { if x <= y then y else x }

  function Const(n: nat, b: bool): Bits { seq(n, i => b) }

  function Zeroes(n: nat): Bits { Const(n, false) }

  function Ones(n: nat): Bits { Const(n, true) }

  /** The value of a one-bit vector as a Boolean. */
  predicate Single(b: Bits) { |b| > 0 && b[0] }

  predicate Msb(b: Bits) { |b| > 0 && b[|b| - 1] }

  function Take(n: nat, b: Bits): Bits { if n <= |b| then b[..n] else b }

  function Drop(n: nat, b: Bits): Bits { if n <= |b| then b[n..] else [] }

  // ----- pointwise functions -----

  function BitNot(b: Bits): Bits { seq(|b|, i requires 0 <= i < |b| => !b[i]) }

  function BitAnd(x: Bits, y: Bits): Bits {
    seq(Min(|x|, |y|), i requires 0 <= i < |x| && i < |y| => x[i] && y[i])
  }

  function BitOr(x: Bits, y: Bits): Bits {
    seq(Min(|x|, |y|), i requires 0 <= i < |x| && i < |y| => x[i] || y[i])
  }

  function BitXor(x: Bits, y: Bits): Bits {
    seq(Min(|x|, |y|), i requires 0 <= i < |x| && i < |y| => x[i] != y[i])
  }

  function Reverse(b: Bits): Bits { seq(|b|, i requires 0 <= i < |b| => b[|b| - 1 - i]) }

  // ----- extension, concatenation and slices -----

  /** Pads at the most significant end, up to `width` bits. */
  function ExtendEnd(b: Bits, width: nat, v: bool): Bits {
    b + Const(Max(|b|, width) - |b|, v)
  }

  /** Pads at the least significant end, up to `width` bits. */
  function ExtendBeginning(b: Bits, width: nat, v: bool): Bits {
    Const(Max(|b|, width) - |b|, v) + b
  }

  /** `hi` provides the most significant bits. */
  function Concat(hi: Bits, lo: Bits): Bits { lo + hi }

  function Repeat(times: nat, b: Bits): (r: Bits)
    ensures |r| == times * |b|
  {
    if times == 0 then [] else b + Repeat(times - 1, b)
  }

  /** The `width` bits from position `offset`; bits past the end read as 0. */
  function Slice(offset: nat, width: nat, b: Bits): Bits {
    ExtendEnd(Take(width, Drop(offset, b)), width, false)
  }

  /** `b` with the `width` bits from position `offset` replaced by `v`; what hangs
      over the end of `b` is cut off. */
  function SliceSubst(offset: nat, width: nat, b: Bits, v: Bits): Bits {
    Take(|b|, Take(offset, b) + (v + Drop(offset + width, b)))
  }

  // ----- shifts -----

  function Asr1(b: Bits): (r: Bits) ensures |r| == |b| {
    if b == [] then b else b[1..] + [Msb(b)]
  }

  function Lsr1(b: Bits): (r: Bits) ensures |r| == |b| {
    if b == [] then b else b[1..] + [false]
  }

  function Lsl1(b: Bits): (r: Bits) ensures |r| == |b| {
    if b == [] then b else [false] + b[..|b| - 1]
  }

  function Asr(n: nat, b: Bits): (r: Bits) ensures |r| == |b| {
    if n == 0 then b else Asr(n - 1, Asr1(b))
  }

  function Lsr(n: nat, b: Bits): (r: Bits) ensures |r| == |b| {
    if n == 0 then b else Lsr(n - 1, Lsr1(b))
  }

  function Lsl(n: nat, b: Bits): (r: Bits) ensures |r| == |b| {
    if n == 0 then b else Lsl(n - 1, Lsl1(b))
  }

  // ----- numbers -----

  function Pow2(n: nat): (r: nat)
    ensures r > 0
  {
    if n == 0 then 1 else 2 * Pow2(n - 1)
  }

  /** The least k with n <= 2^k. */
  function Log2Up(n: nat): nat {
    if n <= 1 then 0 else 1 + Log2Up((n + 1) / 2)
  }

  function ToNat(b: Bits): nat {
    if b == [] then 0 else (if b[0] then 1 else 0) + 2 * ToNat(b[1..])
  }

  function OfNat(sz: nat, n: nat): (r: Bits)
    ensures |r| == sz
  {
    if sz == 0 then [] else [n % 2 == 1] + OfNat(sz - 1, n / 2)
  }

  /** Two's complement. */
  function ToInt(b: Bits): int {
    if Msb(b) then -(ToNat(BitNot(b)) as int) - 1 else ToNat(b)
  }

  function Plus(x: Bits, y: Bits): Bits { OfNat(|x|, ToNat(x) + ToNat(y)) }

  function Minus(x: Bits, y: Bits): Bits { Plus(Plus(x, BitNot(y)), OfNat(|x|, 1)) }

  function Mul(x: Bits, y: Bits): Bits { OfNat(|x| + |y|, ToNat(x) * ToNat(y)) }

  /** Bit number `idx` of `b`, or 0 when there is no such bit. */
  function Sel(b: Bits, idx: Bits): Bits { [ToNat(idx) < |b| && b[ToNat(idx)]] }

  // ----- facts about numbers -----

  lemma {:induction false} Log2UpBounds(n: nat)
    ensures n <= Pow2(Log2Up(n))
    ensures n > 1 ==> Pow2(Log2Up(n) - 1) < n
  {
    if n > 1 {
      Log2UpBounds((n + 1) / 2);
    }
  }

  lemma {:induction false} ToNatOfNat(sz: nat, n: nat)
    ensures ToNat(OfNat(sz, n)) == n % Pow2(sz)
  {
    if sz > 0 {
      ToNatOfNat(sz - 1, n / 2);
      ModDouble(n, Pow2(sz - 1));
    }
  }

  lemma ModDouble(n: nat, m: nat)
    requires m > 0
    ensures n % (2 * m) == n % 2 + 2 * ((n / 2) % m)
  {
    var q := (n / 2) / m;
    var r := n % 2 + 2 * ((n / 2) % m);
    assert n / 2 == q * m + (n / 2) % m;
    assert n == q * (2 * m) + r by { assert q * (2 * m) == 2 * (q * m); }
    DivModUnique(n, 2 * m, q, r);
  }

  lemma DivModUnique(n: int, m: int, q: int, r: int)
    requires m > 0 && 0 <= r < m && n == q * m + r
    ensures n / m == q && n % m == r
  {
    var d := n / m - q;
    assert d * m + n % m == r by { assert n == (n / m) * m + n % m; }
  }

  lemma ModSmall(n: nat, m: nat)
    requires n < m
    ensures n % m == n
  {
  }

  lemma {:induction false} ToNatBound(b: Bits)
    ensures ToNat(b) < Pow2(|b|)
  {
    if b != [] {
      ToNatBound(b[1..]);
    }
  }

  lemma {:induction false} OfNatToNat(b: Bits)
    ensures OfNat(|b|, ToNat(b)) == b
  {
    if b != [] {
      OfNatToNat(b[1..]);
      assert b == [b[0]] + b[1..];
    }
  }

  lemma LastIndex(sz: nat)
    requires sz > 0
    ensures ToNat(OfNat(Log2Up(sz), sz - 1)) == sz - 1
  {
    var k := Log2Up(sz);
    Log2UpBounds(sz);
    ToNatOfNat(k, sz - 1);
    ModSmall(sz - 1, Pow2(k));
  }

  /** Selecting the last bit by its own index gives the most significant bit. */
  lemma SelMsb(b: Bits)
    ensures Sel(b, OfNat(Log2Up(|b|), if |b| == 0 then 0 else |b| - 1)) == [Msb(b)]
  {
    if |b| > 0 {
      LastIndex(|b|);
      SelAt(b, OfNat(Log2Up(|b|), |b| - 1));
    }
  }

  lemma SelAt(b: Bits, idx: Bits)
    requires |b| > 0 && ToNat(idx) == |b| - 1
    ensures Sel(b, idx) == [Msb(b)]
  {
  }

  lemma {:induction false} RepeatBit(times: nat, v: bool)
    ensures Repeat(times, [v]) == Const(times, v)
  {
    if times > 0 {
      RepeatBit(times - 1, v);
    }
  }

  /** A concatenation's halves. */
  lemma SliceConcat(hi: Bits, lo: Bits)
    ensures Slice(0, |lo|, Concat(hi, lo)) == lo
    ensures Slice(|lo|, |hi|, Concat(hi, lo)) == hi
  {
  }

  /** Bit by bit, what replacing a slice means. */
  lemma SliceSubstBits(offset: nat, data: Bits, repl: Bits)
    ensures |SliceSubst(offset, |repl|, data, repl)| == |data|
    ensures forall k :: 0 <= k < |data| ==>
              SliceSubst(offset, |repl|, data, repl)[k] ==
              if offset <= k < offset + |repl| then repl[k - offset] else data[k]
  {
  }
}
