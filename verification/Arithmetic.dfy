/** What the combinational primitives compute, as numbers: a vector is the number of
    its bits, and a signed one that number in two's complement. */
module Arithmetic {
  import opened BitVectors
  import opened Primitives
  import opened Slices

  // ----- numbers and positions -----

  lemma {:induction false} Pow2Plus(m: nat, n: nat)
    ensures Pow2(m + n) == Pow2(m) * Pow2(n)
  {
    if m > 0 {
      Pow2Plus(m - 1, n);
      assert Pow2(m) * Pow2(n) == 2 * (Pow2(m - 1) * Pow2(n));
    }
  }

  lemma {:induction false} Pow2Mono(m: nat, n: nat)
    requires m <= n
    ensures Pow2(m) <= Pow2(n)
  {
    if m < n { Pow2Mono(m, n - 1); }
  }

  lemma DoubleProduct(p: nat, h: nat)
    ensures (2 * p) * h == 2 * (p * h)
  {
  }

  lemma FirstBit(b: Bits)
    requires b != []
    ensures ToNat(b) == (if b[0] then 1 else 0) + 2 * ToNat(b[1..]) && Pow2(|b|) == 2 * Pow2(|b| - 1)
  {
  }

  /** `hi` counts in units of two to the length of `lo`. */
  lemma {:induction false} JoinNumber(lo: Bits, hi: Bits)
    ensures ToNat(lo + hi) == ToNat(lo) + Pow2(|lo|) * ToNat(hi)
  {
    if lo == [] {
      assert lo + hi == hi;
    } else {
      var rest := lo[1..];
      assert (lo + hi)[1..] == rest + hi;
      JoinNumber(rest, hi);
      FirstBit(lo);
      FirstBit(lo + hi);
      DoubleProduct(Pow2(|rest|), ToNat(hi));
      hide ToNat;
    }
  }

  lemma SameNumber(x: Bits, y: Bits)
    requires |x| == |y|
    ensures ToNat(x) == ToNat(y) <==> x == y
  {
    OfNatToNat(x);
    OfNatToNat(y);
  }

  lemma {:induction false} ZeroesNumber(n: nat)
    ensures ToNat(Zeroes(n)) == 0
  {
    if n > 0 {
      ZeroesNumber(n - 1);
      assert Zeroes(n)[1..] == Zeroes(n - 1);
    }
  }

  lemma {:induction false} NotNumber(b: Bits)
    ensures ToNat(BitNot(b)) == Pow2(|b|) - 1 - ToNat(b)
  {
    if b != [] {
      NotNumber(b[1..]);
      assert BitNot(b)[1..] == BitNot(b[1..]);
    }
  }

  /** The bits from position `n` are the quotient, those below it the remainder. */
  lemma {:induction false} SplitNumber(n: nat, b: Bits)
    ensures ToNat(Drop(n, b)) == ToNat(b) / Pow2(n) && ToNat(Take(n, b)) == ToNat(b) % Pow2(n)
  {
    ToNatBound(b);
    if n <= |b| {
      assert b == b[..n] + b[n..];
      JoinNumber(b[..n], b[n..]);
      ToNatBound(b[..n]);
      assert ToNat(b) == ToNat(b[n..]) * Pow2(n) + ToNat(b[..n]);
      DivModUnique(ToNat(b), Pow2(n), ToNat(b[n..]), ToNat(b[..n]));
    } else {
      Pow2Mono(|b|, n);
      DivModUnique(ToNat(b), Pow2(n), 0, ToNat(b));
    }
  }

  lemma Swapped(x: nat, y: nat)
    ensures x * y == y * x && x * 0 == 0
  {
  }

  lemma PaddedNumber(b: Bits, n: nat)
    ensures ToNat(b + Zeroes(n)) == ToNat(b) && ToNat(Zeroes(n) + b) == ToNat(b) * Pow2(n)
  {
    hide ToNat, Pow2;
    ZeroesNumber(n);
    JoinNumber(b, Zeroes(n));
    JoinNumber(Zeroes(n), b);
    Swapped(Pow2(n), ToNat(b));
  }

  lemma {:induction false} SliceNumber(offset: nat, width: nat, b: Bits)
    ensures |Slice(offset, width, b)| == width
    ensures ToNat(Slice(offset, width, b)) == ToNat(b) / Pow2(offset) % Pow2(width)
  {
    var part := Take(width, Drop(offset, b));
    SplitNumber(offset, b);
    SplitNumber(width, Drop(offset, b));
    PaddedNumber(part, width - |part|);
    assert Slice(offset, width, b) == part + Zeroes(width - |part|);
  }

  // ----- sums and products -----

  lemma PlusNumber(x: Bits, y: Bits)
    ensures ToNat(Plus(x, y)) == (ToNat(x) + ToNat(y)) % Pow2(|x|)
  {
    ToNatOfNat(|x|, ToNat(x) + ToNat(y));
  }

  lemma ModOfSum(a: nat, b: nat, m: nat)
    requires m > 0
    ensures (a % m + b % m) % m == (a + b) % m
  {
    var (p, q, r) := (a / m, b / m, a % m + b % m);
    assert a == p * m + a % m && b == q * m + b % m;
    assert a + b == (p + q + r / m) * m + r % m by {
      assert r == (r / m) * m + r % m;
      assert (p + q + r / m) * m == p * m + q * m + (r / m) * m;
    }
    DivModUnique(a + b, m, p + q + r / m, r % m);
  }

  lemma NegateAndAdd(a: nat, b: nat, m: nat, n: nat, s: nat)
    requires b < m && n == m - 1 - b && s == (a + n) % m
    ensures (s + 1 % m) % m == (m + a - b) % m
  {
    ModOfSum(a + n, 1, m);
    assert a + n + 1 == m + a - b;
  }

  lemma PlusWidth(x: Bits, y: Bits)
    ensures |Plus(x, y)| == |x|
  {
  }

  /** Subtraction wraps around below zero. */
  lemma {:induction false} MinusNumber(x: Bits, y: Bits)
    requires |x| == |y|
    ensures ToNat(Minus(x, y)) == (Pow2(|x|) + ToNat(x) - ToNat(y)) % Pow2(|x|)
  {
    hide Plus, BitNot, ToNat, OfNat, Pow2;
    var s := Plus(x, BitNot(y));
    ToNatBound(y);
    NotNumber(y);
    PlusNumber(x, BitNot(y));
    ToNatOfNat(|x|, 1);
    PlusWidth(x, BitNot(y));
    PlusNumber(s, OfNat(|x|, 1));
    NegateAndAdd(ToNat(x), ToNat(y), Pow2(|x|), ToNat(BitNot(y)), ToNat(s));
  }

  lemma ProductBound(a: nat, b: nat, m: nat, n: nat)
    requires a < m && b < n
    ensures a * b < m * n
  {
    var (c, d) := (m - a, n - b);
    assert m * n == a * b + a * d + c * b + c * d by { assert m == a + c && n == b + d; }
    assert c * d > 0;
  }

  lemma {:induction false} MulNumber(x: Bits, y: Bits)
    ensures ToNat(Mul(x, y)) == ToNat(x) * ToNat(y)
  {
    hide ToNat, OfNat, Pow2;
    var (a, b, m, n) := (ToNat(x), ToNat(y), Pow2(|x|), Pow2(|y|));
    ToNatBound(x);
    ToNatBound(y);
    ProductBound(a, b, m, n);
    Pow2Plus(|x|, |y|);
    ToNatOfNat(|x| + |y|, a * b);
    ModSmall(a * b, Pow2(|x| + |y|));
  }

  // ----- two's complement -----

  /** The number that `v` stands for among `n`-bit numbers with a sign. */
  function Signed(n: nat, v: nat): int { if 2 * v >= Pow2(n) then v - Pow2(n) else v }

  lemma {:induction false} MsbNumber(b: Bits)
    ensures Msb(b) <==> 2 * ToNat(b) >= Pow2(|b|)
  {
    if |b| > 0 {
      var n := |b| - 1;
      assert b == b[..n] + [b[n]];
      JoinNumber(b[..n], [b[n]]);
      ToNatBound(b[..n]);
      assert ToNat([b[n]]) == (if b[n] then 1 else 0) + 2 * ToNat([b[n]][1..]);
    }
  }

  lemma {:induction false} ToIntNumber(b: Bits)
    ensures ToInt(b) == Signed(|b|, ToNat(b))
    ensures |b| > 0 ==> -(Pow2(|b| - 1) as int) <= ToInt(b) < Pow2(|b| - 1)
  {
    MsbNumber(b);
    NotNumber(b);
    ToNatBound(b);
  }

  lemma SameInt(x: Bits, y: Bits)
    requires |x| == |y|
    ensures ToInt(x) == ToInt(y) <==> x == y
  {
    ToIntNumber(x);
    ToIntNumber(y);
    ToNatBound(x);
    ToNatBound(y);
    SameNumber(x, y);
  }

  lemma {:induction false} SignExtended(b: Bits, n: nat)
    ensures ToInt(b + Const(n, Msb(b))) == ToInt(b)
  {
    var x := b + Const(n, Msb(b));
    assert Msb(x) == Msb(b);
    if Msb(b) {
      assert BitNot(x) == BitNot(b) + Zeroes(n);
      PaddedNumber(BitNot(b), n);
    } else {
      PaddedNumber(b, n);
    }
  }

  // ----- shifts -----

  lemma {:induction false} LslNumber(n: nat, b: Bits)
    ensures ToNat(Lsl(n, b)) == ToNat(b) * Pow2(n) % Pow2(|b|)
  {
    LslBits(n, b);
    assert Lsl(n, b) == Take(|b|, Zeroes(n) + b);
    PaddedNumber(b, n);
    SplitNumber(|b|, Zeroes(n) + b);
  }

  lemma NotSmaller(q: nat, m: nat)
    requires m > 0
    ensures q <= q * m
  {
    assert q * m == q * (m - 1) + q;
    assert q * (m - 1) >= 0;
  }

  lemma DivShrinks(x: nat, m: nat)
    requires m > 0
    ensures x / m <= x
  {
    var (q, r) := (x / m, x % m);
    assert x == q * m + r;
    NotSmaller(q, m);
  }

  lemma {:induction false} LsrNumber(n: nat, b: Bits)
    ensures ToNat(Lsr(n, b)) == ToNat(b) / Pow2(n)
  {
    LsrBits(n, b);
    assert Lsr(n, b) == Slice(n, |b|, b);
    SliceNumber(n, |b|, b);
    ToNatBound(b);
    DivShrinks(ToNat(b), Pow2(n));
    ModSmall(ToNat(b) / Pow2(n), Pow2(|b|));
  }

  /** Bit by bit: vacated positions take the sign. */
  lemma {:induction false} AsrBits(n: nat, b: Bits)
    ensures forall k :: 0 <= k < |b| ==> Asr(n, b)[k] == if k + n < |b| then b[k + n] else Msb(b)
    decreases n
  {
    if n > 0 && b != [] {
      var b1 := Asr1(b);
      AsrBits(n - 1, b1);
      assert Msb(b1) == Msb(b);
      forall k | 0 <= k < |b| ensures Asr(n, b)[k] == if k + n < |b| then b[k + n] else Msb(b) {
        if k + n - 1 < |b| { assert b1[k + n - 1] == if k + n < |b| then b[k + n] else Msb(b); }
      }
    }
  }

  lemma NegativeQuotient(x: int, m: int)
    requires m > 0 && x >= 0
    ensures (-x - 1) / m == -(x / m) - 1
  {
    var (q, r) := (x / m, x % m);
    assert x == q * m + r;
    assert -x - 1 == (-q - 1) * m + (m - 1 - r) by { assert (-q - 1) * m == -(q * m) - m; }
    DivModUnique(-x - 1, m, -q - 1, m - 1 - r);
  }

  /** An arithmetic shift divides the signed number, rounding down. */
  lemma {:induction false} AsrNumber(n: nat, b: Bits)
    ensures ToInt(Asr(n, b)) == ToInt(b) / Pow2(n)
  {
    AsrBits(n, b);
    var x := Asr(n, b);
    assert Msb(x) == Msb(b);
    if Msb(b) {
      LsrBits(n, BitNot(b));
      assert BitNot(x) == Lsr(n, BitNot(b));
      LsrNumber(n, BitNot(b));
      NegativeQuotient(ToNat(BitNot(b)), Pow2(n));
    } else {
      LsrBits(n, b);
      assert x == Lsr(n, b);
      LsrNumber(n, b);
    }
  }

  // ----- selection and repetition -----

  lemma {:induction false} SelNumber(b: Bits, idx: Bits)
    ensures ToNat(Sel(b, idx)) == ToNat(b) / Pow2(ToNat(idx)) % 2
  {
    var k := ToNat(idx);
    SliceNumber(k, 1, b);
    assert Slice(k, 1, b) == Sel(b, idx);
    assert Pow2(1) == 2;
  }

  lemma {:induction false} RepeatBits(times: nat, b: Bits)
    ensures forall k :: 0 <= k < times * |b| ==> |b| > 0 && Repeat(times, b)[k] == b[k % |b|]
  {
    if times > 0 {
      RepeatBits(times - 1, b);
      var rest := Repeat(times - 1, b);
      assert times * |b| == (times - 1) * |b| + |b|;
      forall k | 0 <= k < times * |b| ensures |b| > 0 && Repeat(times, b)[k] == b[k % |b|] {
        if k < |b| {
          ModSmall(k, |b|);
        } else {
          assert Repeat(times, b)[k] == rest[k - |b|];
          var q := (k - |b|) / |b|;
          assert k == (q + 1) * |b| + (k - |b|) % |b| by { assert (q + 1) * |b| == q * |b| + |b|; }
          DivModUnique(k, |b|, q + 1, (k - |b|) % |b|);
        }
      }
    }
  }

  // ----- every primitive -----

  /** What a unary primitive has to return. */
  ghost predicate Means1(fn: Fbits1, b: Bits, r: Bits) {
    match fn
    case Not(sz) => |r| == sz && ToNat(r) + ToNat(b) == Pow2(sz) - 1
    case Rev(sz) => |r| == sz == |b| && forall k :: 0 <= k < sz ==> r[k] == b[sz - 1 - k]
    case SExt(sz, width) =>
      |r| == Max(sz, width) && Signed(|r|, ToNat(r)) == Signed(sz, ToNat(b))
    case ZExtL(sz, width) => |r| == Max(sz, width) && ToNat(r) == ToNat(b)
    case ZExtR(sz, width) => |r| == Max(sz, width) && ToNat(r) == ToNat(b) * Pow2(|r| - sz)
    case Rep(sz, times) => |r| == times * sz && sz == |b| && forall k :: 0 <= k < |r| ==> sz > 0 && r[k] == b[k % sz]
    case Slc(_, offset, width) => |r| == width && ToNat(r) == ToNat(b) / Pow2(offset) % Pow2(width)
    case IgnoreBits(_) => r == []
    case DisplayBits(_) => r == []
  }

  ghost predicate Before(signed: bool, sz: nat, x: Bits, y: Bits) {
    if signed then Signed(sz, ToNat(x)) < Signed(sz, ToNat(y)) else ToNat(x) < ToNat(y)
  }

  /** What a binary primitive has to return. */
  ghost predicate Means2(fn: Fbits2, x: Bits, y: Bits, r: Bits) {
    && |r| == fn.Ret()
    && match fn
       case And(sz) => |x| == |y| == sz && forall k :: 0 <= k < sz ==> (r[k] <==> x[k] && y[k])
       case Or(sz) => |x| == |y| == sz && forall k :: 0 <= k < sz ==> (!r[k] <==> !x[k] && !y[k])
       case Xor(sz) => |x| == |y| == sz && forall k :: 0 <= k < sz ==> (r[k] <==> x[k] != y[k])
       case ShiftL(sz, _) => ToNat(r) == ToNat(x) * Pow2(ToNat(y)) % Pow2(sz)
       case ShiftR(_, _) => ToNat(r) == ToNat(x) / Pow2(ToNat(y))
       case ShiftRA(sz, _) => Signed(sz, ToNat(r)) == Signed(sz, ToNat(x)) / Pow2(ToNat(y))
       case Cat(_, sz2) => ToNat(r) == ToNat(x) * Pow2(sz2) + ToNat(y)
       case Select(_) => ToNat(r) == ToNat(x) / Pow2(ToNat(y)) % 2
       case Subst(sz, offset, width, _) =>
         |x| == sz && |y| == width &&
         forall k :: 0 <= k < sz ==> r[k] == if offset <= k < offset + width then y[k - offset] else x[k]
       case IndexedSlice(_, width) => ToNat(r) == ToNat(x) / Pow2(ToNat(y)) % Pow2(width)
       case Add(sz) => ToNat(r) == (ToNat(x) + ToNat(y)) % Pow2(sz)
       case Sub(sz) => ToNat(r) == (Pow2(sz) + ToNat(x) - ToNat(y)) % Pow2(sz)
       case Times(_, _) => ToNat(r) == ToNat(x) * ToNat(y)
       case EqBits(_, negate) => ToNat(r) == if negate then (if ToNat(x) == ToNat(y) then 0 else 1)
                                                    else (if ToNat(x) == ToNat(y) then 1 else 0)
       case Compare(signed, Lt, sz) => r[0] <==> Before(signed, sz, x, y)
       case Compare(signed, Gt, sz) => r[0] <==> Before(signed, sz, y, x)
       case Compare(signed, Le, sz) => r[0] <==> !Before(signed, sz, y, x)
       case Compare(signed, Ge, sz) => r[0] <==> !Before(signed, sz, x, y)
  }

  lemma {:induction false} Sigma1Means(fn: Fbits1, b: Bits)
    requires |b| == fn.Arg()
    ensures Means1(fn, b, Sigma1(fn, b))
  {
    match fn
    case Not(_) => NotNumber(b);
    case Rev(_) =>
    case SExt(sz, width) =>
      var r := b + Const(Max(sz, width) - sz, Msb(b));
      SignExtended(b, Max(sz, width) - sz);
      ToIntNumber(b);
      ToIntNumber(r);
    case ZExtL(sz, width) => PaddedNumber(b, Max(sz, width) - sz);
    case ZExtR(sz, width) => PaddedNumber(b, Max(sz, width) - sz);
    case Rep(_, times) => RepeatBits(times, b);
    case Slc(_, offset, width) => SliceNumber(offset, width, b);
    case IgnoreBits(_) =>
    case DisplayBits(_) =>
  }

  lemma {:induction false} Sigma2Means(fn: Fbits2, x: Bits, y: Bits)
    requires |x| == fn.Arg1() && |y| == fn.Arg2()
    ensures Means2(fn, x, y, Sigma2(fn, x, y))
  {
    hide ToNat, ToInt, Signed, Pow2, Lsl, Lsr, Asr, Slice, SliceSubst, Plus, Minus, Mul, Sel;
    Sigma2Width(fn, x, y);
    match fn
    case And(_) =>
    case Or(_) =>
    case Xor(_) =>
    case ShiftL(_, _) => LslNumber(ToNat(y), x);
    case ShiftR(_, _) => LsrNumber(ToNat(y), x);
    case ShiftRA(_, _) =>
      AsrNumber(ToNat(y), x);
      ToIntNumber(x);
      ToIntNumber(Asr(ToNat(y), x));
    case Cat(_, _) => JoinNumber(y, x);
    case Select(_) => SelNumber(x, y);
    case Subst(_, offset, width, _) => SliceSubstBits(offset, x, y);
    case IndexedSlice(_, width) => SliceNumber(ToNat(y), width, x);
    case Add(_) => PlusNumber(x, y);
    case Sub(_) => MinusNumber(x, y);
    case Times(_, _) => MulNumber(x, y);
    case EqBits(_, _) => SameNumber(x, y); OneBitNumber(Sigma2(fn, x, y));
    case Compare(_, _, _) => ToIntNumber(x); ToIntNumber(y);
  }

  lemma {:induction false} OneBitNumber(r: Bits)
    requires |r| == 1
    ensures ToNat(r) == if r[0] then 1 else 0
  {
    assert r[1..] == [];
  }

  /** The results of the primitives are the only ones with this meaning. */
  lemma {:induction false} Sigma1Exact(fn: Fbits1, b: Bits, r: Bits)
    requires |b| == fn.Arg()
    ensures Means1(fn, b, r) <==> r == Sigma1(fn, b)
  {
    var s := Sigma1(fn, b);
    Sigma1Means(fn, b);
    if Means1(fn, b, r) {
      assert |r| == |s|;
      SameNumber(r, s);
      if fn.SExt? {
        ToIntNumber(r);
        ToIntNumber(s);
        SameInt(r, s);
      }
    }
  }

  lemma {:induction false} Sigma2Exact(fn: Fbits2, x: Bits, y: Bits, r: Bits)
    requires |x| == fn.Arg1() && |y| == fn.Arg2()
    ensures Means2(fn, x, y, r) <==> r == Sigma2(fn, x, y)
  {
    var s := Sigma2(fn, x, y);
    Sigma2Means(fn, x, y);
    if Means2(fn, x, y, r) {
      assert |r| == |s|;
      SameNumber(r, s);
      if fn.ShiftRA? {
        ToIntNumber(r);
        ToIntNumber(s);
        SameInt(r, s);
      }
    }
  }
}
