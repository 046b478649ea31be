/** Binary output of bit vectors, and reading it back. */
module Printing {
  import opened BitVectors
  import opened Slices

  datatype Prefix = Sized | Plain | Minimal

  function Digit(d: nat): char
    requires d < 10
  {
    "0123456789"[d]
  }

  /** A number in decimal, as a stream prints it. */
  function Decimal(n: nat): (s: string)
    ensures |s| > 0
  {
    if n < 10 then [Digit(n)] else Decimal(n / 10) + [Digit(n % 10)]
  }

  function BitChar(b: bool): char { if b then '1' else '0' }

  /** All bits, the most significant first. */
  function Digits(b: Bits): string { seq(|b|, k requires 0 <= k < |b| => BitChar(b[|b| - 1 - k])) }

  /** What is printed before the digits. */
  function Header(sz: nat, prefix: Prefix): string {
    match prefix
    case Sized => Decimal(sz) + "'b"
    case Plain => "0b"
    case Minimal => "b"
  }

  /** The printed form; zero is shortened to one digit. */
  function Printed(b: Bits, prefix: Prefix): string {
    Header(|b|, prefix) + if b == Zeroes(|b|) then "0" else Digits(b)
  }

  lemma NextDigit(b: Bits, n: nat)
    requires n < |b|
    ensures Digits(b)[..n + 1] == Digits(b)[..n] + [BitChar(b[|b| - 1 - n])]
  {
  }

  /** Shifting a bit down to position 0 and truncating selects it. */
  lemma ShiftedBit(b: Bits, n: nat)
    requires n < |b|
    ensures Single(Take(1, Lsr(n, b))) == b[n]
  {
    LsrBits(n, b);
  }

  lemma HeaderParts(sz: nat, prefix: Prefix)
    ensures (if prefix == Sized then Decimal(sz) + "'" else "") + (if prefix == Plain then "0b" else "b") == Header(sz, prefix)
  {
    if prefix == Sized { assert (Decimal(sz) + "'") + "b" == Decimal(sz) + "'b"; }
  }

  method Format(val: Bits, prefix: Prefix) returns (os: string)
    ensures os == Printed(val, prefix)
  {
    hide Decimal, Header, Take, Lsr;
    os := "";
    if prefix == Sized { os := Decimal(|val|) + "'"; }
    os := os + (if prefix == Plain then "0b" else "b");
    HeaderParts(|val|, prefix);
    if val == Zeroes(|val|) {
      os := os + "0";
    } else {
      var pos: nat := |val|;
      ghost var header := os;
      while pos > 0
        invariant pos <= |val|
        invariant os == header + Digits(val)[..|val| - pos]
      {
        ShiftedBit(val, pos - 1);
        NextDigit(val, |val| - pos);
        var bit := Single(Take(1, Lsr(pos - 1, val)));
        os := os + [BitChar(bit)];
        pos := pos - 1;
      }
      assert Digits(val)[..|val|] == Digits(val);
    }
  }

  /** The bits that a string stands for: its last `sz` characters, '1' for a set bit. */
  function Parsed(sz: nat, s: string): Bits {
    seq(sz, k requires 0 <= k < sz => k < |s| && s[|s| - 1 - k] == '1')
  }

  /** Ors in one bit for each '1' among the last `sz` characters. */
  method OfStr(sz: nat, s: string) returns (out: Bits)
    ensures out == Parsed(sz, s)
  {
    out := Zeroes(sz);
    var pos := Max(|s|, sz) - sz;
    while pos < |s|
      invariant Max(|s|, sz) - sz <= pos <= |s| && |out| == sz
      invariant forall k :: 0 <= k < sz ==> out[k] == (|s| - pos <= k < |s| && s[|s| - 1 - k] == '1')
    {
      if s[pos] == '1' {
        var one := OfNat(sz, 1);
        OneIsBit0(sz);
        LslBits(|s| - pos - 1, one);
        out := BitOr(out, Lsl(|s| - pos - 1, one));
      }
      pos := pos + 1;
    }
  }

  lemma {:induction false} OneIsBit0(sz: nat)
    ensures forall k :: 0 <= k < sz ==> OfNat(sz, 1)[k] == (k == 0)
  {
    if sz > 0 { ZeroHasNoBits(sz - 1); }
  }

  lemma {:induction false} ZeroHasNoBits(sz: nat)
    ensures forall k :: 0 <= k < sz ==> !OfNat(sz, 0)[k]
    decreases sz
  {
    if sz > 0 { ZeroHasNoBits(sz - 1); }
  }

  /** Numbers of two digits or more are longer than their own digits need. */
  lemma {:induction false} DecimalShort(n: nat)
    requires n >= 10
    ensures |Decimal(n)| + 3 <= n
    decreases n
  {
    if n >= 100 {
      DecimalShort(n / 10);
    } else {
      assert |Decimal(n / 10)| == 1;
    }
  }

  lemma DecimalOneDigit(n: nat)
    requires n < 10
    ensures '1' in Decimal(n) <==> n == 1
  {
  }

  /** A value other than zero is read back as it was, whatever the prefix. */
  lemma DigitsReadBack(b: Bits, header: string)
    ensures Parsed(|b|, header + Digits(b)) == b
  {
    var s, d := header + Digits(b), Digits(b);
    forall k | 0 <= k < |b| ensures Parsed(|b|, s)[k] == b[k] {
      var p := |b| - 1 - k;
      assert s[|header| + p] == d[p] == BitChar(b[|b| - 1 - p]);
    }
  }

  /** Where reading starts: at the last `sz` characters. */
  function Start(sz: nat, s: string): nat { Max(|s|, sz) - sz }

  /** A string stands for zero exactly when no '1' is in reach. */
  lemma ParsedZero(sz: nat, s: string)
    ensures Parsed(sz, s) == Zeroes(sz) <==> forall p :: Start(sz, s) <= p < |s| ==> s[p] != '1'
  {
    var b := Parsed(sz, s);
    if forall p :: Start(sz, s) <= p < |s| ==> s[p] != '1' {
      assert b == Zeroes(sz);
    } else {
      var p :| Start(sz, s) <= p < |s| && s[p] == '1';
      assert b[|s| - 1 - p] && !Zeroes(sz)[|s| - 1 - p];
    }
  }

  /** Zero printed with its size: the digits of a large size are read as bits. */
  lemma SizedZero(sz: nat)
    ensures Parsed(sz, Decimal(sz) + "'b" + "0") == Zeroes(sz) <==> !(sz >= 10 && '1' in Decimal(sz))
  {
    hide Parsed, Zeroes;
    var d := Decimal(sz);
    var s := d + "'b" + "0";
    ParsedZero(sz, s);
    assert |s| == |d| + 3 && s[..|d|] == d && s[|d|] == '\'' && s[|d| + 1] == 'b' && s[|d| + 2] == '0';
    assert forall p :: 0 <= p < |d| ==> s[p] == d[p];
    if sz < 10 {
      DecimalOneDigit(sz);
      assert |d| == 1;
    } else {
      DecimalShort(sz);
      if '1' in d {
        var p :| 0 <= p < |d| && d[p] == '1';
        assert s[p] == '1';
      }
    }
  }

  /** Printing and reading back is the identity on every value and with every
      prefix, with one exception: zero printed with its size, when the size is at
      least 10 and its own decimal digits contain a 1. */
  lemma RoundTrip(b: Bits, prefix: Prefix)
    ensures Parsed(|b|, Printed(b, prefix)) == b <==>
            !(prefix == Sized && b == Zeroes(|b|) && |b| >= 10 && '1' in Decimal(|b|))
  {
    hide Parsed, Decimal;
    if b != Zeroes(|b|) {
      DigitsReadBack(b, Header(|b|, prefix));
    } else if prefix == Sized {
      SizedZero(|b|);
    } else {
      ParsedZero(|b|, Printed(b, prefix));
    }
  }

  /** Sixteen zero bits print as 16'b0, which reads back with bit 4 set. */
  lemma {:induction false} SixteenZeroes()
    ensures Printed(Zeroes(16), Sized) == "16'b0" && Parsed(16, "16'b0")[4]
  {
    assert Decimal(1) == "1";
    assert Decimal(16) == "1" + "6";
  }

  // ----- decimal numbers -----

  predicate IsDigit(c: char) { '0' <= c <= '9' }

  function DigitValue(c: char): nat
    requires IsDigit(c)
  {
    c as nat - '0' as nat
  }

  /** The number that a string of digits stands for. */
  function Number(s: string): nat
    requires forall k :: 0 <= k < |s| ==> IsDigit(s[k])
  {
    if s == [] then 0 else 10 * Number(s[..|s| - 1]) + DigitValue(s[|s| - 1])
  }

  /** Digits, without a zero in front of others. */
  predicate Canonical(s: string) {
    |s| > 0 && (forall k :: 0 <= k < |s| ==> IsDigit(s[k])) && (|s| > 1 ==> s[0] != '0')
  }

  lemma DigitOf(d: nat)
    requires d < 10
    ensures IsDigit(Digit(d)) && DigitValue(Digit(d)) == d && (Digit(d) == '0' <==> d == 0)
  {
  }

  lemma DigitBack(c: char)
    requires IsDigit(c)
    ensures DigitValue(c) < 10 && Digit(DigitValue(c)) == c
  {
  }

  /** A printed number reads back, and is printed without leading zeroes. */
  lemma {:induction false} DecimalReadsBack(n: nat)
    ensures Canonical(Decimal(n)) && Number(Decimal(n)) == n && (n > 0 ==> Decimal(n)[0] != '0')
    decreases n
  {
    hide Digit;
    DigitOf(n % 10);
    if n < 10 {
      DigitOf(n);
      assert Decimal(n) == [Digit(n)] && Decimal(n)[..0] == "";
    } else {
      var s := Decimal(n / 10);
      DecimalReadsBack(n / 10);
      assert Decimal(n) == s + [Digit(n % 10)] && Decimal(n)[..|s|] == s;
    }
  }

  lemma {:induction false} NonzeroNumber(s: string)
    requires Canonical(s) && s[0] != '0'
    ensures Number(s) > 0
    decreases |s|
  {
    if |s| == 1 {
      assert s[..0] == "";
    } else {
      NonzeroNumber(s[..|s| - 1]);
    }
  }

  /** Every such text is the printed form of its number, so no other text of digits is. */
  lemma {:induction false} NumberPrintsBack(s: string)
    requires Canonical(s)
    ensures Decimal(Number(s)) == s
    decreases |s|
  {
    hide Digit;
    var (t, c) := (s[..|s| - 1], s[|s| - 1]);
    DigitBack(c);
    assert s == t + [c];
    if t != "" {
      NonzeroNumber(t);
      NumberPrintsBack(t);
      LastDigit(Number(t), DigitValue(c));
    }
  }

  lemma LastDigit(q: nat, d: nat)
    requires d < 10
    ensures (10 * q + d) / 10 == q && (10 * q + d) % 10 == d
  {
    DivModUnique(10 * q + d, 10, q, d);
  }

  lemma {:induction false} ThreeDigits(b: Bits)
    requires |b| == 3
    ensures Digits(b) == [BitChar(b[2]), BitChar(b[1]), BitChar(b[0])]
  {
  }

  /** Five, in the three forms. */
  lemma {:induction false} FiveInBinary()
    ensures Printed([true, false, true], Sized) == "3'b101"
    ensures Printed([true, false, true], Plain) == "0b101" && Printed([true, false, true], Minimal) == "b101"
  {
    var b := [true, false, true];
    assert b[0] != Zeroes(3)[0];
    ThreeDigits(b);
    assert Decimal(3) == "3";
    assert "3" + "'b" == "3'b";
  }
}
