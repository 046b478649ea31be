/** Packing values into bit vectors and back with shifts: the runtime's loops over
    array elements, and the statements emitted for the fields of a struct. */
module Packing {
  import opened BitVectors
  import opened Slices
  import opened Types

  /** Making room for one part and or-ing it in, in a vector wide enough. */
  lemma {:induction false} ShiftAndOr(b: Bits, x: Bits, width: nat)
    requires |b| + |x| <= width
    ensures BitOr(Lsl(|x|, Widen(b, width)), Widen(x, width)) == Widen(Concat(b, x), width)
  {
    LslBits(|x|, Widen(b, width));
    hide Lsl;
    var z, y := BitOr(Lsl(|x|, Widen(b, width)), Widen(x, width)), Widen(Concat(b, x), width);
    forall k | 0 <= k < width ensures z[k] == y[k] {
      assert k >= |x| ==> Widen(b, width)[k - |x|] == (k < |x| + |b| && b[k - |x|]);
    }
    assert z == y;
  }

  /** Or-ing into nothing needs no room. */
  lemma {:induction false} OrIntoZeroes(x: Bits, width: nat)
    requires |x| <= width
    ensures BitOr(Widen([], width), Widen(x, width)) == Widen(Concat([], x), width)
  {
    assert Concat([], x) == x;
  }

  /** Shifting parts out leaves the ones before them. */
  lemma {:induction false} ShiftOut(b: Bits, n: nat, sz: nat, width: nat)
    requires n + sz <= |b| <= width
    ensures Lsr(n, Widen(b, width)) == Widen(b[n..], width) && Take(sz, Widen(b[n..], width)) == b[n..][..sz]
  {
    LsrBits(n, Widen(b, width));
  }

  lemma {:induction false} PartsUpTo(v: Val, t: Type, pos: nat)
    requires t.Parted() && HasType(v, t) && pos < t.Count()
    ensures BitsUpTo(v, pos + 1) == Concat(BitsUpTo(v, pos), BitsOf(v.elems[pos]))
    ensures |BitsOf(v.elems[pos])| == SizeOf(t.Part(pos))
    ensures |BitsUpTo(v, pos)| + SizeOf(t.Part(pos)) == |BitsUpTo(v, pos + 1)| <= SizeOf(t)
  {
    hide HasType;
    WidthUpTo(v, t, pos);
    WidthUpTo(v, t, pos + 1);
    BitsWidth(v.elems[pos], t.Part(pos)) by { assert HasType(v.elems[pos], t.Part(pos)) by { PartHasType(v, t, pos); } }
    SizeGrows(t, pos + 1, t.Count());
  }

  lemma PartHasType(v: Val, t: Type, i: nat)
    requires t.Parted() && HasType(v, t) && i < t.Count()
    ensures v.Parts? && i < |v.elems| && HasType(v.elems[i], t.Part(i))
  {
  }

  lemma {:induction false} PackRound(v: Val, t: Type, pos: nat, packed: Bits, x: Bits)
    requires t.Parted() && HasType(v, t) && pos < t.Count() && |BitsUpTo(v, pos)| <= SizeOf(t)
    requires packed == Widen(BitsUpTo(v, pos), SizeOf(t)) && x == BitsOf(v.elems[pos])
    ensures |x| <= SizeOf(t) && |BitsUpTo(v, pos + 1)| <= SizeOf(t)
    ensures BitOr(Lsl(SizeOf(t.Part(pos)), packed), Widen(x, SizeOf(t))) == Widen(BitsUpTo(v, pos + 1), SizeOf(t))
    ensures pos == 0 ==> BitOr(packed, Widen(x, SizeOf(t))) == Widen(BitsUpTo(v, pos + 1), SizeOf(t))
  {
    hide Widen, BitOr, Lsl, HasType, Concat;
    PartHasType(v, t, pos);
    PartsUpTo(v, t, pos);
    ShiftAndOr(BitsUpTo(v, pos), x, SizeOf(t));
    if pos == 0 { OrIntoZeroes(x, SizeOf(t)); }
  }

  lemma PackStarts(v: Val, t: Type)
    requires t.Parted() && HasType(v, t)
    ensures Zeroes(SizeOf(t)) == Widen(BitsUpTo(v, 0), SizeOf(t))
  {
  }

  lemma PackEnds(v: Val, t: Type)
    requires t.Parted() && HasType(v, t)
    ensures |BitsUpTo(v, t.Count())| <= SizeOf(t) && Widen(BitsUpTo(v, t.Count()), SizeOf(t)) == BitsOf(v)
  {
    WidthUpTo(v, t, t.Count());
  }

  method Pack(t: Type, v: Val) returns (packed: Bits)
    requires HasType(v, t)
    ensures packed == BitsOf(v)
    decreases t
  {
    hide Widen, BitOr, Lsl;
    match t
    case BitsT(_) => packed := v.bits;
    case EnumT(_, _) => packed := v.bits;
    case ArrayT(elem, len) =>
      packed := Zeroes(SizeOf(t));
      PackStarts(v, t);
      var pos := 0;
      while pos < len
        invariant pos <= len && |BitsUpTo(v, pos)| <= SizeOf(t)
        invariant packed == Widen(BitsUpTo(v, pos), SizeOf(t))
      {
        var x := Pack(elem, v.elems[pos]);
        PackRound(v, t, pos, packed, x);
        packed := Lsl(SizeOf(elem), packed);
        packed := BitOr(packed, Widen(x, SizeOf(t)));
        pos := pos + 1;
      }
      PackEnds(v, t);
    case StructT(_, fields) =>
      packed := Zeroes(SizeOf(t));
      PackStarts(v, t);
      var idx := 0;
      while idx < |fields|
        invariant idx <= |fields| && |BitsUpTo(v, idx)| <= SizeOf(t)
        invariant packed == Widen(BitsUpTo(v, idx), SizeOf(t))
      {
        assert t.Part(idx) < t;
        var x := Pack(fields[idx].tau, v.elems[idx]);
        PackRound(v, t, idx, packed, x);
        if idx != 0 { packed := Lsl(SizeOf(fields[idx].tau), packed); }
        packed := BitOr(packed, Widen(x, SizeOf(t)));
        idx := idx + 1;
      }
      PackEnds(v, t);
  }

  // ----- unpacking -----

  lemma DropTwice(b: Bits, x: nat, y: nat)
    requires x + y <= |b|
    ensures b[x..][y..] == b[x + y..]
  {
  }

  /** Part `k` comes from the bits above all later parts. */
  lemma {:induction false} PartOfBits(t: Type, n: nat, b: Bits, k: nat)
    requires t.Parted() && k < n <= t.Count() && |b| == SizeUpTo(t, n)
    ensures SizeUpTo(t, k + 1) <= SizeUpTo(t, n)
    ensures var off := SizeUpTo(t, n) - SizeUpTo(t, k + 1);
            && off + SizeOf(t.Part(k)) <= |b|
            && PartsOfBits(t, n, b)[k] == OfBits(t.Part(k), b[off..][..SizeOf(t.Part(k))])
    decreases n
  {
    hide OfBits, HasType;
    SizeGrows(t, k + 1, n);
    var sz := SizeOf(t.Part(n - 1));
    if k < n - 1 {
      PartOfBits(t, n - 1, b[sz..], k);
      DropTwice(b, sz, SizeUpTo(t, n - 1) - SizeUpTo(t, k + 1));
    } else {
      assert b[0..] == b;
    }
  }

  /** What is truncated out of the shifted bits is the part's. */
  lemma {:induction false} UnpackRound(t: Type, b: Bits, k: nat)
    requires t.Parted() && |b| == SizeOf(t) && k < t.Count()
    ensures var (sz, off) := (SizeOf(t.Part(k)), OffsetRight(t, k));
            && off + sz <= |b|
            && Lsr(off, b) == Widen(b[off..], |b|)
            && |Take(sz, Widen(b[off..], |b|))| == sz
            && PartsOfBits(t, t.Count(), b)[k] == OfBits(t.Part(k), Take(sz, Widen(b[off..], |b|)))
  {
    hide OfBits, HasType, PartsOfBits, Widen, Lsr, Take;
    OffsetSplit(t, k);
    PartOfBits(t, t.Count(), b, k);
    ShiftOut(b, OffsetRight(t, k), SizeOf(t.Part(k)), |b|);
    WidenSame(b);
  }

  lemma WidenSame(b: Bits)
    ensures Widen(b, |b|) == b && Widen(b[0..], |b|) == b
  {
  }

  /** One more element shifted out of an array's bits. */
  lemma {:induction false} NextElement(t: Type, b: Bits, pos: nat)
    requires t.ArrayT? && |b| == SizeOf(t) && pos < t.len
    ensures var sz := SizeOf(t.elem);
            && OffsetRight(t, t.len - 1 - pos) == RMul(pos, sz) && RMul(pos + 1, sz) <= |b|
            && Lsr(sz, Widen(b[RMul(pos, sz)..], |b|)) == Widen(b[RMul(pos + 1, sz)..], |b|)
  {
    hide Widen, Lsr, Take;
    var sz := SizeOf(t.elem);
    ArraySize(t, pos);
    ArraySize(t, pos + 1);
    SizeGrows(t, pos + 1, t.len);
    ShiftOut(b[RMul(pos, sz)..], sz, 0, |b|);
    DropTwice(b, RMul(pos, sz), sz);
  }

  method Unpack(t: Type, b: Bits) returns (v: Val)
    requires |b| == SizeOf(t)
    ensures v == OfBits(t, b)
    decreases t, 1
  {
    match t
    case BitsT(_) => v := BitsVal(b);
    case EnumT(_, _) => v := BitsVal(b);
    case ArrayT(_, _) => v := UnpackArray(t, b);
    case StructT(_, _) => v := UnpackStruct(t, b);
  }

  method UnpackArray(t: Type, b: Bits) returns (v: Val)
    requires t.ArrayT? && |b| == SizeOf(t)
    ensures v == OfBits(t, b)
    decreases t, 0
  {
    hide Widen, Lsr, Take, HasType, PartsOfBits;
    var elem, len, sz, bs := t.elem, t.len, SizeOf(t.elem), b;
    var unpacked := new Val[len](_ => BitsVal([]));
    var pos := 0;
    WidenSame(b);
    while pos < len
      invariant pos <= len && RMul(pos, sz) <= |b|
      invariant bs == Widen(b[RMul(pos, sz)..], |b|)
      invariant forall k :: len - pos <= k < len ==> unpacked[k] == PartsOfBits(t, len, b)[k]
    {
      UnpackRound(t, b, len - 1 - pos);
      NextElement(t, b, pos);
      var x := Unpack(elem, Take(sz, bs));
      unpacked[len - 1 - pos] := x;
      bs := Lsr(sz, bs);
      pos := pos + 1;
    }
    v := Parts(unpacked[..]);
    assert unpacked[..] == PartsOfBits(t, len, b);
  }

  method UnpackStruct(t: Type, b: Bits) returns (v: Val)
    requires t.StructT? && |b| == SizeOf(t)
    ensures v == OfBits(t, b)
    decreases t, 0
  {
    hide Widen, Lsr, Take, HasType, PartsOfBits;
    var fields, n := t.fields, |t.fields|;
    var unpacked := new Val[n](_ => BitsVal([]));
    var idx, offset := n, 0;
    while idx > 0
      invariant idx <= n && offset == SizeFrom(t, idx)
      invariant forall k :: idx <= k < n ==> unpacked[k] == PartsOfBits(t, n, b)[k]
    {
      idx := idx - 1;
      UnpackRound(t, b, idx);
      assert t.Part(idx) < t;
      var x := Unpack(fields[idx].tau, Take(SizeOf(fields[idx].tau), Lsr(offset, b)));
      unpacked[idx] := x;
      offset := offset + SizeOf(fields[idx].tau);
    }
    v := Parts(unpacked[..]);
    assert unpacked[..] == PartsOfBits(t, n, b);
  }
}
