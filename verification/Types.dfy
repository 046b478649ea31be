/** Types and their values: bits, enumerations, and structs and arrays nested at will;
    the bits of a value and the value of bits, and where the parts are in the bits. */
module Types {
  import opened BitVectors

  datatype Field = Field(name: string, tau: Type)

  datatype Type =
    | BitsT(sz: nat)
    | EnumT(name: string, sz: nat)
    | StructT(name: string, fields: seq<Field>)
    | ArrayT(elem: Type, len: nat)
  {
    predicate Parted() { StructT? || ArrayT? }

    /** The number of fields or elements. */
    function Count(): nat
      requires Parted()
    {
      if StructT? then |fields| else len
    }

    function Part(i: nat): (t: Type)
      requires Parted() && i < Count()
      ensures t < this
    {
      if StructT? then fields[i].tau else elem
    }
  }

  /** The value of a struct or array is the list of its parts' values. */
  datatype Val = BitsVal(bits: Bits) | Parts(elems: seq<Val>)

  // ----- sizes -----

  /** Multiplication by repeated addition. */
  function RMul(n: nat, sz: nat): nat { if n == 0 then 0 else RMul(n - 1, sz) + sz }

  function SizeOf(t: Type): nat
    decreases t, 1, 0
  {
    match t
    case BitsT(sz) => sz
    case EnumT(_, sz) => sz
    case _ => SizeUpTo(t, t.Count())
  }

  /** The size of the first `n` parts. */
  function SizeUpTo(t: Type, n: nat): nat
    requires t.Parted() && n <= t.Count()
    decreases t, 0, n
  {
    if n == 0 then 0 else SizeUpTo(t, n - 1) + SizeOf(t.Part(n - 1))
  }

  lemma {:induction false} ArraySize(t: Type, n: nat)
    requires t.ArrayT? && n <= t.len
    ensures SizeUpTo(t, n) == RMul(n, SizeOf(t.elem)) == n * SizeOf(t.elem)
    decreases n
  {
    if n > 0 { ArraySize(t, n - 1); }
  }

  lemma {:induction false} SizeGrows(t: Type, n: nat, m: nat)
    requires t.Parted() && n <= m <= t.Count()
    ensures SizeUpTo(t, n) <= SizeUpTo(t, m)
    decreases m
  {
    if n < m { SizeGrows(t, n, m - 1); }
  }

  predicate HasType(v: Val, t: Type)
    decreases t
  {
    match t
    case BitsT(sz) => v.BitsVal? && |v.bits| == sz
    case EnumT(_, sz) => v.BitsVal? && |v.bits| == sz
    case _ => v.Parts? && |v.elems| == t.Count() && forall i :: 0 <= i < t.Count() ==> HasType(v.elems[i], t.Part(i))
  }

  // ----- the bits of a value, the value of bits -----

  /** The first part is the most significant. */
  function BitsOf(v: Val): Bits
    decreases v, 1, 0
  {
    match v
    case BitsVal(b) => b
    case Parts(vs) => BitsUpTo(v, |vs|)
  }

  /** The bits of the first `n` parts. */
  function BitsUpTo(v: Val, n: nat): Bits
    requires v.Parts? && n <= |v.elems|
    decreases v, 0, n
  {
    if n == 0 then [] else Concat(BitsUpTo(v, n - 1), BitsOf(v.elems[n - 1]))
  }

  lemma {:induction false} BitsWidth(v: Val, t: Type)
    requires HasType(v, t)
    ensures |BitsOf(v)| == SizeOf(t)
    decreases t, 1, 0
  {
    if t.Parted() { WidthUpTo(v, t, t.Count()); }
  }

  lemma {:induction false} WidthUpTo(v: Val, t: Type, n: nat)
    requires t.Parted() && HasType(v, t) && n <= t.Count()
    ensures |BitsUpTo(v, n)| == SizeUpTo(t, n)
    decreases t, 0, n
  {
    if n > 0 {
      WidthUpTo(v, t, n - 1);
      BitsWidth(v.elems[n - 1], t.Part(n - 1));
    }
  }

  /** Values with the same first parts have the same first bits. */
  lemma {:induction false} SameUpTo(v: Val, w: Val, n: nat)
    requires v.Parts? && w.Parts? && n <= |v.elems| && n <= |w.elems| && v.elems[..n] == w.elems[..n]
    ensures BitsUpTo(v, n) == BitsUpTo(w, n)
    decreases n
  {
    if n > 0 {
      assert v.elems[..n - 1] == v.elems[..n][..n - 1] && w.elems[..n - 1] == w.elems[..n][..n - 1];
      assert v.elems[n - 1] == v.elems[..n][n - 1] && w.elems[n - 1] == w.elems[..n][n - 1];
      SameUpTo(v, w, n - 1);
    }
  }

  function OfBits(t: Type, b: Bits): (v: Val)
    requires |b| == SizeOf(t)
    ensures HasType(v, t)
    decreases t, 1, 0
  {
    match t
    case BitsT(_) => BitsVal(b)
    case EnumT(_, _) => BitsVal(b)
    case _ => Parts(PartsOfBits(t, t.Count(), b))
  }

  function PartsOfBits(t: Type, n: nat, b: Bits): (vs: seq<Val>)
    requires t.Parted() && n <= t.Count() && |b| == SizeUpTo(t, n)
    ensures |vs| == n && forall i :: 0 <= i < n ==> HasType(vs[i], t.Part(i))
    decreases t, 0, n
  {
    if n == 0 then []
    else
      var sz := SizeOf(t.Part(n - 1));
      PartsOfBits(t, n - 1, b[sz..]) + [OfBits(t.Part(n - 1), b[..sz])]
  }

  // ----- they are inverse -----

  /** Unpacking what was packed gives the value back, at every type. */
  lemma {:induction false} OfBitsOf(v: Val, t: Type)
    requires HasType(v, t)
    ensures |BitsOf(v)| == SizeOf(t) && OfBits(t, BitsOf(v)) == v
    decreases t, 1, 0
  {
    BitsWidth(v, t);
    if t.Parted() {
      PartsOf(v, t, t.Count());
      assert v.elems[..t.Count()] == v.elems;
    }
  }

  lemma {:induction false} PartsOf(v: Val, t: Type, n: nat)
    requires t.Parted() && HasType(v, t) && n <= t.Count()
    ensures |BitsUpTo(v, n)| == SizeUpTo(t, n) && PartsOfBits(t, n, BitsUpTo(v, n)) == v.elems[..n]
    decreases t, 0, n
  {
    hide Concat;
    WidthUpTo(v, t, n);
    if n > 0 {
      var (hi, lo) := (BitsUpTo(v, n - 1), BitsOf(v.elems[n - 1]));
      ConcatParts(hi, lo);
      OfBitsOf(v.elems[n - 1], t.Part(n - 1));
      PartsOf(v, t, n - 1);
      assert v.elems[..n] == v.elems[..n - 1] + [v.elems[n - 1]];
    }
  }

  lemma ConcatParts(hi: Bits, lo: Bits)
    ensures |Concat(hi, lo)| == |hi| + |lo|
    ensures Concat(hi, lo)[|lo|..] == hi && Concat(hi, lo)[..|lo|] == lo
  {
  }

  /** Packing what was unpacked gives the bits back. */
  lemma {:induction false} BitsOfOf(t: Type, b: Bits)
    requires |b| == SizeOf(t)
    ensures BitsOf(OfBits(t, b)) == b
    decreases t, 1, 0
  {
    if t.Parted() { BitsOfParts(t, t.Count(), b); }
  }

  lemma {:induction false} BitsOfParts(t: Type, n: nat, b: Bits)
    requires t.Parted() && n <= t.Count() && |b| == SizeUpTo(t, n)
    ensures BitsUpTo(Parts(PartsOfBits(t, n, b)), n) == b
    decreases t, 0, n
  {
    hide Concat, HasType;
    if n > 0 {
      var sz := SizeOf(t.Part(n - 1));
      var (front, last) := (PartsOfBits(t, n - 1, b[sz..]), OfBits(t.Part(n - 1), b[..sz]));
      BitsOfOf(t.Part(n - 1), b[..sz]);
      BitsOfParts(t, n - 1, b[sz..]);
      assert (front + [last])[..n - 1] == front == front[..n - 1];
      SameUpTo(Parts(front + [last]), Parts(front), n - 1);
      ConcatSplit(b, sz);
    }
  }

  lemma ConcatSplit(b: Bits, sz: nat)
    requires sz <= |b|
    ensures Concat(b[sz..], b[..sz]) == b
  {
  }

  /** Two values of a type are equal exactly when their bits are. */
  lemma {:induction false} SameBits(v: Val, w: Val, t: Type)
    requires HasType(v, t) && HasType(w, t)
    ensures v == w <==> BitsOf(v) == BitsOf(w)
  {
    OfBitsOf(v, t);
    OfBitsOf(w, t);
  }

  // ----- where the parts are -----

  /** The size of the fields from number `i` on. */
  function SizeFrom(t: Type, i: nat): nat
    requires t.Parted() && i <= t.Count()
    decreases t.Count() - i
  {
    if i == t.Count() then 0 else SizeOf(t.Part(i)) + SizeFrom(t, i + 1)
  }

  /** The position of part `i`, counted from the least significant end. */
  function OffsetRight(t: Type, i: nat): nat
    requires t.Parted() && i < t.Count()
  {
    if t.StructT? then SizeFrom(t, i + 1) else RMul(t.len - (i + 1), SizeOf(t.elem))
  }

  lemma {:induction false} SizeSplit(t: Type, i: nat)
    requires t.Parted() && i <= t.Count()
    ensures SizeUpTo(t, i) + SizeFrom(t, i) == SizeOf(t)
    decreases t.Count() - i
  {
    if i < t.Count() { SizeSplit(t, i + 1); }
  }

  lemma {:induction false} RMulCorrect(n: nat, sz: nat)
    ensures RMul(n, sz) == n * sz
    decreases n
  {
    if n > 0 { RMulCorrect(n - 1, sz); }
  }

  lemma {:induction false} OffsetSplit(t: Type, i: nat)
    requires t.Parted() && i < t.Count()
    ensures SizeUpTo(t, i + 1) + OffsetRight(t, i) == SizeOf(t)
  {
    if t.StructT? {
      SizeSplit(t, i + 1);
    } else {
      ArraySize(t, i + 1);
      ArraySize(t, t.len);
      RMulCorrect(t.len - (i + 1), SizeOf(t.elem));
      assert (i + 1) * SizeOf(t.elem) + (t.len - (i + 1)) * SizeOf(t.elem) == t.len * SizeOf(t.elem);
    }
  }

  lemma SliceHigh(hi: Bits, lo: Bits, offset: nat, width: nat)
    ensures Slice(offset + |lo|, width, Concat(hi, lo)) == Slice(offset, width, hi)
  {
  }

  lemma {:induction false} PartAt(v: Val, t: Type, i: nat, n: nat)
    requires t.Parted() && HasType(v, t) && i < n <= t.Count()
    ensures SizeUpTo(t, i + 1) <= SizeUpTo(t, n)
    ensures Slice(SizeUpTo(t, n) - SizeUpTo(t, i + 1), SizeOf(t.Part(i)), BitsUpTo(v, n)) == BitsOf(v.elems[i])
    decreases n
  {
    hide Slice, Concat;
    var (hi, lo) := (BitsUpTo(v, n - 1), BitsOf(v.elems[n - 1]));
    BitsWidth(v.elems[n - 1], t.Part(n - 1));
    if i == n - 1 {
      SliceConcat(hi, lo);
    } else {
      PartAt(v, t, i, n - 1);
      SliceHigh(hi, lo, SizeUpTo(t, n - 1) - SizeUpTo(t, i + 1), SizeOf(t.Part(i)));
    }
  }

  /** Part `i` of a value is the slice at its offset. */
  lemma {:induction false} PartSlice(v: Val, t: Type, i: nat)
    requires t.Parted() && HasType(v, t) && i < t.Count()
    ensures Slice(OffsetRight(t, i), SizeOf(t.Part(i)), BitsOf(v)) == BitsOf(v.elems[i])
  {
    hide Slice;
    OffsetSplit(t, i);
    PartAt(v, t, i, t.Count());
  }

  lemma SubstLow(hi: Bits, lo: Bits, x: Bits)
    requires |x| == |lo|
    ensures SliceSubst(0, |x|, Concat(hi, lo), x) == Concat(hi, x)
  {
  }

  lemma {:induction false} SubstHigh(hi: Bits, lo: Bits, offset: nat, x: Bits)
    ensures SliceSubst(offset + |lo|, |x|, Concat(hi, lo), x) == Concat(SliceSubst(offset, |x|, hi, x), lo)
  {
    hide SliceSubst;
    SliceSubstBits(offset + |lo|, Concat(hi, lo), x);
    SliceSubstBits(offset, hi, x);
  }

  lemma {:induction false} SubstAt(v: Val, t: Type, i: nat, x: Val, n: nat)
    requires t.Parted() && HasType(v, t) && i < n <= t.Count() && HasType(x, t.Part(i))
    ensures SizeUpTo(t, i + 1) <= SizeUpTo(t, n)
    ensures SliceSubst(SizeUpTo(t, n) - SizeUpTo(t, i + 1), SizeOf(t.Part(i)), BitsUpTo(v, n), BitsOf(x)) ==
            BitsUpTo(Parts(v.elems[i := x]), n)
    decreases n
  {
    hide SliceSubst, Concat;
    var w := Parts(v.elems[i := x]);
    var (hi, lo) := (BitsUpTo(v, n - 1), BitsOf(v.elems[n - 1]));
    BitsWidth(v.elems[n - 1], t.Part(n - 1));
    BitsWidth(x, t.Part(i));
    if i == n - 1 {
      assert w.elems[..n - 1] == v.elems[..n - 1];
      SameUpTo(v, w, n - 1);
      SubstLow(hi, lo, BitsOf(x));
    } else {
      SubstAt(v, t, i, x, n - 1);
      SubstHigh(hi, lo, SizeUpTo(t, n - 1) - SizeUpTo(t, i + 1), BitsOf(x));
    }
  }

  /** Replacing that slice replaces the part, and nothing else. */
  lemma {:induction false} PartSubst(v: Val, t: Type, i: nat, x: Val)
    requires t.Parted() && HasType(v, t) && i < t.Count() && HasType(x, t.Part(i))
    ensures SliceSubst(OffsetRight(t, i), SizeOf(t.Part(i)), BitsOf(v), BitsOf(x)) == BitsOf(Parts(v.elems[i := x]))
    ensures HasType(Parts(v.elems[i := x]), t)
  {
    hide SliceSubst;
    OffsetSplit(t, i);
    SubstAt(v, t, i, x, t.Count());
  }
}
