/** Bit-slice replacement as the simulator computes it, with masks. */
module Slices {
  import opened BitVectors

  /** Zero-extension to a width that is large enough. */
  function Widen(b: Bits, width: nat): Bits
    requires |b| <= width
  {
    ExtendEnd(b, width, false)
  }

  /** Mask out, then or in; callers guarantee that the replacement is not wider. */
  function MaskSubst(offset: nat, data: Bits, repl: Bits): Bits
    requires |repl| <= |data|
  {
    var mask := BitNot(Lsl(offset, Widen(Ones(|repl|), |data|)));
    BitOr(BitAnd(data, mask), Lsl(offset, Widen(repl, |data|)))
  }

  lemma {:induction false} LslBits(n: nat, b: Bits)
    ensures forall k :: 0 <= k < |b| ==> Lsl(n, b)[k] == (k >= n && b[k - n])
    decreases n
  {
    if n > 0 {
      LslBits(n - 1, Lsl1(b));
      forall k | 0 <= k < |b| ensures Lsl(n, b)[k] == (k >= n && b[k - n]) {
        if k >= n {
          assert Lsl1(b)[k - (n - 1)] == b[k - n];
        }
      }
    }
  }

  lemma {:induction false} LsrBits(n: nat, b: Bits)
    ensures forall k :: 0 <= k < |b| ==> Lsr(n, b)[k] == (k + n < |b| && b[k + n])
    decreases n
  {
    if n > 0 {
      LsrBits(n - 1, Lsr1(b));
      forall k | 0 <= k < |b| ensures Lsr(n, b)[k] == (k + n < |b| && b[k + n]) {
        if k + n < |b| {
          assert Lsr1(b)[k + (n - 1)] == b[k + n];
        } else if k + (n - 1) < |b| {
          assert !Lsr1(b)[k + (n - 1)];
        }
      }
    }
  }

  /** The masked form replaces exactly the slice, at every offset, including slices
      that hang over the end or start past it. */
  lemma {:induction false} MaskSubstCorrect(offset: nat, data: Bits, repl: Bits)
    requires |repl| <= |data|
    ensures MaskSubst(offset, data, repl) == SliceSubst(offset, |repl|, data, repl)
  {
    hide SliceSubst;
    var ones, wide := Widen(Ones(|repl|), |data|), Widen(repl, |data|);
    LslBits(offset, ones);
    LslBits(offset, wide);
    SliceSubstBits(offset, data, repl);
    forall k | 0 <= k < |data|
      ensures MaskSubst(offset, data, repl)[k] == SliceSubst(offset, |repl|, data, repl)[k]
    {
      if offset <= k {
        assert ones[k - offset] == (k - offset < |repl|);
        assert wide[k - offset] == (k - offset < |repl| && repl[k - offset]);
      }
    }
  }

  /** Replacement as slices put side by side, in two cases. */
  function SliceSubstImpl(offset: nat, data: Bits, repl: Bits): Bits {
    if offset <= |data| then
      Slice(0, offset, data) +
      (if |repl| <= |data| - offset
       then repl + Slice(offset + |repl|, |data| - offset - |repl|, data)
       else Slice(0, |data| - offset, repl))
    else data
  }

  lemma {:induction false} SliceSubstImplCorrect(offset: nat, data: Bits, repl: Bits)
    ensures SliceSubstImpl(offset, data, repl) == SliceSubst(offset, |repl|, data, repl)
  {
  }

  lemma SliceBits(offset: nat, width: nat, b: Bits)
    ensures |Slice(offset, width, b)| == width
    ensures forall k :: 0 <= k < width ==> Slice(offset, width, b)[k] == (offset + k < |b| && b[offset + k])
  {
  }

  /** Reading back the slice just written gives what was written, as far as it lies
      inside the vector, and disjoint slices are untouched. */
  lemma {:induction false} SliceOfSubst(offset: nat, data: Bits, repl: Bits, offset': nat, width': nat)
    ensures offset + |repl| <= |data| ==> Slice(offset, |repl|, SliceSubst(offset, |repl|, data, repl)) == repl
    ensures offset' + width' <= offset || offset + |repl| <= offset' ==>
              Slice(offset', width', SliceSubst(offset, |repl|, data, repl)) == Slice(offset', width', data)
  {
    hide SliceSubst, Slice;
    var b := SliceSubst(offset, |repl|, data, repl);
    SliceSubstBits(offset, data, repl);
    SliceBits(offset, |repl|, b);
    SliceBits(offset', width', b);
    SliceBits(offset', width', data);
  }
}
