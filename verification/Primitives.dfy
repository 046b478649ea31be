/** The combinational primitives, with their operand and result widths. */
module Primitives {
  import opened BitVectors

  datatype Comparison = Lt | Gt | Le | Ge

  datatype Fbits1 =
    | Not(sz: nat)
    | Rev(sz: nat)
    | SExt(sz: nat, width: nat)
    | ZExtL(sz: nat, width: nat)
    | ZExtR(sz: nat, width: nat)
    | Rep(sz: nat, times: nat)
    | Slc(sz: nat, offset: nat, width: nat)
    | IgnoreBits(sz: nat)
    | DisplayBits(sz: nat)
  {
    /** Width of the operand. */
    function Arg(): nat { sz }

    /** Width of the result. */
    function Ret(): nat {
      match this
      case Not(_) => sz
      case Rev(_) => sz
      case SExt(_, _) => Max(sz, width)
      case ZExtL(_, _) => Max(sz, width)
      case ZExtR(_, _) => Max(sz, width)
      case Rep(_, _) => times * sz
      case Slc(_, _, _) => width
      case IgnoreBits(_) => 0
      case DisplayBits(_) => 0
    }
  }

  /** `field` marks the replacement of a struct's field; it means what any replacement
      of a slice means. */
  datatype Fbits2 =
    | And(sz: nat)
    | Or(sz: nat)
    | Xor(sz: nat)
    | ShiftL(sz: nat, shiftSz: nat)
    | ShiftR(sz: nat, shiftSz: nat)
    | ShiftRA(sz: nat, shiftSz: nat)
    | Cat(sz: nat, sz2: nat)
    | Select(sz: nat)
    | Subst(sz: nat, offset: nat, width: nat, field: bool)
    | IndexedSlice(sz: nat, width: nat)
    | Add(sz: nat)
    | Sub(sz: nat)
    | Times(sz: nat, sz2: nat)
    | EqBits(sz: nat, negate: bool)
    | Compare(signed: bool, cmp: Comparison, sz: nat)
  {
    /** Width of the first operand. */
    function Arg1(): nat { sz }

    /** Width of the second operand. */
    function Arg2(): nat {
      match this
      case ShiftL(_, _) => shiftSz
      case ShiftR(_, _) => shiftSz
      case ShiftRA(_, _) => shiftSz
      case Cat(_, _) => sz2
      case Select(_) => Log2Up(sz)
      case Subst(_, _, _, _) => width
      case IndexedSlice(_, _) => Log2Up(sz)
      case Times(_, _) => sz2
      case _ => sz
    }

    /** Width of the result. */
    function Ret(): nat {
      match this
      case Cat(_, _) => sz2 + sz
      case Select(_) => 1
      case IndexedSlice(_, _) => width
      case Times(_, _) => sz + sz2
      case EqBits(_, _) => 1
      case Compare(_, _, _) => 1
      case _ => sz
    }
  }

  function Sigma1(fn: Fbits1, b: Bits): Bits {
    match fn
    case Not(_) => BitNot(b)
    case Rev(_) => Reverse(b)
    case SExt(_, width) => ExtendEnd(b, width, Msb(b))
    case ZExtL(_, width) => ExtendEnd(b, width, false)
    case ZExtR(_, width) => ExtendBeginning(b, width, false)
    case Rep(_, times) => Repeat(times, b)
    case Slc(_, offset, width) => Slice(offset, width, b)
    case IgnoreBits(_) => []
    case DisplayBits(_) => []
  }

  predicate Compared(cmp: Comparison, x: int, y: int) {
    match cmp
    case Lt => x < y
    case Gt => x > y
    case Le => x <= y
    case Ge => x >= y
  }

  function Sigma2(fn: Fbits2, x: Bits, y: Bits): Bits {
    match fn
    case And(_) => BitAnd(x, y)
    case Or(_) => BitOr(x, y)
    case Xor(_) => BitXor(x, y)
    case ShiftL(_, _) => Lsl(ToNat(y), x)
    case ShiftR(_, _) => Lsr(ToNat(y), x)
    case ShiftRA(_, _) => Asr(ToNat(y), x)
    case Cat(_, _) => Concat(x, y)
    case Select(_) => Sel(x, y)
    case Subst(_, offset, width, _) => SliceSubst(offset, width, x, y)
    case IndexedSlice(_, width) => Slice(ToNat(y), width, x)
    case Add(_) => Plus(x, y)
    case Sub(_) => Minus(x, y)
    case Times(_, _) => Mul(x, y)
    case EqBits(_, negate) => [(x == y) != negate]
    case Compare(signed, cmp, _) =>
      if signed then [Compared(cmp, ToInt(x), ToInt(y))]
      else [Compared(cmp, ToNat(x), ToNat(y))]
  }

  lemma Sigma1Width(fn: Fbits1, b: Bits)
    requires |b| == fn.Arg()
    ensures |Sigma1(fn, b)| == fn.Ret()
  {
  }

  lemma Sigma2Width(fn: Fbits2, x: Bits, y: Bits)
    requires |x| == fn.Arg1() && |y| == fn.Arg2()
    ensures |Sigma2(fn, x, y)| == fn.Ret()
  {
  }
}
