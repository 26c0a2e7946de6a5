/**
 * The integer operators of the two layers over one signed 32-bit type: the C
 * operators as C11 section 6.5 defines them and the LLVM instructions that the
 * quod operators lower to. `None` is undefined behaviour.
 */
module Arithmetic {
  import opened Wrappers
  import opened QuodTree

  const INT_MIN := -0x8000_0000
  const INT_MAX := 0x7fff_ffff
  const MODULUS := 0x1_0000_0000

  predicate InRange(v: int) {
    INT_MIN <= v <= INT_MAX
  }

  /** Reduction to the 32-bit two's-complement representative. */
  function Wrap(v: int): int {
    (v - INT_MIN) % MODULUS + INT_MIN
  }

  /** The value of a 32-bit pattern read as unsigned. */
  function Unsigned(v: int): int {
    v % MODULUS
  }

  function Fit(v: int): Option<int> {
    if InRange(v) then Some(v) else None
  }

  function Bool(b: bool): int {
    if b then 1 else 0
  }

  function Pow2(k: nat): int {
    if k == 0 then 1 else 2 * Pow2(k - 1)
  }

  lemma {:induction false} Pow2Positive(k: nat)
    ensures Pow2(k) > 0
  {
    if k > 0 {
      Pow2Positive(k - 1);
    }
  }

  /** Quotient truncated toward zero (C11 section 6.5.5). */
  function TruncDiv(x: int, y: int): int
    requires y != 0
  {
    if x >= 0 then x / y else -((-x) / y)
  }

  function TruncRem(x: int, y: int): int
    requires y != 0
  {
    x - y * TruncDiv(x, y)
  }

  function Magnitude(x: int): nat {
    if x < 0 then -x else x
  }

  /** Bitwise and of two integers in unbounded two's complement. */
  function BitAnd(x: int, y: int): int
    decreases Magnitude(x)
  {
    if x == 0 || y == 0 then 0
    else if x == -1 then y
    else if y == -1 then x
    else 2 * BitAnd(x / 2, y / 2) + Bool(x % 2 == 1 && y % 2 == 1)
  }

  /** De Morgan: complement is -1 - x. */
  function BitOr(x: int, y: int): int {
    -1 - BitAnd(-1 - x, -1 - y)
  }

  function BitXor(x: int, y: int): int {
    BitOr(x, y) - BitAnd(x, y)
  }

  datatype COp =
    | CAdd | CSub | CMul | CDiv | CRem
    | CLt | CLe | CGt | CGe | CEq | CNe
    | CBitOr | CBitAnd | CBitXor
    | CShl | CShr
    | CLogAnd | CLogOr
    | COther(spelling: string)

  datatype CUnaryOp = CNeg | CLogNot | CBitNot

  /** A C binary operator other than `&&` and `||` on two values of type int. */
  function CApply(op: COp, x: int, y: int): Option<int> {
    match op
    case CAdd => Fit(x + y)
    case CSub => Fit(x - y)
    case CMul => Fit(x * y)
    case CDiv => if y == 0 then None else Fit(TruncDiv(x, y))
    case CRem => if y == 0 || !InRange(TruncDiv(x, y)) then None else Some(TruncRem(x, y))
    case CLt => Some(Bool(x < y))
    case CLe => Some(Bool(x <= y))
    case CGt => Some(Bool(x > y))
    case CGe => Some(Bool(x >= y))
    case CEq => Some(Bool(x == y))
    case CNe => Some(Bool(x != y))
    case CBitOr => Some(BitOr(x, y))
    case CBitAnd => Some(BitAnd(x, y))
    case CBitXor => Some(BitXor(x, y))
    case CShl => if 0 <= y < 32 && x >= 0 then Fit(x * Pow2(y)) else None
    case CShr => if 0 <= y < 32 then Pow2Positive(y); Some(x / Pow2(y)) else None
    case CLogAnd | CLogOr | COther(_) => None
  }

  /** C11 section 6.5.3.3 on a value of type int. */
  function CApplyUnary(op: CUnaryOp, x: int): Option<int> {
    match op
    case CNeg => Fit(-x)
    case CLogNot => Some(Bool(x == 0))
    case CBitNot => Some(-1 - x)
  }

  /** An LLVM integer instruction on two i32 values; float operators have no integer meaning. */
  function QApply(op: ArithOp, x: int, y: int): Option<int> {
    match op
    case Add => Some(Wrap(x + y))
    case Sub => Some(Wrap(x - y))
    case Mul => Some(Wrap(x * y))
    case Sdiv => if y == 0 then None else Fit(TruncDiv(x, y))
    case Udiv => if Unsigned(y) == 0 then None else Some(Wrap(Unsigned(x) / Unsigned(y)))
    case Srem => if y == 0 || !InRange(TruncDiv(x, y)) then None else Some(TruncRem(x, y))
    case Urem => if Unsigned(y) == 0 then None else Some(Wrap(Unsigned(x) % Unsigned(y)))
    case Slt => Some(Bool(x < y))
    case Sle => Some(Bool(x <= y))
    case Sgt => Some(Bool(x > y))
    case Sge => Some(Bool(x >= y))
    case Eq => Some(Bool(x == y))
    case Ne => Some(Bool(x != y))
    case Ult => Some(Bool(Unsigned(x) < Unsigned(y)))
    case Ule => Some(Bool(Unsigned(x) <= Unsigned(y)))
    case Ugt => Some(Bool(Unsigned(x) > Unsigned(y)))
    case Uge => Some(Bool(Unsigned(x) >= Unsigned(y)))
    case Or => Some(BitOr(x, y))
    case And => Some(BitAnd(x, y))
    case Xor => Some(BitXor(x, y))
    case Shl => if 0 <= y < 32 then Some(Wrap(x * Pow2(y))) else None
    case Ashr => if 0 <= y < 32 then Pow2Positive(y); Some(x / Pow2(y)) else None
    case Lshr => if 0 <= y < 32 then Pow2Positive(y); Some(Wrap(Unsigned(x) / Pow2(y))) else None
    case _ => None
  }

  /** Reducing a representable value changes nothing. */
  lemma {:induction false} WrapInRange(v: int)
    requires InRange(v)
    ensures Wrap(v) == v
  {}

  /** `~x` and `x ^ -1` are the same integer. */
  lemma {:induction false} XorMinusOne(x: int)
    ensures BitXor(x, -1) == -1 - x
  {
    assert BitAnd(x, -1) == x;
    assert BitAnd(-1 - x, 0) == 0;
  }
}
