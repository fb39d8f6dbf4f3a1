/** The signedness fallback policy of `trust-mc-codegen-shared/src/lib.rs`: which operations may
    guess a sign without being counted, and why that is sound for every bit width. */
module Signedness {
  import opened PowerOfTwo

  // ---------------------------------------------------------------------
  // The policy
  // ---------------------------------------------------------------------

  datatype Kind = Comparison | Arithmetic | DivRem | CastOrCoerce | Shift | Bitwise | Equality
  {
    predicate DefaultSigned() { Comparison? || Arithmetic? }
    predicate IsSignAgnostic() { Bitwise? || Equality? }
  }

  datatype BinOp =
    | Add | AddUnchecked | Sub | SubUnchecked | Mul | MulUnchecked | Shl | ShlUnchecked | Offset
    | Div | Rem
    | Lt | Le | Ge | Gt | Cmp
    | Shr | ShrUnchecked
    | BitXor | BitAnd | BitOr
    | Eq | Ne

  /** An operation whose operands need a sign: a MIR binary operation, or a cast to a wider type. */
  datatype Operation = Bin(op: BinOp) | Widen(more: nat)

  /** The match in `signedness_fallback_for_binop`. */
  function KindOfBinOp(op: BinOp): Kind {
    match op
    case Div => DivRem case Rem => DivRem
    case Lt => Comparison case Le => Comparison case Ge => Comparison case Gt => Comparison case Cmp => Comparison
    case Shr => Shift case ShrUnchecked => Shift
    case BitXor => Bitwise case BitAnd => Bitwise case BitOr => Bitwise
    case Eq => Equality case Ne => Equality
    case _ => Arithmetic
  }

  function KindOf(o: Operation): Kind { if o.Bin? then KindOfBinOp(o.op) else CastOrCoerce }

  // ---------------------------------------------------------------------
  // What the operations compute, under either reading of the operands
  // ---------------------------------------------------------------------

  /** A `w`-bit pattern with its top bit set. */
  predicate Negative(x: nat, w: nat)
    requires w > 0
  {
    x >= Pow2(w - 1)
  }

  /** The integer a `w`-bit pattern stands for. */
  function Read(x: nat, w: nat, signed: bool): int
    requires w > 0
  {
    if signed && Negative(x, w) then x - Pow2(w) else x
  }

  /** The `w`-bit pattern of an integer. */
  function Trunc(v: int, w: nat): (r: nat)
    ensures r < Pow2(w)
  {
    v % Pow2(w)
  }

  datatype BitFn = AndF | OrF | XorF
  {
    predicate At(a: bool, b: bool) {
      match this case AndF => a && b case OrF => a || b case XorF => a != b
    }
  }

  /** The low `w` bits of a bitwise operation on two's-complement integers of any size. */
  function Low(f: BitFn, a: int, b: int, w: nat): nat
    decreases w
  {
    if w == 0 then 0
    else (if f.At(a % 2 == 1, b % 2 == 1) then 1 else 0) + 2 * Low(f, a / 2, b / 2, w - 1)
  }

  function Abs(v: int): nat { if v < 0 then -v else v }

  /** Division that truncates toward zero, and its remainder. */
  function Quot(a: int, b: int): int
    requires b != 0
  {
    if (a < 0) == (b < 0) then Abs(a) / Abs(b) else -(Abs(a) / Abs(b))
  }

  function RemOf(a: int, b: int): int
    requires b != 0
  {
    if a < 0 then -(Abs(a) % Abs(b)) else Abs(a) % Abs(b)
  }

  /** A result: a pattern with an overflow flag, a truth value, an ordering, or none at all. */
  datatype Out = Bits(pattern: nat, overflow: bool) | Truth(b: bool) | Order(o: int) | Undefined

  predicate Fits(v: int, w: nat, signed: bool)
    requires w > 0
  {
    if signed then 0 - Pow2(w - 1) <= v < Pow2(w - 1) else 0 <= v < Pow2(w)
  }

  function Wrapping(v: int, w: nat, signed: bool): Out
    requires w > 0
  {
    Bits(Trunc(v, w), !Fits(v, w, signed))
  }

  /** The result of `o` on two `w`-bit patterns under a reading. */
  function Apply(o: Operation, x: nat, y: nat, w: nat, signed: bool): Out
    requires w > 0
  {
    var a, b := Read(x, w, signed), Read(y, w, signed);
    match o
    case Widen(more) => Bits(Trunc(a, w + more), false)
    case Bin(op) =>
      match op
      case Add => Wrapping(a + b, w, signed)
      case AddUnchecked => Bits(Trunc(a + b, w), false)
      case Sub => Wrapping(a - b, w, signed)
      case SubUnchecked => Bits(Trunc(a - b, w), false)
      case Mul => Wrapping(a * b, w, signed)
      case MulUnchecked => Bits(Trunc(a * b, w), false)
      case Shl => Bits(Trunc(a * Pow2(y % w), w), false)
      case ShlUnchecked => Bits(Trunc(a * Pow2(y % w), w), false)
      case Offset => Bits(Trunc(a + b, w), false)
      case Div => if b == 0 then Undefined else Bits(Trunc(Quot(a, b), w), false)
      case Rem => if b == 0 then Undefined else Bits(Trunc(RemOf(a, b), w), false)
      case Lt => Truth(a < b)
      case Le => Truth(a <= b)
      case Ge => Truth(a >= b)
      case Gt => Truth(a > b)
      case Cmp => Order(if a < b then -1 else if a == b then 0 else 1)
      case Shr => Bits(Trunc(a / Pow2(y % w), w), false)
      case ShrUnchecked => Bits(Trunc(a / Pow2(y % w), w), false)
      case BitXor => Bits(Low(XorF, a, b, w), false)
      case BitAnd => Bits(Low(AndF, a, b, w), false)
      case BitOr => Bits(Low(OrF, a, b, w), false)
      case Eq => Truth(a == b)
      case Ne => Truth(a != b)
  }

  /** The two readings give the same result. */
  predicate Agree(o: Operation, x: nat, y: nat, w: nat)
    requires w > 0
  {
    Apply(o, x, y, w, true) == Apply(o, x, y, w, false)
  }

  predicate Pattern(x: nat, w: nat) { x < Pow2(w) }

  // ---------------------------------------------------------------------
  // Bitwise operations and equality
  // ---------------------------------------------------------------------

  predicate BitZ(v: int, k: nat)
    decreases k
  {
    if k == 0 then v % 2 == 1 else BitZ(v / 2, k - 1)
  }

  /** `Low` works bit by bit. */
  lemma {:induction false} LowBits(f: BitFn, a: int, b: int, w: nat, k: nat)
    requires k < w
    ensures BitZ(Low(f, a, b, w), k) <==> f.At(BitZ(a, k), BitZ(b, k))
    decreases k
  {
    if k > 0 {
      LowBits(f, a / 2, b / 2, w - 1, k - 1);
      assert Low(f, a, b, w) / 2 == Low(f, a / 2, b / 2, w - 1);
    }
  }

  /** Subtracting 2^w from an operand changes none of the low `w` bits. */
  lemma {:induction false} LowIgnoresSign(f: BitFn, a: int, b: int, w: nat)
    ensures Low(f, a - Pow2(w), b, w) == Low(f, a, b, w)
    ensures Low(f, a, b - Pow2(w), w) == Low(f, a, b, w)
    decreases w
  {
    if w > 0 {
      var p := Pow2(w - 1);
      assert (a - 2 * p) / 2 == a / 2 - p && (a - 2 * p) % 2 == a % 2;
      assert (b - 2 * p) / 2 == b / 2 - p && (b - 2 * p) % 2 == b % 2;
      LowIgnoresSign(f, a / 2, b / 2, w - 1);
    }
  }

  lemma {:induction false} ReadTwice(x: nat, w: nat)
    requires w > 0 && Pattern(x, w)
    ensures Pow2(w) == 2 * Pow2(w - 1)
    ensures Read(x, w, true) == (if Negative(x, w) then x - Pow2(w) else x) && Read(x, w, false) == x
  {
  }

  /** The kinds the counter skips may be read either way, at every width. */
  lemma {:induction false} SkippedKindsAgree(o: Operation, x: nat, y: nat, w: nat)
    requires w > 0 && Pattern(x, w) && Pattern(y, w)
    requires KindOf(o).IsSignAgnostic()
    ensures Agree(o, x, y, w)
  {
    ReadTwice(x, w);
    ReadTwice(y, w);
    if KindOf(o).Bitwise? {
      var f := if o.op == BitXor then XorF else if o.op == BitAnd then AndF else OrF;
      var b := Read(y, w, true);
      LowIgnoresSign(f, x, b, w);
      LowIgnoresSign(f, x, y, w);
    }
  }

  // ---------------------------------------------------------------------
  // Every other kind has operands that disagree
  // ---------------------------------------------------------------------

  lemma {:induction false} MulGrows(d: int, p: int)
    requires p > 0
    ensures d >= 1 ==> d * p >= p
    ensures d <= -1 ==> d * p <= -p
  {
    if d >= 1 { assert (d - 1) * p >= 0; }
    if d <= -1 { assert (-1 - d) * p >= 0; }
  }

  /** Quotient and remainder are unique. */
  lemma {:induction false} ModUnique(v: int, q: int, r: int, p: int)
    requires p > 0 && 0 <= r < p && v == q * p + r
    ensures v % p == r && v / p == q
  {
    var d, m := v / p, v % p;
    assert v == d * p + m;
    assert (q - d) * p == q * p - d * p;
    MulGrows(q - d, p);
  }

  lemma {:induction false} TruncSmall(v: int, w: nat)
    ensures 0 <= v < Pow2(w) ==> Trunc(v, w) == v
    ensures 0 - Pow2(w) <= v < 0 ==> Trunc(v, w) == v + Pow2(w)
  {
    var p: int := Pow2(w);
    if 0 <= v < p { ModUnique(v, 0, v, p); }
    if -p <= v < 0 { ModUnique(v, -1, v + p, p); }
  }

  predicate IsOrdered(op: BinOp) { op.Lt? || op.Le? || op.Ge? || op.Gt? || op.Cmp? }

  /** Ordered comparisons disagree exactly when the sign bits differ. */
  lemma {:induction false} ComparisonDisagrees(op: BinOp, x: nat, y: nat, w: nat)
    requires w > 0 && Pattern(x, w) && Pattern(y, w) && IsOrdered(op)
    ensures Agree(Bin(op), x, y, w) <==> Negative(x, w) == Negative(y, w)
  {
    ReadTwice(x, w);
    ReadTwice(y, w);
  }

  /** A widening cast disagrees exactly when the sign bit is set and it really widens. */
  lemma {:induction false} WideningDisagrees(x: nat, y: nat, w: nat, more: nat)
    requires w > 0 && Pattern(x, w)
    ensures Agree(Widen(more), x, y, w) <==> !Negative(x, w) || more == 0
  {
    ReadTwice(x, w);
    Pow2Monotone(w, more);
    TruncSmall(x, w + more);
    TruncSmall(x - Pow2(w), w + more);
  }

  lemma {:induction false} Pow2Monotone(w: nat, k: nat)
    ensures Pow2(w) <= Pow2(w + k) && (k > 0 ==> Pow2(w) < Pow2(w + k))
  {
    if k > 0 { Pow2Monotone(w, k - 1); }
  }

  lemma {:induction false} Pow2Split(w: nat, k: nat)
    requires k <= w
    ensures Pow2(w) == Pow2(w - k) * Pow2(k)
  {
    if k > 0 {
      Pow2Split(w - 1, k - 1);
      assert w - 1 - (k - 1) == w - k;
      assert Pow2(w) == 2 * (Pow2(w - k) * Pow2(k - 1)) == Pow2(w - k) * (2 * Pow2(k - 1));
    }
  }

  /** A right shift disagrees exactly when the sign bit is set and the amount is not zero. */
  lemma {:induction false} ShiftDisagrees(op: BinOp, x: nat, y: nat, w: nat)
    requires w > 0 && Pattern(x, w) && (op.Shr? || op.ShrUnchecked?)
    ensures Agree(Bin(op), x, y, w) <==> !Negative(x, w) || y % w == 0
  {
    var k := y % w;
    ReadTwice(x, w);
    if Negative(x, w) { ShiftedNegative(x, w, k); }
  }

  lemma {:induction false} ShiftedNegative(x: nat, w: nat, k: nat)
    requires w > 0 && Pattern(x, w) && Negative(x, w) && k < w
    ensures Trunc((x - Pow2(w)) / Pow2(k), w) == Trunc(x / Pow2(k), w) <==> k == 0
  {
    var p, d, h := Pow2(w), Pow2(k), Pow2(w - k);
    Pow2Split(w, k);
    QuotBelow(x, d, h, p);
    QuotShift(x, d, h, p);
    Pow2Monotone(w - k, k);
    TruncApart(x / d, h, w);
  }

  lemma {:induction false} TruncApart(q: nat, h: nat, w: nat)
    requires q < h <= Pow2(w)
    ensures Trunc(q - h, w) == Trunc(q, w) <==> h == Pow2(w)
  {
    TruncSmall(q, w);
    TruncSmall(q - h, w);
  }

  /** With `h * d == p`, subtracting `p` takes `h` off the quotient by `d`. */
  lemma {:induction false} QuotShift(x: nat, d: nat, h: nat, p: nat)
    requires d > 0 && h * d == p
    ensures (x - p) / d == x / d - h
  {
    var q, r := x / d, x % d;
    assert (q - h) * d == q * d - h * d;
    ModUnique(x - p, q - h, r, d);
  }

  /** With `h * d == p`, a value below `p` divided by `d` stays below `h`. */
  lemma {:induction false} QuotBelow(x: nat, d: nat, h: nat, p: nat)
    requires d > 0 && h * d == p && x < p
    ensures 0 <= x / d < h
  {
    var q := x / d;
    assert (q - h) * d == q * d - h * d;
    if q > h { MulGrows(q - h, d); }
  }

  /** Division and remainder have disagreeing operands exactly at widths of two and more. */
  lemma {:induction false} DivRemDisagrees(op: BinOp, w: nat)
    requires w > 0 && (op.Div? || op.Rem?)
    ensures (exists x: nat, y: nat :: Pattern(x, w) && Pattern(y, w) && !Agree(Bin(op), x, y, w)) <==> w >= 2
  {
    if w == 1 {
      forall x: nat, y: nat | Pattern(x, 1) && Pattern(y, 1) ensures Agree(Bin(op), x, y, 1) {
        OneBitDivision(op, x, y);
      }
    } else {
      var p := Pow2(w);
      assert p >= 4 && p == 2 * Pow2(w - 1) by { Pow2Monotone(2, w - 2); assert Pow2(2) == 4; }
      var x, y := p - 1, p - 2;
      ReadTwice(x, w);
      ReadTwice(y, w);
      ModUnique(p - 1, 1, 1, p - 2);
      ModUnique(1, 0, 1, 2);
      TruncSmall(1, w);
      TruncSmall(0, w);
      TruncSmall(-1, w);
      assert !Agree(Bin(op), x, y, w);
    }
  }

  lemma {:induction false} OneBitDivision(op: BinOp, x: nat, y: nat)
    requires x < 2 && y < 2 && (op.Div? || op.Rem?)
    ensures Agree(Bin(op), x, y, 1)
  {
    assert Pow2(0) == 1 && Pow2(1) == 2;
  }

  /** Addition, subtraction and multiplication give one pattern under both readings ... */
  lemma {:induction false} ArithmeticPatternsAgree(op: BinOp, x: nat, y: nat, w: nat)
    requires w > 0 && Pattern(x, w) && Pattern(y, w) && KindOfBinOp(op) == Arithmetic
    ensures Apply(Bin(op), x, y, w, true).Bits? && Apply(Bin(op), x, y, w, false).Bits?
    ensures Apply(Bin(op), x, y, w, true).pattern == Apply(Bin(op), x, y, w, false).pattern
  {
    ReadTwice(x, w);
    ReadTwice(y, w);
    var a, b := Read(x, w, true), Read(y, w, true);
    SumsAgree(x, y, w);
    ProductsAgree(x, y, w);
  }

  /** How many times `2^w` is taken off under the signed reading. */
  function Lost(x: nat, w: nat): int
    requires w > 0
  {
    if Negative(x, w) then -1 else 0
  }

  lemma {:induction false} SumsAgree(x: nat, y: nat, w: nat)
    requires w > 0
    ensures Trunc(Read(x, w, true) + Read(y, w, true), w) == Trunc(x + y, w)
    ensures Trunc(Read(x, w, true) - Read(y, w, true), w) == Trunc(x - y, w)
  {
    var p, i, k := Pow2(w), Lost(x, w), Lost(y, w);
    var a, b := Read(x, w, true), Read(y, w, true);
    assert a == x + i * p && b == y + k * p;
    assert a + b == x + y + (i + k) * p && a - b == x - y + (i - k) * p;
    Shifted(x + y, i + k, p);
    Shifted(x - y, i - k, p);
  }

  lemma {:induction false} ProductsAgree(x: nat, y: nat, w: nat)
    requires w > 0
    ensures Trunc(Read(x, w, true) * Read(y, w, true), w) == Trunc(x * y, w)
    ensures Trunc(Read(x, w, true) * Pow2(y % w), w) == Trunc(x * Pow2(y % w), w)
  {
    var p, i, k := Pow2(w), Lost(x, w), Lost(y, w);
    assert Read(x, w, true) == x + i * p && Read(y, w, true) == y + k * p;
    ProductShift(x, y, i, k, p);
    var s := Pow2(y % w);
    ProductShift(x, s, i, 0, p);
    assert s + 0 * p == s;
  }

  lemma {:induction false} Shifted(v: int, k: int, p: int)
    requires p > 0
    ensures (v + k * p) % p == v % p
  {
    var d, m := v / p, v % p;
    assert v + k * p == (d + k) * p + m by { assert (d + k) * p == d * p + k * p; }
    ModUnique(v + k * p, d + k, m, p);
  }

  lemma {:induction false} ProductShift(x: int, y: int, i: int, k: int, p: int)
    requires p > 0
    ensures ((x + i * p) * (y + k * p)) % p == (x * y) % p
  {
    var e := x * k + i * y + i * k * p;
    assert (x + i * p) * (y + k * p) == x * y + e * p;
    Shifted(x * y, e, p);
  }

  lemma {:induction false} AddApplies(x: nat, y: nat, w: nat, signed: bool)
    requires w > 0
    ensures Apply(Bin(Add), x, y, w, signed) == Wrapping(Read(x, w, signed) + Read(y, w, signed), w, signed)
  {
  }

  lemma {:induction false} MinusOneAndOne(w: nat)
    requires w >= 2
    ensures Pow2(w) == 2 * Pow2(w - 1) >= 4
    ensures Read(Pow2(w) - 1, w, true) == -1 && Read(1, w, true) == 1
  {
    Pow2Monotone(2, w - 2);
    assert Pow2(2) == 4;
  }

  lemma {:induction false} WrapZero(w: nat)
    requires w >= 2
    ensures Wrapping(0, w, true) == Bits(0, false)
  {
    ModUnique(0, 0, 0, Pow2(w));
  }

  lemma {:induction false} WrapFull(w: nat, p: int)
    requires w >= 2 && p == Pow2(w)
    ensures Wrapping(p, w, false) == Bits(0, true)
  {
    ModUnique(p, 1, 0, p);
  }

  /** ... but their overflow checks have operands that disagree at every width from two on. */
  lemma {:induction false} OverflowDisagrees(w: nat, x: nat)
    requires w >= 2 && x == Pow2(w) - 1
    ensures Pattern(x, w) && Pattern(1, w)
    ensures Apply(Bin(Add), x, 1, w, true) == Bits(0, false)
    ensures Apply(Bin(Add), x, 1, w, false) == Bits(0, true)
  {
    MinusOneAndOne(w);
    AddApplies(x, 1, w, true);
    AddApplies(x, 1, w, false);
    WrapZero(w);
    WrapFull(w, x + 1);
  }

  /** The counter skips a kind exactly when every operation of that kind on operands of one width,
      whatever the width, may be read either way. */
  lemma {:induction false} SkipsExactlyTheSafeKinds(k: Kind)
    ensures k.IsSignAgnostic() <==>
            forall o: Operation, x: nat, y: nat, w: nat ::
              KindOf(o) == k && w > 0 && Pattern(x, w) && Pattern(y, w) ==> Agree(o, x, y, w)
  {
    if k.IsSignAgnostic() {
      forall o: Operation, x: nat, y: nat, w: nat | KindOf(o) == k && w > 0 && Pattern(x, w) && Pattern(y, w)
        ensures Agree(o, x, y, w)
      {
        SkippedKindsAgree(o, x, y, w);
      }
    } else {
      var o, x, y, w := Disagreement(k);
    }
  }

  lemma {:induction false} Disagreement(k: Kind) returns (o: Operation, x: nat, y: nat, w: nat)
    requires !k.IsSignAgnostic()
    ensures KindOf(o) == k && w > 0 && Pattern(x, w) && Pattern(y, w) && !Agree(o, x, y, w)
  {
    w := 2;
    assert Pow2(1) == 2 && Pow2(2) == 4;
    match k {
      case Comparison =>
        o, x, y := Bin(Lt), 0, 2;
        ComparisonDisagrees(Lt, 0, 2, 2);
      case Arithmetic =>
        o, x, y := Bin(Add), 3, 1;
        OverflowDisagrees(2, 3);
      case DivRem =>
        o := Bin(Div);
        DivRemDisagrees(Div, 2);
        x, y :| Pattern(x, 2) && Pattern(y, 2) && !Agree(Bin(Div), x, y, 2);
      case CastOrCoerce =>
        o, x, y := Widen(1), 2, 0;
        WideningDisagrees(2, 0, 2, 1);
      case Shift =>
        o, x, y := Bin(Shr), 2, 1;
        ShiftDisagrees(Shr, 2, 1, 2);
    }
  }

  // ---------------------------------------------------------------------
  // Equality of different widths, which the policy leaves uncounted
  // ---------------------------------------------------------------------

  /** Equality of a `w`-bit and a wider pattern, the narrow one extended under the reading. */
  predicate MixedEq(x: nat, w: nat, y: nat, more: nat, signed: bool)
    requires w > 0
  {
    Trunc(Read(x, w, signed), w + more) == y
  }

  /** It depends on the guess exactly when the narrow operand has its sign bit set and the wide
      one is one of its two extensions. */
  lemma {:induction false} MixedEqualityDependsOnGuess(x: nat, w: nat, y: nat, more: nat)
    requires w > 0 && more > 0 && Pattern(x, w) && Pattern(y, w + more)
    ensures MixedEq(x, w, y, more, true) != MixedEq(x, w, y, more, false) <==>
            Negative(x, w) && (y == x || y == x + Pow2(w + more) - Pow2(w))
  {
    ReadTwice(x, w);
    Pow2Monotone(w, more);
    TruncSmall(x, w + more);
    TruncSmall(x - Pow2(w), w + more);
  }

  // ---------------------------------------------------------------------
  // The counter
  // ---------------------------------------------------------------------

  const U64: nat := 0x1_0000_0000_0000_0000

  /** The process-global counter: every access is one atomic step. */
  class FallbackCounter {
    var count: nat

    ghost predicate Valid()
      reads this
    {
      count < U64
    }

    constructor ()
      ensures Valid() && count == 0
    {
      count := 0;
    }

    /** `signedness_fallback_with_kind`. */
    method WithKind(kind: Kind) returns (signed: bool)
      requires Valid()
      modifies this
      ensures Valid() && signed == kind.DefaultSigned()
      ensures count == Counted(old(count), kind)
    {
      signed := kind.DefaultSigned();
      if kind.IsSignAgnostic() { return; }
      count := (count + 1) % U64;
    }

    /** `signedness_fallback_for_binop`. */
    method ForBinOp(op: BinOp) returns (signed: bool)
      requires Valid()
      modifies this
      ensures Valid() && signed == KindOfBinOp(op).DefaultSigned()
      ensures count == Counted(old(count), KindOfBinOp(op))
    {
      signed := WithKind(KindOfBinOp(op));
    }

    /** `take_signedness_fallback_count`. */
    method Take() returns (previous: nat)
      requires Valid()
      modifies this
      ensures Valid() && previous == old(count) && count == 0
    {
      previous, count := count, 0;
    }

    method Get() returns (current: nat)
      ensures current == count
    {
      current := count;
    }

    /** `replace_signedness_fallback_count_for_test`. */
    method Replace(value: nat) returns (previous: nat)
      requires Valid() && value < U64
      modifies this
      ensures Valid() && previous == old(count) && count == value
    {
      previous, count := count, value;
    }
  }

  function Counted(count: nat, kind: Kind): nat {
    if kind.IsSignAgnostic() then count else (count + 1) % U64
  }

  predicate IsBitwiseOrEquality(op: BinOp) { op.BitXor? || op.BitAnd? || op.BitOr? || op.Eq? || op.Ne? }

  predicate IsDivisionOrRightShift(op: BinOp) { op.Div? || op.Rem? || op.Shr? || op.ShrUnchecked? }

  /** The operands of a binary operation are guessed unsigned for division, remainder, right shifts,
      bitwise operations and equalities, and signed for all others; only the bitwise operations and
      the equalities leave the counter alone. */
  lemma {:induction false} PolicyMeaning(op: BinOp, count: nat)
    ensures KindOfBinOp(op).DefaultSigned() <==> !IsBitwiseOrEquality(op) && !IsDivisionOrRightShift(op)
    ensures Counted(count, KindOfBinOp(op)) == if IsBitwiseOrEquality(op) then count else (count + 1) % U64
  {
  }

  /** A cast is guessed unsigned, and counted. */
  lemma {:induction false} CastPolicy(more: nat, count: nat)
    ensures !KindOf(Widen(more)).DefaultSigned() && Counted(count, KindOf(Widen(more))) == (count + 1) % U64
  {
  }

  /** One encoding step that had to guess, with its operands and their real sign: an operation on
      operands of one width, or an equality, or its negation, of a narrow and a wider operand. */
  datatype Guess =
    | Same(o: Operation, x: nat, y: nat, w: nat, truth: bool)
    | Mixed(negated: bool, x: nat, w: nat, y: nat, more: nat, truth: bool)

  function KindOfGuess(g: Guess): Kind { if g.Same? then KindOf(g.o) else Equality }

  ghost predicate WellFormed(g: Guess) {
    g.w > 0 && Pattern(g.x, g.w) &&
    match g
    case Same(_, _, y, w, _) => Pattern(y, w)
    case Mixed(_, _, w, y, more, _) => more > 0 && Pattern(y, w + more)
  }

  function Outcome(g: Guess, signed: bool): Out
    requires g.w > 0
  {
    match g
    case Same(o, x, y, w, _) => Apply(o, x, y, w, signed)
    case Mixed(negated, x, w, y, more, _) => Truth(MixedEq(x, w, y, more, signed) != negated)
  }

  /** The guess did not change the result. */
  ghost predicate Harmless(g: Guess)
    requires WellFormed(g)
  {
    Outcome(g, KindOfGuess(g).DefaultSigned()) == Outcome(g, g.truth)
  }

  /** A wrong guess at a mixed equality, at the operands where the guess matters. */
  predicate Exposed(g: Guess)
    requires g.w > 0
  {
    g.Mixed? && g.truth && Negative(g.x, g.w) && (g.y == g.x || g.y == g.x + Pow2(g.w + g.more) - Pow2(g.w))
  }

  /** A guess that is not counted is harmless exactly when it is not exposed. */
  lemma {:induction false} UncountedGuess(g: Guess)
    requires WellFormed(g) && KindOfGuess(g).IsSignAgnostic()
    ensures Harmless(g) <==> !Exposed(g)
  {
    match g
    case Same(o, x, y, w, _) => SkippedKindsAgree(o, x, y, w);
    case Mixed(_, x, w, y, more, _) => MixedEqualityDependsOnGuess(x, w, y, more);
  }

  function CountAfter(gs: seq<Guess>, count: nat): nat {
    if gs == [] then count else CountAfter(gs[1..], Counted(count, KindOfGuess(gs[0])))
  }

  function CountedSteps(gs: seq<Guess>): (n: nat)
    ensures n <= |gs|
  {
    if gs == [] then 0
    else (if KindOfGuess(gs[0]).IsSignAgnostic() then 0 else 1) + CountedSteps(gs[1..])
  }

  /** The counter is the number of counted guesses, modulo 2^64. */
  lemma {:induction false} CounterIsExact(gs: seq<Guess>, count: nat)
    requires count < U64
    ensures CountAfter(gs, count) == (count + CountedSteps(gs)) % U64
  {
    if gs != [] {
      var next := Counted(count, KindOfGuess(gs[0]));
      CounterIsExact(gs[1..], next);
      if count + 1 == U64 {
        Shifted(CountedSteps(gs[1..]), 1, U64);
      }
    }
  }

  lemma {:induction false} UncountedIsHarmless(gs: seq<Guess>)
    requires forall g :: g in gs ==> WellFormed(g)
    requires CountedSteps(gs) == 0
    ensures forall g :: g in gs ==> (Harmless(g) <==> !Exposed(g))
  {
    if gs != [] {
      var g := gs[0];
      assert g in gs;
      UncountedGuess(g);
      UncountedIsHarmless(gs[1..]);
      assert gs == [g] + gs[1..];
    }
  }

  lemma {:induction false} ZeroCounter(gs: seq<Guess>)
    ensures CountAfter(gs, 0) == 0 <==> CountedSteps(gs) % U64 == 0
    ensures |gs| < U64 ==> (CountAfter(gs, 0) == 0 <==> CountedSteps(gs) == 0)
  {
    CounterIsExact(gs, 0);
    var n := CountedSteps(gs);
    if n < U64 { ModUnique(n, 0, n, U64); }
  }

  /** A counter still at zero, for any sequence of fewer than 2^64 guesses, means that no guessed
      sign changed a result but at the exposed mixed equalities, and there each one did; at 2^64
      counted guesses the counter is at zero again. */
  lemma {:induction false} ZeroCounterIsHarmless(gs: seq<Guess>)
    requires forall g :: g in gs ==> WellFormed(g)
    ensures CountAfter(gs, 0) == 0 <==> CountedSteps(gs) % U64 == 0
    ensures CountAfter(gs, 0) == 0 && |gs| < U64 ==> forall g :: g in gs ==> (Harmless(g) <==> !Exposed(g))
  {
    ZeroCounter(gs);
    if CountedSteps(gs) == 0 { UncountedIsHarmless(gs); }
  }
}
