/** Integer constant folding: node-by-node wrapping against machine arithmetic. */
module ConstantFolding {

  datatype Width = W8 | W16 | W32 | W64

  datatype Kind = Kind(width: Width, signed: bool)

  function TwoTo(w: Width): nat {
    match w
    case W8 => 0x100
    case W16 => 0x1_0000
    case W32 => 0x1_0000_0000
    case W64 => 0x1_0000_0000_0000_0000
  }

  /** The type's least value; its values are the TwoTo(width) integers from there on. */
  function Minimum(k: Kind): int {
    if k.signed then 0 - TwoTo(k.width) / 2 else 0
  }

  function Maximum(k: Kind): int {
    Minimum(k) + TwoTo(k.width) - 1
  }

  predicate InRange(v: int, k: Kind) {
    Minimum(k) <= v <= Maximum(k)
  }

  // ----- wrapping, as the checker does it -----

  /** The remainder of truncated division: it has the sign of the dividend. */
  function TruncatedRem(a: int, m: int): int
    requires m > 0
  {
    if a >= 0 then a % m else 0 - (0 - a) % m
  }

  /** The reduction the checker uses: 2^n below 64 bits, and 2^64 - 1 at 64. */
  function Modulus(w: Width): int {
    if w.W64? then 0xFFFF_FFFF_FFFF_FFFF else TwoTo(w)
  }

  function WrapIntegerConstant(v: int, k: Kind): int {
    if InRange(v, k) then v
    else
      var m := Modulus(k.width);
      var rem := TruncatedRem(v, m);
      var reduced := if rem < 0 then rem + m else rem;
      if !k.signed || reduced < TwoTo(k.width) / 2 then reduced else reduced - m
  }

  // ----- machine arithmetic -----

  ghost predicate Congruent(a: int, b: int, m: int) {
    exists q :: a - b == q * m
  }

  /** The value a register of the type holds after the exact result v is stored in it. */
  function Machine(v: int, k: Kind): int {
    Minimum(k) + (v - Minimum(k)) % TwoTo(k.width)
  }

  lemma MachineIsCongruent(v: int, k: Kind)
    ensures InRange(Machine(v, k), k) && Congruent(Machine(v, k), v, TwoTo(k.width))
  {
    var m := TwoTo(k.width);
    var q := (v - Minimum(k)) / m;
    assert v - Minimum(k) == q * m + (v - Minimum(k)) % m;
    assert Machine(v, k) - v == (0 - q) * m;
  }

  /** Two values of the type that agree modulo 2^n are one. */
  lemma UniqueInRange(a: int, b: int, k: Kind)
    requires InRange(a, k) && InRange(b, k) && Congruent(a, b, TwoTo(k.width))
    ensures a == b
  {
    var m := TwoTo(k.width);
    var q :| a - b == q * m;
    if q >= 1 { Times(1, q, m); }
    if q <= -1 { Times(q, -1, m); }
  }

  lemma Times(a: int, b: int, m: nat)
    requires a <= b
    ensures a * m <= b * m
  {
    assert (b - a) * m >= 0;
  }

  lemma Transitive(a: int, b: int, c: int, m: int)
    requires Congruent(a, b, m) && Congruent(b, c, m)
    ensures Congruent(a, c, m) && Congruent(c, a, m)
  {
    var p :| a - b == p * m;
    var q :| b - c == q * m;
    assert a - c == (p + q) * m;
    assert c - a == (0 - p - q) * m;
  }

  lemma Reflexive(a: int, m: int)
    ensures Congruent(a, a, m)
  {
    assert a - a == 0 * m;
  }

  lemma SumsAgree(a: int, b: int, c: int, d: int, m: int)
    requires Congruent(a, b, m) && Congruent(c, d, m)
    ensures Congruent(a + c, b + d, m) && Congruent(a - c, b - d, m)
  {
    var p :| a - b == p * m;
    var q :| c - d == q * m;
    assert (a + c) - (b + d) == (p + q) * m;
    assert (a - c) - (b - d) == (p - q) * m;
  }

  lemma ProductsAgree(a: int, b: int, c: int, d: int, m: int)
    requires Congruent(a, b, m) && Congruent(c, d, m)
    ensures Congruent(a * c, b * d, m)
  {
    var p :| a - b == p * m;
    var q :| c - d == q * m;
    var r := p * c + b * q;
    assert a * c - b * d == (a - b) * c + b * (c - d);
    assert (p * m) * c == (p * c) * m && b * (q * m) == (b * q) * m;
    assert (p * c) * m + (b * q) * m == r * m;
  }

  // ----- wrapping below 64 bits -----

  lemma ReducedIsCongruent(v: int, m: int)
    requires m > 0
    ensures var rem := TruncatedRem(v, m);
      var reduced := if rem < 0 then rem + m else rem;
      0 <= reduced < m && Congruent(reduced, v, m)
  {
    var rem := TruncatedRem(v, m);
    if v >= 0 {
      assert v == (v / m) * m + v % m;
      assert rem - v == (0 - v / m) * m;
    } else {
      var n := 0 - v;
      assert n == (n / m) * m + n % m;
      assert rem - v == (n / m) * m;
      assert (rem + m) - v == (n / m + 1) * m;
    }
  }

  /** Whatever the width, the result is in range and congruent modulo the modulus used. */
  lemma WrapIsCongruent(v: int, k: Kind)
    ensures InRange(WrapIntegerConstant(v, k), k)
    ensures Congruent(WrapIntegerConstant(v, k), v, Modulus(k.width))
  {
    if InRange(v, k) {
      Reflexive(v, Modulus(k.width));
    } else {
      var m := Modulus(k.width);
      ReducedIsCongruent(v, m);
      var rem := TruncatedRem(v, m);
      var reduced := if rem < 0 then rem + m else rem;
      var q :| reduced - v == q * m;
      assert (reduced - m) - v == (q - 1) * m;
    }
  }

  /** Below 64 bits the wrap is machine arithmetic: the one value of the type congruent modulo 2^n. */
  lemma WrapIsMachine(v: int, k: Kind)
    requires !k.width.W64?
    ensures WrapIntegerConstant(v, k) == Machine(v, k)
  {
    WrapIsCongruent(v, k);
    MachineIsCongruent(v, k);
    var m := TwoTo(k.width);
    Backwards(Machine(v, k), v, m);
    Transitive(WrapIntegerConstant(v, k), v, Machine(v, k), m);
    UniqueInRange(WrapIntegerConstant(v, k), Machine(v, k), k);
  }

  lemma Backwards(a: int, b: int, m: int)
    requires Congruent(a, b, m)
    ensures Congruent(b, a, m)
  {
    Reflexive(b, m);
    Transitive(a, b, b, m);
  }

  // ----- trees -----

  datatype Tree =
    | Literal(value: int)
    | Complement(operand: Tree)
    | Sum(left: Tree, right: Tree)
    | Difference(left: Tree, right: Tree)
    | Product(left: Tree, right: Tree)

  /** Exclusive or with a mask of the low bits, on unbounded two's complement: the low bits are
      inverted and the rest kept. */
  function FlipLow(v: int, w: Width): int {
    v / TwoTo(w) * TwoTo(w) + (TwoTo(w) - 1 - v % TwoTo(w))
  }

  /** Node by node, as the checker folds. */
  function Fold(t: Tree, k: Kind): int {
    match t
    case Literal(value) => value
    case Complement(operand) => WrapIntegerConstant(FlipLow(Fold(operand, k), k.width), k)
    case Sum(left, right) => WrapIntegerConstant(Fold(left, k) + Fold(right, k), k)
    case Difference(left, right) => WrapIntegerConstant(Fold(left, k) - Fold(right, k), k)
    case Product(left, right) => WrapIntegerConstant(Fold(left, k) * Fold(right, k), k)
  }

  /** Over unbounded integers, where the complement of v is -1 - v. */
  function Exact(t: Tree): int {
    match t
    case Literal(value) => value
    case Complement(operand) => -1 - Exact(operand)
    case Sum(left, right) => Exact(left) + Exact(right)
    case Difference(left, right) => Exact(left) - Exact(right)
    case Product(left, right) => Exact(left) * Exact(right)
  }

  /** Literals were range checked when they were read. */
  predicate LiteralsFit(t: Tree, k: Kind) {
    match t
    case Literal(value) => InRange(value, k)
    case Complement(operand) => LiteralsFit(operand, k)
    case Sum(left, right) => LiteralsFit(left, k) && LiteralsFit(right, k)
    case Difference(left, right) => LiteralsFit(left, k) && LiteralsFit(right, k)
    case Product(left, right) => LiteralsFit(left, k) && LiteralsFit(right, k)
  }

  lemma FlipLowIsComplement(v: int, w: Width)
    ensures Congruent(FlipLow(v, w), -1 - v, TwoTo(w))
  {
    var m := TwoTo(w);
    assert v == v / m * m + v % m;
    assert FlipLow(v, w) - (-1 - v) == 2 * (v / m) * m + m;
    assert 2 * (v / m) * m + m == (2 * (v / m) + 1) * m;
  }

  /** A value of the type that agrees with the exact one modulo 2^n. */
  ghost predicate Near(v: int, exact: int, k: Kind) {
    InRange(v, k) && Congruent(v, exact, TwoTo(k.width))
  }

  /** One wrapped node keeps congruence with the exact value. */
  lemma NodeAgrees(raw: int, exact: int, k: Kind)
    requires !k.width.W64? && Congruent(raw, exact, TwoTo(k.width))
    ensures Near(WrapIntegerConstant(raw, k), exact, k)
  {
    WrapIsCongruent(raw, k);
    Transitive(WrapIntegerConstant(raw, k), raw, exact, TwoTo(k.width));
  }

  lemma ComplementNode(v: int, exact: int, k: Kind)
    requires !k.width.W64? && Near(v, exact, k)
    ensures Near(WrapIntegerConstant(FlipLow(v, k.width), k), -1 - exact, k)
  {
    var m := TwoTo(k.width);
    FlipLowIsComplement(v, k.width);
    Reflexive(-1, m);
    SumsAgree(-1, -1, v, exact, m);
    Transitive(FlipLow(v, k.width), -1 - v, -1 - exact, m);
    NodeAgrees(FlipLow(v, k.width), -1 - exact, k);
  }

  lemma SumNode(v: int, w: int, x: int, y: int, k: Kind)
    requires !k.width.W64? && Near(v, x, k) && Near(w, y, k)
    ensures Near(WrapIntegerConstant(v + w, k), x + y, k)
    ensures Near(WrapIntegerConstant(v - w, k), x - y, k)
  {
    SumsAgree(v, x, w, y, TwoTo(k.width));
    NodeAgrees(v + w, x + y, k);
    NodeAgrees(v - w, x - y, k);
  }

  lemma ProductNode(v: int, w: int, x: int, y: int, k: Kind)
    requires !k.width.W64? && Near(v, x, k) && Near(w, y, k)
    ensures Near(WrapIntegerConstant(v * w, k), x * y, k)
  {
    ProductsAgree(v, x, w, y, TwoTo(k.width));
    NodeAgrees(v * w, x * y, k);
  }

  /** The folded constant is the type's and agrees with the exact value modulo 2^n. */
  ghost predicate Agrees(t: Tree, k: Kind) {
    Near(Fold(t, k), Exact(t), k)
  }

  lemma LiteralAgrees(v: int, k: Kind)
    requires InRange(v, k)
    ensures Agrees(Literal(v), k)
  {
    Reflexive(v, TwoTo(k.width));
  }

  lemma ComplementAgrees(t: Tree, k: Kind)
    requires !k.width.W64? && Agrees(t, k)
    ensures Agrees(Complement(t), k)
  {
    ComplementNode(Fold(t, k), Exact(t), k);
  }

  lemma SumAgrees(l: Tree, r: Tree, k: Kind)
    requires !k.width.W64? && Agrees(l, k) && Agrees(r, k)
    ensures Agrees(Sum(l, r), k)
  {
    SumNode(Fold(l, k), Fold(r, k), Exact(l), Exact(r), k);
    assert Fold(Sum(l, r), k) == WrapIntegerConstant(Fold(l, k) + Fold(r, k), k);
  }

  lemma DifferenceAgrees(l: Tree, r: Tree, k: Kind)
    requires !k.width.W64? && Agrees(l, k) && Agrees(r, k)
    ensures Agrees(Difference(l, r), k)
  {
    SumNode(Fold(l, k), Fold(r, k), Exact(l), Exact(r), k);
    assert Fold(Difference(l, r), k) == WrapIntegerConstant(Fold(l, k) - Fold(r, k), k);
  }

  lemma ProductAgrees(l: Tree, r: Tree, k: Kind)
    requires !k.width.W64? && Agrees(l, k) && Agrees(r, k)
    ensures Agrees(Product(l, r), k)
  {
    ProductNode(Fold(l, k), Fold(r, k), Exact(l), Exact(r), k);
  }

  lemma {:induction false} FoldAgrees(t: Tree, k: Kind)
    requires !k.width.W64? && LiteralsFit(t, k)
    ensures Agrees(t, k)
  {
    match t {
      case Literal(value) =>
        LiteralAgrees(value, k);
      case Complement(operand) =>
        FoldAgrees(operand, k);
        ComplementAgrees(operand, k);
      case Sum(left, right) =>
        FoldAgrees(left, k);
        FoldAgrees(right, k);
        SumAgrees(left, right, k);
      case Difference(left, right) =>
        FoldAgrees(left, k);
        FoldAgrees(right, k);
        DifferenceAgrees(left, right, k);
      case Product(left, right) =>
        FoldAgrees(left, k);
        FoldAgrees(right, k);
        ProductAgrees(left, right, k);
    }
  }

  /** Below 64 bits, folding any tree node by node is evaluating it exactly and wrapping once. */
  lemma FoldIsMachine(t: Tree, k: Kind)
    requires !k.width.W64? && LiteralsFit(t, k)
    ensures Fold(t, k) == Machine(Exact(t), k)
  {
    var m := TwoTo(k.width);
    FoldAgrees(t, k);
    MachineIsCongruent(Exact(t), k);
    Backwards(Machine(Exact(t), k), Exact(t), m);
    Transitive(Fold(t, k), Exact(t), Machine(Exact(t), k), m);
    UniqueInRange(Fold(t, k), Machine(Exact(t), k), k);
  }

  // ----- at 64 bits -----

  const M64 := 0xFFFF_FFFF_FFFF_FFFF

  /** The wrap is off by how often 2^64 goes into the value: it is machine arithmetic exactly when
      nothing needs wrapping. */
  lemma Wrap64Exactly(v: int, k: Kind)
    requires k.width.W64? && 0 - M64 * M64 < v <= M64 * M64
    ensures WrapIntegerConstant(v, k) == Machine(v, k) <==> InRange(v, k)
  {
    var n := TwoTo(W64);
    var wrapped, right := WrapIntegerConstant(v, k), Machine(v, k);
    WrapIsCongruent(v, k);
    MachineIsCongruent(v, k);
    var q :| right - v == q * n;
    if InRange(v, k) {
      Reflexive(v, n);
      Transitive(right, v, v, n);
      UniqueInRange(right, v, k);
    } else if wrapped == right {
      var p :| wrapped - v == p * M64;
      assert p * M64 == q * M64 + q;
      assert q == (p - q) * M64;
      NoWholeTurn(v, right, q, p - q, k);
    }
  }

  lemma NoWholeTurn(v: int, right: int, q: int, d: int, k: Kind)
    requires k.width.W64? && 0 - M64 * M64 < v <= M64 * M64 && InRange(right, k)
    requires right - v == q * TwoTo(W64) && q == d * M64
    ensures v == right
  {
    if d >= 1 { Times(1, d, M64); Times(M64, q, TwoTo(W64)); }
    if d <= -1 { Times(d, -1, M64); Times(q, 0 - M64, TwoTo(W64)); }
  }

  lemma ProductBound(a: int, b: int, c: nat)
    requires 0 - c <= a <= c && 0 - c <= b <= c
    ensures 0 - c * c <= a * b <= c * c
  {
    assert (c - a) * (c + b) >= 0 && (c + a) * (c - b) >= 0;
    assert (c - a) * (c - b) >= 0 && (c + a) * (c + b) >= 0;
  }

  /** A single sum, difference or product of 64-bit constants folds to what the machine computes if
      and only if its exact result fits the type. */
  lemma Node64Exactly(a: int, b: int, k: Kind)
    requires k.width.W64? && InRange(a, k) && InRange(b, k)
    ensures Fold(Sum(Literal(a), Literal(b)), k) == Machine(a + b, k) <==> InRange(a + b, k)
    ensures Fold(Difference(Literal(a), Literal(b)), k) == Machine(a - b, k) <==> InRange(a - b, k)
    ensures Fold(Product(Literal(a), Literal(b)), k) == Machine(a * b, k) <==> InRange(a * b, k)
  {
    Wrap64Exactly(a + b, k);
    Wrap64Exactly(a - b, k);
    if k.signed {
      ProductBound(a, b, 0x8000_0000_0000_0000);
    } else {
      ProductBound(a, b, M64);
      Times(0, a, b);
    }
    Wrap64Exactly(a * b, k);
  }

  /** The complement is right for every UInt64 constant and wrong for every Int64 one. */
  lemma Complement64(v: int, k: Kind)
    requires k.width.W64? && InRange(v, k)
    ensures Fold(Complement(Literal(v)), k) == Machine(-1 - v, k) <==> !k.signed
  {
    assert v >= 0 ==> v / TwoTo(W64) == 0 && v % TwoTo(W64) == v;
    assert v < 0 ==> v / TwoTo(W64) == -1 && v % TwoTo(W64) == v + TwoTo(W64);
    assert FlipLow(v, W64) == if v >= 0 then M64 - v else -1 - TwoTo(W64) - v;
    MachineIsCongruent(-1 - v, k);
    if k.signed {
      assert Machine(-1 - v, k) == -1 - v;
      Flipped64(v, k);
    } else {
      assert Machine(-1 - v, k) == M64 - v;
    }
  }

  lemma Flipped64(v: int, k: Kind)
    requires k == Kind(W64, true) && InRange(v, k)
    ensures v >= 0 ==> WrapIntegerConstant(M64 - v, k) == 0 - v
    ensures v < 0 ==> WrapIntegerConstant(-1 - TwoTo(W64) - v, k) == -2 - v
  {
    if v >= 0 {
      assert v > 0 ==> (M64 - v) % M64 == M64 - v;
    } else {
      var n := TwoTo(W64) + 1 + v;
      assert n >= M64 ==> n % M64 == n - M64;
      assert n < M64 ==> n % M64 == n;
    }
  }

  // ----- whole trees at 64 bits -----

  /** What the machine computes for a tree. */
  function Value(t: Tree, k: Kind): int {
    Machine(Exact(t), k)
  }

  /** On the machine no sum, difference or product in t leaves the type, and no signed constant is
      complemented. */
  predicate NeedsNoWrap(t: Tree, k: Kind) {
    match t
    case Literal(_) => true
    case Complement(operand) => !k.signed && NeedsNoWrap(operand, k)
    case Sum(left, right) =>
      NeedsNoWrap(left, k) && NeedsNoWrap(right, k) && InRange(Value(left, k) + Value(right, k), k)
    case Difference(left, right) =>
      NeedsNoWrap(left, k) && NeedsNoWrap(right, k) && InRange(Value(left, k) - Value(right, k), k)
    case Product(left, right) =>
      NeedsNoWrap(left, k) && NeedsNoWrap(right, k) && InRange(Value(left, k) * Value(right, k), k)
  }

  /** Every subtree of t folds to what the machine computes for it. */
  predicate RightThroughout(t: Tree, k: Kind) {
    && Fold(t, k) == Value(t, k)
    && match t
       case Literal(_) => true
       case Complement(operand) => RightThroughout(operand, k)
       case Sum(left, right) => RightThroughout(left, k) && RightThroughout(right, k)
       case Difference(left, right) => RightThroughout(left, k) && RightThroughout(right, k)
       case Product(left, right) => RightThroughout(left, k) && RightThroughout(right, k)
  }

  lemma MachineOfCongruent(a: int, b: int, k: Kind)
    requires Congruent(a, b, TwoTo(k.width))
    ensures Machine(a, k) == Machine(b, k)
  {
    var m := TwoTo(k.width);
    MachineIsCongruent(a, k);
    MachineIsCongruent(b, k);
    Backwards(Machine(b, k), b, m);
    Transitive(a, b, Machine(b, k), m);
    Transitive(Machine(a, k), a, Machine(b, k), m);
    UniqueInRange(Machine(a, k), Machine(b, k), k);
  }

  lemma ValueInRange(t: Tree, k: Kind)
    ensures InRange(Value(t, k), k) && Congruent(Value(t, k), Exact(t), TwoTo(k.width))
  {
    MachineIsCongruent(Exact(t), k);
  }

  lemma LiteralRight(v: int, k: Kind)
    requires InRange(v, k)
    ensures Value(Literal(v), k) == v
  {
    var m := TwoTo(k.width);
    Reflexive(v, m);
    MachineIsCongruent(v, k);
    UniqueInRange(Machine(v, k), v, k);
  }

  /** What the machine computes for a node depends on what it computes for the parts alone. */
  lemma ValueOfNode(l: Tree, r: Tree, k: Kind)
    ensures Value(Sum(l, r), k) == Machine(Value(l, k) + Value(r, k), k)
    ensures Value(Difference(l, r), k) == Machine(Value(l, k) - Value(r, k), k)
    ensures Value(Product(l, r), k) == Machine(Value(l, k) * Value(r, k), k)
  {
    var m := TwoTo(k.width);
    ValueInRange(l, k);
    ValueInRange(r, k);
    SumsAgree(Value(l, k), Exact(l), Value(r, k), Exact(r), m);
    ProductsAgree(Value(l, k), Exact(l), Value(r, k), Exact(r), m);
    MachineOfCongruent(Value(l, k) + Value(r, k), Exact(l) + Exact(r), k);
    MachineOfCongruent(Value(l, k) - Value(r, k), Exact(l) - Exact(r), k);
    MachineOfCongruent(Value(l, k) * Value(r, k), Exact(l) * Exact(r), k);
  }

  lemma ValueOfComplement(t: Tree, k: Kind)
    ensures Value(Complement(t), k) == Machine(-1 - Value(t, k), k)
  {
    var m := TwoTo(k.width);
    ValueInRange(t, k);
    Reflexive(-1, m);
    SumsAgree(-1, -1, Value(t, k), Exact(t), m);
    MachineOfCongruent(-1 - Value(t, k), -1 - Exact(t), k);
  }

  /** At 64 bits every node of a tree folds to what the machine computes if and only if nothing in
      the tree needs wrapping and no signed constant is complemented. */
  lemma {:induction false} Trees64Exactly(t: Tree, k: Kind)
    requires k.width.W64? && LiteralsFit(t, k)
    ensures RightThroughout(t, k) <==> NeedsNoWrap(t, k)
  {
    match t {
      case Literal(value) =>
        LiteralRight(value, k);
      case Complement(operand) =>
        Trees64Exactly(operand, k);
        ValueInRange(operand, k);
        ValueOfComplement(operand, k);
        Complement64(Value(operand, k), k);
      case Sum(left, right) =>
        Trees64Exactly(left, k);
        Trees64Exactly(right, k);
        SumStep(left, right, k);
      case Difference(left, right) =>
        Trees64Exactly(left, k);
        Trees64Exactly(right, k);
        DifferenceStep(left, right, k);
      case Product(left, right) =>
        Trees64Exactly(left, k);
        Trees64Exactly(right, k);
        ProductStep(left, right, k);
    }
  }

  // a node over parts that are right is right exactly when its value stays in the type

  lemma SumStep(l: Tree, r: Tree, k: Kind)
    requires k.width.W64?
    requires (RightThroughout(l, k) <==> NeedsNoWrap(l, k)) && (RightThroughout(r, k) <==> NeedsNoWrap(r, k))
    ensures RightThroughout(Sum(l, r), k) <==> NeedsNoWrap(Sum(l, r), k)
  {
    PairExactly(l, r, k);
  }

  lemma DifferenceStep(l: Tree, r: Tree, k: Kind)
    requires k.width.W64?
    requires (RightThroughout(l, k) <==> NeedsNoWrap(l, k)) && (RightThroughout(r, k) <==> NeedsNoWrap(r, k))
    ensures RightThroughout(Difference(l, r), k) <==> NeedsNoWrap(Difference(l, r), k)
  {
    PairExactly(l, r, k);
  }

  lemma ProductStep(l: Tree, r: Tree, k: Kind)
    requires k.width.W64?
    requires (RightThroughout(l, k) <==> NeedsNoWrap(l, k)) && (RightThroughout(r, k) <==> NeedsNoWrap(r, k))
    ensures RightThroughout(Product(l, r), k) <==> NeedsNoWrap(Product(l, r), k)
  {
    PairExactly(l, r, k);
  }

  lemma PairExactly(l: Tree, r: Tree, k: Kind)
    requires k.width.W64?
    ensures var v, w := Value(l, k), Value(r, k);
      && (WrapIntegerConstant(v + w, k) == Value(Sum(l, r), k) <==> InRange(v + w, k))
      && (WrapIntegerConstant(v - w, k) == Value(Difference(l, r), k) <==> InRange(v - w, k))
      && (WrapIntegerConstant(v * w, k) == Value(Product(l, r), k) <==> InRange(v * w, k))
  {
    ValueInRange(l, k);
    ValueInRange(r, k);
    ValueOfNode(l, r, k);
    Node64Exactly(Value(l, k), Value(r, k), k);
  }

  // ----- division -----

  function TruncatedDiv(a: int, b: int): int
    requires b != 0
  {
    if (a >= 0) == (b > 0) then Magnitude(a) / Magnitude(b) else 0 - Magnitude(a) / Magnitude(b)
  }

  function Magnitude(a: int): nat {
    if a >= 0 then a else 0 - a
  }

  /** Division folds to the least value for the least value by -1, and truncates otherwise. */
  function FoldDivision(a: int, b: int, k: Kind): int
    requires b != 0
  {
    var value := if Overflows(a, b, k) then Minimum(k) else TruncatedDiv(a, b);
    WrapIntegerConstant(value, k)
  }

  function FoldRemainder(a: int, b: int, k: Kind): int
    requires b != 0
  {
    var value := if Overflows(a, b, k) then 0 else a - b * TruncatedDiv(a, b);
    WrapIntegerConstant(value, k)
  }

  /** A quotient is no larger than the dividend, and smaller when the divisor is above 1. */
  lemma QuotientShrinks(a: nat, b: nat, q: nat, r: nat)
    requires b > 0 && a == q * b + r
    ensures q <= a && (b > 1 && a > 0 ==> q < a)
  {
    Times(1, b, q);
    if b > 1 && q > 0 { Times(2, b, q); }
  }

  lemma TruncatedDivBound(a: int, b: int)
    requires b != 0
    ensures Magnitude(TruncatedDiv(a, b)) <= Magnitude(a)
    ensures Magnitude(b) > 1 && a != 0 ==> Magnitude(TruncatedDiv(a, b)) < Magnitude(a)
    ensures Magnitude(b) == 1 ==> TruncatedDiv(a, b) == if b == 1 then a else 0 - a
  {
    var x, y := Magnitude(a), Magnitude(b);
    DivMod(x, y);
    QuotientShrinks(x, y, x / y, x % y);
    Times(0, x / y, y);
    if y == 1 { assert x / y == x; }
  }

  lemma TruncatedRemBound(a: int, b: int)
    requires b != 0
    ensures Magnitude(a - b * TruncatedDiv(a, b)) <= Magnitude(a)
    ensures a >= 0 ==> a - b * TruncatedDiv(a, b) >= 0
    ensures a <= 0 ==> a - b * TruncatedDiv(a, b) <= 0
  {
    var x, y := Magnitude(a), Magnitude(b);
    DivMod(x, y);
    SignedProduct(a, b, x / y);
    Times(0, x / y, y);
  }

  lemma DivMod(x: nat, y: nat)
    requires y > 0
    ensures x == x / y * y + x % y
  {
  }

  /** The divisor times the truncated quotient has the dividend's sign. */
  lemma SignedProduct(a: int, b: int, q: nat)
    requires b != 0 && q == Magnitude(a) / Magnitude(b)
    ensures b * TruncatedDiv(a, b) == if a >= 0 then q * Magnitude(b) else 0 - q * Magnitude(b)
  {
    if b > 0 {
      Commute(b, q);
    } else {
      Commute(0 - b, q);
    }
  }

  lemma Commute(b: int, q: int)
    ensures b * q == q * b && b * (0 - q) == 0 - q * b && (0 - b) * q == 0 - q * b && (0 - b) * (0 - q) == q * b
  {
  }

  lemma MachineFixes(v: int, k: Kind)
    requires InRange(v, k)
    ensures Machine(v, k) == v && WrapIntegerConstant(v, k) == v
  {
  }

  predicate Overflows(a: int, b: int, k: Kind) {
    k.signed && a == Minimum(k) && b == -1
  }

  lemma QuotientInRange(a: int, b: int, k: Kind)
    requires InRange(a, k) && InRange(b, k) && b != 0
    ensures InRange(TruncatedDiv(a, b), k) <==> !Overflows(a, b, k)
    ensures Overflows(a, b, k) ==> TruncatedDiv(a, b) == 0 - a
  {
    TruncatedDivBound(a, b);
    Positive(a, b);
    if !Overflows(a, b, k) {
      QuotientFits(a, b, TruncatedDiv(a, b), k);
    }
  }

  lemma Positive(a: int, b: int)
    requires b != 0
    ensures a >= 0 && b > 0 ==> TruncatedDiv(a, b) >= 0
  {
  }

  /** Division is machine arithmetic at every width, 64 included: apart from the least value by -1,
      no quotient leaves the range. */
  lemma DivisionIsMachine(a: int, b: int, k: Kind)
    requires InRange(a, k) && InRange(b, k) && b != 0
    ensures FoldDivision(a, b, k) == Machine(TruncatedDiv(a, b), k)
    ensures InRange(TruncatedDiv(a, b), k) <==> !Overflows(a, b, k)
  {
    QuotientInRange(a, b, k);
    if Overflows(a, b, k) {
      LeastByMinusOne(k, TruncatedDiv(a, b));
    } else {
      MachineFixes(TruncatedDiv(a, b), k);
    }
  }

  /** And so is the remainder, which never leaves it. */
  lemma RemainderIsMachine(a: int, b: int, k: Kind)
    requires InRange(a, k) && InRange(b, k) && b != 0
    ensures FoldRemainder(a, b, k) == Machine(a - b * TruncatedDiv(a, b), k)
    ensures InRange(a - b * TruncatedDiv(a, b), k)
  {
    var rem := a - b * TruncatedDiv(a, b);
    TruncatedRemBound(a, b);
    if Overflows(a, b, k) {
      TruncatedDivBound(a, b);
      assert rem == 0;
    }
    MachineFixes(rem, k);
  }

  lemma LeastByMinusOne(k: Kind, q: int)
    requires k.signed && q == 0 - Minimum(k)
    ensures Machine(q, k) == Minimum(k) && WrapIntegerConstant(Minimum(k), k) == Minimum(k)
    ensures Machine(0, k) == 0 && WrapIntegerConstant(0, k) == 0 && !InRange(q, k)
  {
  }

  lemma QuotientFits(a: int, b: int, q: int, k: Kind)
    requires InRange(a, k) && InRange(b, k) && b != 0 && !Overflows(a, b, k)
    requires Magnitude(q) <= Magnitude(a) && (Magnitude(b) > 1 && a != 0 ==> Magnitude(q) < Magnitude(a))
    requires (Magnitude(b) == 1 ==> q == if b == 1 then a else 0 - a) && (!k.signed ==> q >= 0)
    ensures InRange(q, k)
  {
  }

  // ----- inputs that show it -----

  /** UInt64: the greatest value plus one folds to 1, and the machine holds 0. Int64: the complement
      of 0 folds to 0, and the machine holds -1. */
  lemma WrapsWrong()
    ensures var u := Kind(W64, false); var i := Kind(W64, true);
      Fold(Sum(Literal(M64), Literal(1)), u) == 1 && Machine(M64 + 1, u) == 0 &&
      Fold(Complement(Literal(0)), i) == 0 && Machine(-1, i) == -1
  {
    SumWrapsWrong();
    Flipped64(0, Kind(W64, true));
    assert FlipLow(0, W64) == M64;
  }

  lemma SumWrapsWrong()
    ensures Fold(Sum(Literal(M64), Literal(1)), Kind(W64, false)) == 1 && Machine(M64 + 1, Kind(W64, false)) == 0
  {
    assert (M64 + 1) % M64 == 1;
  }
}
