/** Match expressions: the coverage table, the arm loop, and the partition an accepted match
    makes. */
module MatchCoverage {
  import opened Finite

  const ELSE_TAG := -1
  const WHOLE_TAG := -2
  const SCALAR_TAG := -3

  /** What is matched on. An ADT carries its variants' names and whether it is ErrorKind; a union its
      members' canonical keys; any other type only its own canonical key. */
  datatype Scrutinee =
    | Adt(key: string, variants: seq<string>, errorKind: bool)
    | Union(key: string, members: seq<string>)
    | Bool(key: string)
    | EoS(key: string)
    | Integer(key: string, bits: nat, signed: bool)
    | Other(key: string)

  datatype Pattern =
    | Else
    | BoolPattern(truth: bool)
    | EosPattern
    | ScalarPattern(constant: int)
    | VariantPattern(owner: string, name: string)
    | TypePattern(typ: string)

  /** One arm, with the type its body checks to, or none when the body does not check. */
  datatype Arm = Arm(pattern: Pattern, result: Option<nat>)

  datatype Case = Case(key: string, tag: int)

  datatype Reason =
    | ElseNotFinal | Unreachable | WrongMode | WrongType | OutOfRange | ArmFailed | TypesDiffer
    | NeedsElse | NotExhaustive(missing: nat)

  datatype Verdict = Rejected(reason: Reason) | Accepted(tags: seq<int>, constants: seq<Option<int>>)

  // ----- the domain -----

  function Pow2(n: nat): (p: nat)
    ensures p > 0
  {
    if n == 0 then 1 else 2 * Pow2(n - 1)
  }

  function Lowest(s: Scrutinee): int
    requires s.Integer?
  {
    if s.signed && s.bits > 0 then 0 - Pow2(s.bits - 1) else 0
  }

  predicate InRange(s: Scrutinee, c: int)
    requires s.Integer?
  {
    Lowest(s) <= c < Lowest(s) + Pow2(s.bits)
  }

  /** The closed cases, in order; an open domain has none. */
  function Cases(s: Scrutinee, typeMode: bool): seq<Case> {
    match s
    case Adt(_, variants, _) => seq(|variants|, i requires 0 <= i < |variants| => Case(variants[i], i))
    case Union(_, members) => seq(|members|, i requires 0 <= i < |members| => Case(members[i], i))
    case _ =>
      if typeMode then [Case(s.key, WHOLE_TAG)]
      else if s.Bool? then [Case("false", 0), Case("true", 1)]
      else if s.EoS? then [Case("eos", WHOLE_TAG)]
      else []
  }

  predicate Open(s: Scrutinee, typeMode: bool) {
    !typeMode && (s.Integer? || s.Other?)
  }

  predicate ErrorKind(s: Scrutinee) {
    s.Adt? && s.errorKind
  }

  /** The first case with the key, or their number when there is none. */
  function Find(cases: seq<Case>, key: string): (index: nat)
    ensures index <= |cases| && (index < |cases| ==> cases[index].key == key)
    ensures forall i | 0 <= i < index :: cases[i].key != key
  {
    if cases == [] || cases[0].key == key then 0 else 1 + Find(cases[1..], key)
  }

  // ----- what one pattern says -----

  function KeyOf(s: Scrutinee, p: Pattern): string {
    match p
    case BoolPattern(truth) => if truth then "true" else "false"
    case EosPattern => "eos"
    case VariantPattern(_, name) => name
    case TypePattern(typ) => if s.Union? then typ else s.key
    case _ => ""
  }

  /** Why the pattern does not fit the scrutinee and the mode, coverage apart. */
  function Misfit(s: Scrutinee, typeMode: bool, p: Pattern): Option<Reason> {
    match p
    case Else => None
    case BoolPattern(_) => if typeMode then Some(WrongMode) else if !s.Bool? then Some(WrongType) else None
    case EosPattern => if typeMode then Some(WrongMode) else if !s.EoS? then Some(WrongType) else None
    case ScalarPattern(c) =>
      if typeMode then Some(WrongMode)
      else if !s.Integer? then Some(WrongType)
      else if !InRange(s, c) then Some(OutOfRange)
      else None
    case VariantPattern(owner, name) =>
      if !typeMode then Some(WrongMode) else if !s.Adt? || owner != s.key then Some(WrongType) else None
    case TypePattern(typ) =>
      if !typeMode then Some(WrongMode)
      else if s.Union? then (if typ in s.members then None else Some(WrongType))
      else if typ != s.key then Some(WrongType)
      else None
  }

  /** The case a closed pattern takes. */
  function Takes(s: Scrutinee, typeMode: bool, p: Pattern): nat {
    Find(Cases(s, typeMode), KeyOf(s, p))
  }

  predicate Closed(p: Pattern) {
    !p.Else? && !p.ScalarPattern?
  }

  /** The tag an arm is recorded under; a closed pattern's is its case's. */
  function TagOf(s: Scrutinee, typeMode: bool, p: Pattern): int {
    if p.Else? then ELSE_TAG
    else if p.ScalarPattern? then SCALAR_TAG
    else if Takes(s, typeMode, p) < |Cases(s, typeMode)| then Cases(s, typeMode)[Takes(s, typeMode, p)].tag
    else 0
  }

  // ----- when a match is well formed -----

  /** The pattern repeats nothing an earlier arm already said. */
  predicate FirstToSay(s: Scrutinee, typeMode: bool, arms: seq<Arm>, k: nat)
    requires k < |arms|
  {
    forall j | 0 <= j < k :: !SameClaim(s, typeMode, arms[j].pattern, arms[k].pattern)
  }

  predicate SameClaim(s: Scrutinee, typeMode: bool, p: Pattern, q: Pattern) {
    if p.ScalarPattern? then q.ScalarPattern? && p.constant == q.constant
    else Closed(p) && Closed(q) && Takes(s, typeMode, p) == Takes(s, typeMode, q)
  }

  /** Some arm before k takes the case. */
  predicate TakenBefore(s: Scrutinee, typeMode: bool, arms: seq<Arm>, k: nat, i: nat)
    requires k <= |arms|
  {
    exists j | 0 <= j < k :: Closed(arms[j].pattern) && Takes(s, typeMode, arms[j].pattern) == i
  }

  predicate AllTaken(s: Scrutinee, typeMode: bool, arms: seq<Arm>, k: nat)
    requires k <= |arms|
  {
    forall i | 0 <= i < |Cases(s, typeMode)| :: TakenBefore(s, typeMode, arms, k, i)
  }

  /** A useful arm: it fits, says something new, and an else is last and still needed - or there in
      any case, for ErrorKind and open domains. */
  predicate ArmFits(s: Scrutinee, typeMode: bool, arms: seq<Arm>, k: nat)
    requires k < |arms|
  {
    var p := arms[k].pattern;
    Misfit(s, typeMode, p).None? &&
    (p.Else? ==> k == |arms| - 1 && (ErrorKind(s) || Open(s, typeMode) || !AllTaken(s, typeMode, arms, k))) &&
    (Closed(p) ==> Takes(s, typeMode, p) < |Cases(s, typeMode)|) &&
    FirstToSay(s, typeMode, arms, k)
  }

  predicate ResultsAgree(arms: seq<Arm>, k: nat)
    requires k < |arms|
  {
    arms[k].result.Some? && arms[k].result == arms[0].result
  }

  predicate HasElse(arms: seq<Arm>) {
    |arms| > 0 && arms[|arms| - 1].pattern.Else?
  }

  /** Exactly what the checker accepts. */
  predicate Admissible(s: Scrutinee, typeMode: bool, arms: seq<Arm>) {
    ArmsFit(s, typeMode, arms, |arms|) &&
    (s.Integer? && !typeMode ==> HasElse(arms)) &&
    (ErrorKind(s) ==> HasElse(arms)) &&
    (HasElse(arms) || AllTaken(s, typeMode, arms, |arms|))
  }

  // ----- the coverage table -----

  class Coverage {
    const cases: seq<Case>
    const open: bool
    const covered: array<bool>
    var seen: set<int>

    constructor (s: Scrutinee, typeMode: bool)
      ensures cases == Cases(s, typeMode) && open == Open(s, typeMode)
      ensures fresh(covered) && covered.Length == |cases| && (forall i | 0 <= i < |cases| :: !covered[i])
      ensures seen == {}
    {
      cases := Cases(s, typeMode);
      open := Open(s, typeMode);
      covered := new bool[|Cases(s, typeMode)|](_ => false);
      seen := {};
    }

    method Cover(index: nat) returns (isNew: bool)
      requires index < covered.Length
      modifies covered
      ensures isNew == !old(covered[index])
      ensures covered[..] == old(covered[..])[index := true]
    {
      isNew := !covered[index];
      covered[index] := true;
    }

    method CoverKey(constant: int) returns (isNew: bool)
      modifies `seen
      ensures isNew == (constant !in old(seen)) && seen == old(seen) + {constant}
    {
      isNew := constant !in seen;
      seen := seen + {constant};
    }

    method CoverAll()
      modifies covered
      ensures forall i | 0 <= i < covered.Length :: covered[i]
    {
      for k := 0 to covered.Length
        invariant forall i | 0 <= i < k :: covered[i]
      {
        covered[k] := true;
      }
    }

    /** The first uncovered case in table order, or their number when all are covered. */
    method FirstMissing() returns (missing: nat)
      ensures missing <= covered.Length && (missing < covered.Length ==> !covered[missing])
      ensures forall i | 0 <= i < missing :: covered[i]
    {
      missing := 0;
      while missing < covered.Length && covered[missing]
        invariant missing <= covered.Length && forall i | 0 <= i < missing :: covered[i]
      {
        missing := missing + 1;
      }
    }

    method Lookup(key: string) returns (index: nat)
      ensures index == Find(cases, key)
    {
      index := 0;
      while index < |cases| && cases[index].key != key
        invariant index <= |cases| && Find(cases, key) == index + Find(cases[index..], key)
      {
        assert cases[index..][0] == cases[index] && cases[index..][1..] == cases[index + 1..];
        index := index + 1;
      }
    }
  }

  /** The table agrees with the arms checked so far, none of them an else. */
  ghost predicate Tracks(c: Coverage, s: Scrutinee, typeMode: bool, arms: seq<Arm>, k: nat)
    requires k <= |arms|
    reads c, c.covered
  {
    c.cases == Cases(s, typeMode) && c.open == Open(s, typeMode) && c.covered.Length == |c.cases| &&
    (forall i | 0 <= i < |c.cases| :: c.covered[i] == TakenBefore(s, typeMode, arms, k, i)) &&
    (forall x :: x in c.seen <==> exists j | 0 <= j < k :: arms[j].pattern == ScalarPattern(x))
  }

  ghost predicate AllCovered(c: Coverage)
    reads c.covered
  {
    forall i | 0 <= i < c.covered.Length :: c.covered[i]
  }

  /** Arms fit so far, and no else among them. */
  predicate FitUpTo(s: Scrutinee, typeMode: bool, arms: seq<Arm>, k: nat)
    requires k <= |arms|
  {
    forall j | 0 <= j < k :: ArmFits(s, typeMode, arms, j) && !arms[j].pattern.Else?
  }

  /** What arm k is refused for is so. */
  predicate Justified(s: Scrutinee, typeMode: bool, arms: seq<Arm>, k: nat, reason: Reason)
    requires k < |arms|
  {
    match reason
    case ElseNotFinal => arms[k].pattern.Else? && k < |arms| - 1
    case Unreachable =>
      Misfit(s, typeMode, arms[k].pattern).None? && !ArmFits(s, typeMode, arms, k) &&
      (arms[k].pattern.Else? ==> k == |arms| - 1)
    case ArmFailed => arms[k].result.None?
    case TypesDiffer => arms[k].result.Some? && arms[k].result != arms[0].result
    case NeedsElse => false
    case NotExhaustive(_) => false
    case _ => Misfit(s, typeMode, arms[k].pattern) == Some(reason)
  }

  /** It is the reason for refusing the first arm that is not in order. */
  predicate FirstRefused(s: Scrutinee, typeMode: bool, arms: seq<Arm>, reason: Reason) {
    exists k | 0 <= k < |arms| :: ArmsFit(s, typeMode, arms, k) && Justified(s, typeMode, arms, k, reason)
  }

  /** One pattern against the table: the tag it is recorded under, or why it is refused. */
  method CheckPattern(c: Coverage, s: Scrutinee, typeMode: bool, arms: seq<Arm>, k: nat)
    returns (refused: Option<Reason>, tag: int)
    requires k < |arms| && Tracks(c, s, typeMode, arms, k) && FitUpTo(s, typeMode, arms, k)
    modifies c`seen, c.covered
    ensures refused.None? <==> ArmFits(s, typeMode, arms, k)
    ensures refused.None? ==> tag == TagOf(s, typeMode, arms[k].pattern)
    ensures refused.None? && !arms[k].pattern.Else? ==> Tracks(c, s, typeMode, arms, k + 1)
    ensures refused.None? && arms[k].pattern.Else? ==> AllCovered(c)
    ensures refused.Some? ==> Justified(s, typeMode, arms, k, refused.value)
  {
    var p := arms[k].pattern;
    if p.Else? {
      refused := CheckElse(c, s, typeMode, arms, k);
      return refused, ELSE_TAG;
    }
    var misfit := Misfit(s, typeMode, p);
    if misfit.Some? {
      return misfit, 0;
    }
    if p.ScalarPattern? {
      refused := CheckScalar(c, s, typeMode, arms, k);
      return refused, SCALAR_TAG;
    }
    refused, tag := CheckClosed(c, s, typeMode, arms, k);
  }

  method CheckElse(c: Coverage, s: Scrutinee, typeMode: bool, arms: seq<Arm>, k: nat) returns (refused: Option<Reason>)
    requires k < |arms| && Tracks(c, s, typeMode, arms, k) && arms[k].pattern.Else?
    modifies c.covered
    ensures refused.None? <==> ArmFits(s, typeMode, arms, k)
    ensures refused.None? ==> AllCovered(c)
    ensures refused.Some? ==> Justified(s, typeMode, arms, k, refused.value)
  {
    if k != |arms| - 1 {
      return Some(ElseNotFinal);
    }
    var missing := c.FirstMissing();
    if !ErrorKind(s) && !c.open && missing == c.covered.Length {
      return Some(Unreachable);
    }
    assert missing < c.covered.Length ==> !TakenBefore(s, typeMode, arms, k, missing);
    c.CoverAll();
    return None;
  }

  method CheckScalar(c: Coverage, s: Scrutinee, typeMode: bool, arms: seq<Arm>, k: nat) returns (refused: Option<Reason>)
    requires k < |arms| && Tracks(c, s, typeMode, arms, k)
    requires arms[k].pattern.ScalarPattern? && Misfit(s, typeMode, arms[k].pattern).None?
    modifies c`seen
    ensures refused.None? <==> ArmFits(s, typeMode, arms, k)
    ensures refused.None? ==> Tracks(c, s, typeMode, arms, k + 1)
    ensures refused.Some? ==> Justified(s, typeMode, arms, k, refused.value)
  {
    var isNew := c.CoverKey(arms[k].pattern.constant);
    if !isNew {
      var j :| 0 <= j < k && arms[j].pattern == ScalarPattern(arms[k].pattern.constant);
      assert SameClaim(s, typeMode, arms[j].pattern, arms[k].pattern);
      return Some(Unreachable);
    }
    NoNewCase(s, typeMode, arms, k);
    return None;
  }

  method CheckClosed(c: Coverage, s: Scrutinee, typeMode: bool, arms: seq<Arm>, k: nat)
    returns (refused: Option<Reason>, tag: int)
    requires k < |arms| && Tracks(c, s, typeMode, arms, k)
    requires Closed(arms[k].pattern) && Misfit(s, typeMode, arms[k].pattern).None?
    modifies c.covered
    ensures refused.None? <==> ArmFits(s, typeMode, arms, k)
    ensures refused.None? ==> tag == TagOf(s, typeMode, arms[k].pattern) && Tracks(c, s, typeMode, arms, k + 1)
    ensures refused.Some? ==> Justified(s, typeMode, arms, k, refused.value)
  {
    var index := c.Lookup(KeyOf(s, arms[k].pattern));
    if index == |c.cases| {
      return Some(Unreachable), 0;
    }
    NewCaseIsFirst(s, typeMode, arms, k);
    var isNew := MarkCase(c, s, typeMode, arms, k, index);
    if !isNew {
      return Some(Unreachable), 0;
    }
    return None, c.cases[index].tag;
  }

  /** Marks the case a closed pattern takes; the table then tracks one more arm. */
  method MarkCase(c: Coverage, s: Scrutinee, typeMode: bool, arms: seq<Arm>, k: nat, index: nat) returns (isNew: bool)
    requires k < |arms| && Tracks(c, s, typeMode, arms, k) && Closed(arms[k].pattern)
    requires index == Takes(s, typeMode, arms[k].pattern) < |c.cases|
    modifies c.covered
    ensures isNew == !TakenBefore(s, typeMode, arms, k, index)
    ensures Tracks(c, s, typeMode, arms, k + 1)
  {
    isNew := c.Cover(index);
    OneNewCase(s, typeMode, arms, k);
    forall i | 0 <= i < |c.cases| ensures c.covered[i] == TakenBefore(s, typeMode, arms, k + 1, i) {
      assert c.covered[i] == c.covered[..][i];
    }
  }

  /** A fitting closed pattern is useful exactly when it takes a case no earlier arm takes. */
  lemma NewCaseIsFirst(s: Scrutinee, typeMode: bool, arms: seq<Arm>, k: nat)
    requires k < |arms| && Closed(arms[k].pattern) && Misfit(s, typeMode, arms[k].pattern).None?
    ensures var index := Takes(s, typeMode, arms[k].pattern);
      ArmFits(s, typeMode, arms, k) <==> index < |Cases(s, typeMode)| && !TakenBefore(s, typeMode, arms, k, index)
  {
    var index := Takes(s, typeMode, arms[k].pattern);
    if j :| 0 <= j < k && Closed(arms[j].pattern) && Takes(s, typeMode, arms[j].pattern) == index {
      assert SameClaim(s, typeMode, arms[j].pattern, arms[k].pattern);
    }
  }

  lemma NoNewCase(s: Scrutinee, typeMode: bool, arms: seq<Arm>, k: nat)
    requires k < |arms| && !Closed(arms[k].pattern)
    ensures forall i :: TakenBefore(s, typeMode, arms, k + 1, i) == TakenBefore(s, typeMode, arms, k, i)
  {
  }

  lemma OneNewCase(s: Scrutinee, typeMode: bool, arms: seq<Arm>, k: nat)
    requires k < |arms| && Closed(arms[k].pattern)
    ensures forall i ::
      TakenBefore(s, typeMode, arms, k + 1, i) ==
      (TakenBefore(s, typeMode, arms, k, i) || i == Takes(s, typeMode, arms[k].pattern))
  {
    var p := arms[k].pattern;
    assert TakenBefore(s, typeMode, arms, k + 1, Takes(s, typeMode, p)) by {
      assert Closed(arms[k].pattern) && Takes(s, typeMode, arms[k].pattern) == Takes(s, typeMode, p);
    }
    forall i: nat | TakenBefore(s, typeMode, arms, k + 1, i) && !TakenBefore(s, typeMode, arms, k, i)
      ensures i == Takes(s, typeMode, p)
    {
      var j :| 0 <= j < k + 1 && Closed(arms[j].pattern) && Takes(s, typeMode, arms[j].pattern) == i;
      assert j == k;
    }
  }

  /** The arm loop and the three checks after it: acceptance is admissibility, and every arm is
      recorded under its tag and constant. A match that is not exhaustive names its first missing
      case. */
  method CheckMatchExpression(s: Scrutinee, typeMode: bool, arms: seq<Arm>) returns (v: Verdict)
    ensures v.Accepted? <==> Admissible(s, typeMode, arms)
    ensures v.Accepted? ==> v.tags == Tags(s, typeMode, arms) && v.constants == Constants(arms)
    ensures v.Rejected? && v.reason.NeedsElse? ==>
      ArmsFit(s, typeMode, arms, |arms|) && !HasElse(arms) && ((s.Integer? && !typeMode) || ErrorKind(s))
    ensures v.Rejected? && !v.reason.NeedsElse? && !v.reason.NotExhaustive? ==> FirstRefused(s, typeMode, arms, v.reason)
    ensures v.Rejected? && v.reason.NotExhaustive? ==>
      var i := v.reason.missing;
      i < |Cases(s, typeMode)| && !HasElse(arms) && !TakenBefore(s, typeMode, arms, |arms|, i) &&
      forall j | 0 <= j < i :: TakenBefore(s, typeMode, arms, |arms|, j)
  {
    var c := new Coverage(s, typeMode);
    var refused, tags, constants, hasElse := CheckArms(c, s, typeMode, arms);
    if refused.Some? {
      return Rejected(refused.value);
    }
    if s.Integer? && !typeMode && !hasElse {
      return Rejected(NeedsElse);
    }
    if ErrorKind(s) && !hasElse {
      return Rejected(NeedsElse);
    }
    var missing := c.FirstMissing();
    if missing < c.covered.Length {
      assert !hasElse && !TakenBefore(s, typeMode, arms, |arms|, missing);
      assert !AllTaken(s, typeMode, arms, |arms|);
      return Rejected(NotExhaustive(missing));
    }
    assert hasElse || AllTaken(s, typeMode, arms, |arms|);
    return Accepted(tags, constants);
  }

  /** The arms of a match, each fitting and agreeing in type with the first. */
  predicate ArmsFit(s: Scrutinee, typeMode: bool, arms: seq<Arm>, k: nat)
    requires k <= |arms|
  {
    forall j | 0 <= j < k :: ArmFits(s, typeMode, arms, j) && ResultsAgree(arms, j)
  }

  method CheckArms(c: Coverage, s: Scrutinee, typeMode: bool, arms: seq<Arm>)
    returns (refused: Option<Reason>, tags: seq<int>, constants: seq<Option<int>>, hasElse: bool)
    requires Tracks(c, s, typeMode, arms, 0)
    modifies c`seen, c.covered
    ensures refused.None? <==> ArmsFit(s, typeMode, arms, |arms|)
    ensures refused.Some? ==> FirstRefused(s, typeMode, arms, refused.value)
    ensures refused.None? ==> tags == Tags(s, typeMode, arms) && constants == Constants(arms) && hasElse == HasElse(arms)
    ensures refused.None? && hasElse ==> AllCovered(c)
    ensures refused.None? && !hasElse ==> Tracks(c, s, typeMode, arms, |arms|)
  {
    tags, constants, hasElse := [], [], false;
    for k := 0 to |arms|
      invariant tags == Tags(s, typeMode, arms[..k]) && constants == Constants(arms[..k])
      invariant ArmsFit(s, typeMode, arms, k)
      invariant hasElse ==> k == |arms| && HasElse(arms) && AllCovered(c)
      invariant !hasElse ==> Tracks(c, s, typeMode, arms, k) && FitUpTo(s, typeMode, arms, k)
    {
      var bad, tag := CheckPattern(c, s, typeMode, arms, k);
      if bad.Some? {
        return bad, tags, constants, hasElse;
      }
      OneMoreTag(s, typeMode, arms, k);
      hasElse := arms[k].pattern.Else?;
      tags := tags + [tag];
      constants := constants + [ConstantOf(arms[k])];
      bad := CheckResult(s, typeMode, arms, k);
      if bad.Some? {
        return bad, tags, constants, hasElse;
      }
    }
    assert arms[..|arms|] == arms;
    return None, tags, constants, hasElse;
  }

  /** The body of an arm: it failed on its own, or it disagrees in type with the first. */
  method CheckResult(s: Scrutinee, typeMode: bool, arms: seq<Arm>, k: nat) returns (refused: Option<Reason>)
    requires k < |arms| && ArmsFit(s, typeMode, arms, k) && ArmFits(s, typeMode, arms, k)
    ensures refused.None? <==> ArmsFit(s, typeMode, arms, k + 1)
    ensures refused.None? <==> ResultsAgree(arms, k)
    ensures refused.Some? ==> Justified(s, typeMode, arms, k, refused.value)
  {
    if arms[k].result.None? {
      return Some(ArmFailed);
    }
    if arms[k].result != arms[0].result {
      return Some(TypesDiffer);
    }
    refused := None;
  }

  lemma OneMoreTag(s: Scrutinee, typeMode: bool, arms: seq<Arm>, k: nat)
    requires k < |arms|
    ensures Tags(s, typeMode, arms[..k + 1]) == Tags(s, typeMode, arms[..k]) + [TagOf(s, typeMode, arms[k].pattern)]
    ensures Constants(arms[..k + 1]) == Constants(arms[..k]) + [ConstantOf(arms[k])]
  {
  }

  function ConstantOf(arm: Arm): Option<int> {
    if arm.pattern.ScalarPattern? then Some(arm.pattern.constant) else None
  }

  function Constants(arms: seq<Arm>): seq<Option<int>> {
    seq(|arms|, k requires 0 <= k < |arms| => ConstantOf(arms[k]))
  }

  function Tags(s: Scrutinee, typeMode: bool, arms: seq<Arm>): seq<int> {
    seq(|arms|, k requires 0 <= k < |arms| => TagOf(s, typeMode, arms[k].pattern))
  }

  // ----- what the arms select -----

  /** A scrutinee value, as far as a match can tell: a variant or member by position, a truth value,
      an integer, or a value with nothing to tell. */
  datatype Value = Tagged(tag: nat) | Int(n: int) | Plain

  predicate InDomain(s: Scrutinee, v: Value) {
    match s
    case Adt(_, variants, _) => v.Tagged? && v.tag < |variants|
    case Union(_, members) => v.Tagged? && v.tag < |members|
    case Bool(_) => v.Tagged? && v.tag < 2
    case Integer(_, _, _) => v.Int? && InRange(s, v.n)
    case _ => v.Plain?
  }

  /** The test a recorded arm makes of the value; an else makes none. */
  predicate Tests(tag: int, constant: Option<int>, v: Value) {
    if tag == WHOLE_TAG then true
    else if tag == SCALAR_TAG then constant.Some? && v == Int(constant.value)
    else tag >= 0 && v == Tagged(tag)
  }

  /** The arm selects the value: its test holds, or it is the else and no test does. */
  predicate Selects(tags: seq<int>, constants: seq<Option<int>>, k: nat, v: Value)
    requires |tags| == |constants| && k < |tags|
  {
    if tags[k] == ELSE_TAG then forall j | 0 <= j < |tags| :: !Tests(tags[j], constants[j], v)
    else Tests(tags[k], constants[k], v)
  }

  /** The case a value of a closed domain belongs to. */
  function CaseOf(s: Scrutinee, typeMode: bool, v: Value): nat {
    if Cases(s, typeMode) != [] && Cases(s, typeMode)[0].tag == WHOLE_TAG then 0
    else if v.Tagged? then v.tag else 0
  }

  lemma TestsItsCase(s: Scrutinee, typeMode: bool, arm: Arm, v: Value)
    requires InDomain(s, v) && Closed(arm.pattern) && Misfit(s, typeMode, arm.pattern).None?
    requires Takes(s, typeMode, arm.pattern) < |Cases(s, typeMode)|
    ensures CaseOf(s, typeMode, v) < |Cases(s, typeMode)|
    ensures Tests(TagOf(s, typeMode, arm.pattern), ConstantOf(arm), v) <==>
      Takes(s, typeMode, arm.pattern) == CaseOf(s, typeMode, v)
  {
  }

  /** Two arms that both test true of one value say the same. */
  lemma TestsDisjoint(s: Scrutinee, typeMode: bool, arms: seq<Arm>, j: nat, k: nat, v: Value)
    requires Admissible(s, typeMode, arms) && InDomain(s, v) && j < k < |arms|
    requires !arms[j].pattern.Else? && !arms[k].pattern.Else?
    ensures !(Tests(TagOf(s, typeMode, arms[j].pattern), ConstantOf(arms[j]), v) &&
              Tests(TagOf(s, typeMode, arms[k].pattern), ConstantOf(arms[k]), v))
  {
    assert ArmFits(s, typeMode, arms, j) && ArmFits(s, typeMode, arms, k);
    assert !SameClaim(s, typeMode, arms[j].pattern, arms[k].pattern);
    if Closed(arms[j].pattern) { TestsItsCase(s, typeMode, arms[j], v); }
    if Closed(arms[k].pattern) { TestsItsCase(s, typeMode, arms[k], v); }
  }

  /** An accepted match partitions its domain: every value selects exactly one arm. */
  lemma AcceptedPartitions(s: Scrutinee, typeMode: bool, arms: seq<Arm>, v: Value) returns (k: nat)
    requires Admissible(s, typeMode, arms) && |arms| > 0 && InDomain(s, v)
    ensures k < |arms| && Selects(Tags(s, typeMode, arms), Constants(arms), k, v)
    ensures forall j | 0 <= j < |arms| && j != k :: !Selects(Tags(s, typeMode, arms), Constants(arms), j, v)
  {
    var tags, constants := Tags(s, typeMode, arms), Constants(arms);
    if i :| 0 <= i < |arms| && Tests(tags[i], constants[i], v) {
      k := i;
      NotElse(s, typeMode, arms, i);
      forall j | 0 <= j < |arms| && j != k ensures !Selects(tags, constants, j, v) {
        if !arms[j].pattern.Else? {
          NotElse(s, typeMode, arms, j);
          if j < k { TestsDisjoint(s, typeMode, arms, j, k, v); } else { TestsDisjoint(s, typeMode, arms, k, j, v); }
        }
      }
    } else {
      if !HasElse(arms) {
        SomeTestHolds(s, typeMode, arms, v);
        assert false;
      }
      k := |arms| - 1;
      forall j | 0 <= j < |arms| && j != k ensures !Selects(tags, constants, j, v) {
        assert ArmFits(s, typeMode, arms, j);
        NotElse(s, typeMode, arms, j);
      }
    }
  }

  lemma NotElse(s: Scrutinee, typeMode: bool, arms: seq<Arm>, k: nat)
    requires k < |arms| && forall j | 0 <= j < |arms| :: ArmFits(s, typeMode, arms, j)
    ensures Tags(s, typeMode, arms)[k] == ELSE_TAG <==> arms[k].pattern.Else?
  {
    assert ArmFits(s, typeMode, arms, k);
  }

  /** Without an else, some arm takes the value's case. */
  lemma SomeTestHolds(s: Scrutinee, typeMode: bool, arms: seq<Arm>, v: Value)
    requires Admissible(s, typeMode, arms) && |arms| > 0 && InDomain(s, v) && !HasElse(arms)
    ensures exists k | 0 <= k < |arms| :: Tests(Tags(s, typeMode, arms)[k], Constants(arms)[k], v)
  {
    assert ArmFits(s, typeMode, arms, 0);
    TestsItsCase(s, typeMode, arms[0], v);
    var i := CaseOf(s, typeMode, v);
    assert TakenBefore(s, typeMode, arms, |arms|, i);
    var j :| 0 <= j < |arms| && Closed(arms[j].pattern) && Takes(s, typeMode, arms[j].pattern) == i;
    assert ArmFits(s, typeMode, arms, j);
    TestsItsCase(s, typeMode, arms[j], v);
    assert Tests(Tags(s, typeMode, arms)[j], Constants(arms)[j], v);
  }

  // ----- what the patterns mean -----

  /** The value is one the pattern speaks of, by the names it is written with. */
  predicate Means(s: Scrutinee, p: Pattern, v: Value) {
    match p
    case Else => false
    case BoolPattern(truth) => s.Bool? && v == Tagged(if truth then 1 else 0)
    case EosPattern => s.EoS? && v == Plain
    case ScalarPattern(c) => s.Integer? && v == Int(c)
    case VariantPattern(owner, name) =>
      s.Adt? && owner == s.key && v.Tagged? && v.tag < |s.variants| && s.variants[v.tag] == name
    case TypePattern(typ) =>
      if s.Union? then v.Tagged? && v.tag < |s.members| && s.members[v.tag] == typ
      else !s.Adt? && typ == s.key
  }

  /** Variants and types are written in a match on the type, the other patterns in one on the value. */
  predicate RightMode(typeMode: bool, p: Pattern) {
    typeMode <==> p.VariantPattern? || p.TypePattern?
  }

  /** An ADT's variants and a union's members have names of their own, none of them the ADT's key. */
  predicate DistinctNames(s: Scrutinee) {
    && (s.Adt? ==> s.key !in s.variants && forall i, j | 0 <= i < j < |s.variants| :: s.variants[i] != s.variants[j])
    && (s.Union? ==> forall i, j | 0 <= i < j < |s.members| :: s.members[i] != s.members[j])
  }

  ghost predicate MeansSome(s: Scrutinee, p: Pattern) {
    exists v :: InDomain(s, v) && Means(s, p, v)
  }

  /** What a pattern fits the scrutinee and the mode for, its case being known. */
  predicate Fits(s: Scrutinee, typeMode: bool, p: Pattern) {
    Misfit(s, typeMode, p).None? && (Closed(p) ==> Takes(s, typeMode, p) < |Cases(s, typeMode)|)
  }

  lemma CaseKeys(s: Scrutinee, typeMode: bool, i: nat)
    requires DistinctNames(s) && i < |Cases(s, typeMode)|
    ensures Find(Cases(s, typeMode), Cases(s, typeMode)[i].key) == i
  {
    var cases := Cases(s, typeMode);
    var j := Find(cases, cases[i].key);
    assert j <= i;
  }

  /** A closed pattern that fits means exactly the values of the case it takes. */
  lemma MeansItsCase(s: Scrutinee, typeMode: bool, p: Pattern, v: Value)
    requires DistinctNames(s) && InDomain(s, v) && Closed(p) && Fits(s, typeMode, p)
    ensures Means(s, p, v) <==> Takes(s, typeMode, p) == CaseOf(s, typeMode, v)
  {
    var i := Takes(s, typeMode, p);
    assert Cases(s, typeMode)[i].key == KeyOf(s, p);
    if CaseOf(s, typeMode, v) < |Cases(s, typeMode)| { CaseKeys(s, typeMode, CaseOf(s, typeMode, v)); }
  }

  /** A pattern is refused, coverage apart, exactly when it is of the other mode or means no value of
      the scrutinee: another type's variant, an unknown union member, a literal out of range. */
  lemma FitsExactly(s: Scrutinee, typeMode: bool, p: Pattern)
    requires DistinctNames(s) && !p.Else?
    ensures Fits(s, typeMode, p) <==> RightMode(typeMode, p) && MeansSome(s, p)
  {
    match p
    case ScalarPattern(c) =>
      if s.Integer? && InRange(s, c) { assert InDomain(s, Int(c)) && Means(s, p, Int(c)); }
    case BoolPattern(truth) =>
      if s.Bool? {
        assert InDomain(s, Tagged(if truth then 1 else 0)) && Means(s, p, Tagged(if truth then 1 else 0));
        if !typeMode { CaseKeys(s, typeMode, if truth then 1 else 0); }
      }
    case EosPattern =>
      if s.EoS? { assert InDomain(s, Plain); }
    case VariantPattern(owner, name) =>
      if typeMode && s.Adt? && owner == s.key { VariantFits(s, p); }
    case TypePattern(typ) =>
      if s.Union? {
        if typeMode { MemberFits(s, p); }
      } else if !s.Adt? && typ == s.key {
        SampleIsOfItsCase(s, true, 0);
        assert Means(s, p, Sample(s, true, 0));
      }
  }

  /** What a pattern that does not fit is refused for. */
  lemma MisfitReasons(s: Scrutinee, typeMode: bool, p: Pattern)
    requires !p.Else?
    ensures Misfit(s, typeMode, p) == Some(WrongMode) <==> !RightMode(typeMode, p)
    ensures Misfit(s, typeMode, p) == Some(OutOfRange) <==>
      RightMode(typeMode, p) && p.ScalarPattern? && s.Integer? && !InDomain(s, Int(p.constant))
    ensures Misfit(s, typeMode, p).Some? ==>
      Misfit(s, typeMode, p).value in {WrongMode, OutOfRange, WrongType}
  {
  }

  lemma VariantFits(s: Scrutinee, p: Pattern)
    requires DistinctNames(s) && s.Adt? && p.VariantPattern? && p.owner == s.key
    ensures Fits(s, true, p) <==> MeansSome(s, p)
  {
    var i := Takes(s, true, p);
    if i < |s.variants| { assert InDomain(s, Tagged(i)) && Means(s, p, Tagged(i)); }
    if v :| InDomain(s, v) && Means(s, p, v) { CaseKeys(s, true, v.tag); }
  }

  lemma MemberFits(s: Scrutinee, p: Pattern)
    requires DistinctNames(s) && s.Union? && p.TypePattern?
    ensures Fits(s, true, p) <==> MeansSome(s, p)
  {
    var i := Takes(s, true, p);
    if i < |s.members| { assert InDomain(s, Tagged(i)) && Means(s, p, Tagged(i)); }
    if v :| InDomain(s, v) && Means(s, p, v) { CaseKeys(s, true, v.tag); }
  }

  // ----- every arm is of use -----

  /** A value of each case. */
  function Sample(s: Scrutinee, typeMode: bool, i: nat): Value {
    match s
    case Adt(_, _, _) => Tagged(i)
    case Union(_, _) => Tagged(i)
    case Bool(_) => Tagged(i)
    case Integer(_, _, _) => Int(Lowest(s))
    case _ => Plain
  }

  lemma SampleIsOfItsCase(s: Scrutinee, typeMode: bool, i: nat)
    requires i < |Cases(s, typeMode)|
    ensures InDomain(s, Sample(s, typeMode, i)) && CaseOf(s, typeMode, Sample(s, typeMode, i)) == i
  {
  }

  /** Every arm but an else is selected by some value. */
  lemma WrittenArmIsUsed(s: Scrutinee, typeMode: bool, arms: seq<Arm>, k: nat) returns (v: Value)
    requires Admissible(s, typeMode, arms) && k < |arms| && !arms[k].pattern.Else?
    ensures InDomain(s, v) && Selects(Tags(s, typeMode, arms), Constants(arms), k, v)
  {
    assert ArmFits(s, typeMode, arms, k);
    NotElse(s, typeMode, arms, k);
    if arms[k].pattern.ScalarPattern? {
      v := Int(arms[k].pattern.constant);
    } else {
      var i := Takes(s, typeMode, arms[k].pattern);
      v := Sample(s, typeMode, i);
      SampleIsOfItsCase(s, typeMode, i);
      TestsItsCase(s, typeMode, arms[k], v);
    }
  }

  // ----- acceptance, in terms of what the patterns mean -----

  /** Both patterns speak of some value. */
  ghost predicate Overlap(s: Scrutinee, p: Pattern, q: Pattern) {
    exists v :: InDomain(s, v) && Means(s, p, v) && Means(s, q, v)
  }

  /** Some arm before k speaks of the value. */
  predicate MeantBefore(s: Scrutinee, arms: seq<Arm>, k: nat, v: Value)
    requires k <= |arms|
  {
    exists j | 0 <= j < k :: Means(s, arms[j].pattern, v)
  }

  ghost predicate AllMeant(s: Scrutinee, arms: seq<Arm>, k: nat)
    requires k <= |arms|
  {
    forall v | InDomain(s, v) :: MeantBefore(s, arms, k, v)
  }

  /** The arm means something new; an else is last and there is something left for it, or it is there
      in any case. */
  ghost predicate Sensible(s: Scrutinee, typeMode: bool, arms: seq<Arm>, k: nat)
    requires k < |arms|
  {
    var p := arms[k].pattern;
    if p.Else? then k == |arms| - 1 && (ErrorKind(s) || Open(s, typeMode) || !AllMeant(s, arms, k))
    else RightMode(typeMode, p) && MeansSome(s, p) && forall j | 0 <= j < k :: !Overlap(s, arms[j].pattern, p)
  }

  lemma SameClaimIsOverlap(s: Scrutinee, typeMode: bool, p: Pattern, q: Pattern)
    requires DistinctNames(s) && !p.Else? && !q.Else? && Fits(s, typeMode, p) && Fits(s, typeMode, q)
    ensures SameClaim(s, typeMode, p, q) <==> Overlap(s, p, q)
  {
    FitsExactly(s, typeMode, p);
    FitsExactly(s, typeMode, q);
    if SameClaim(s, typeMode, p, q) {
      var v :| InDomain(s, v) && Means(s, p, v);
      if Closed(p) {
        MeansItsCase(s, typeMode, p, v);
        MeansItsCase(s, typeMode, q, v);
      }
      assert Means(s, q, v);
    }
    if v :| InDomain(s, v) && Means(s, p, v) && Means(s, q, v) {
      if Closed(p) && Closed(q) {
        MeansItsCase(s, typeMode, p, v);
        MeansItsCase(s, typeMode, q, v);
      }
    }
  }

  /** In a closed domain, all cases are taken exactly when all values are spoken of. */
  lemma TakenIsMeant(s: Scrutinee, typeMode: bool, arms: seq<Arm>, k: nat)
    requires DistinctNames(s) && k <= |arms| && !Open(s, typeMode)
    requires forall j | 0 <= j < k :: !arms[j].pattern.Else? && Fits(s, typeMode, arms[j].pattern)
    ensures AllTaken(s, typeMode, arms, k) <==> AllMeant(s, arms, k)
  {
    if AllTaken(s, typeMode, arms, k) {
      forall v | InDomain(s, v) ensures MeantBefore(s, arms, k, v) {
        assert TakenBefore(s, typeMode, arms, k, CaseOf(s, typeMode, v));
        var j :| 0 <= j < k && Closed(arms[j].pattern) && Takes(s, typeMode, arms[j].pattern) == CaseOf(s, typeMode, v);
        MeansItsCase(s, typeMode, arms[j].pattern, v);
      }
    }
    if AllMeant(s, arms, k) {
      forall i | 0 <= i < |Cases(s, typeMode)| ensures TakenBefore(s, typeMode, arms, k, i) {
        var v := Sample(s, typeMode, i);
        SampleIsOfItsCase(s, typeMode, i);
        assert MeantBefore(s, arms, k, v);
        var j :| 0 <= j < k && Means(s, arms[j].pattern, v);
        MeansItsCase(s, typeMode, arms[j].pattern, v);
      }
    }
  }

  /** A useful arm is a sensible one. */
  lemma ArmFitsExactly(s: Scrutinee, typeMode: bool, arms: seq<Arm>, k: nat)
    requires DistinctNames(s) && k < |arms|
    requires forall j | 0 <= j < k :: !arms[j].pattern.Else? && Fits(s, typeMode, arms[j].pattern)
    ensures ArmFits(s, typeMode, arms, k) <==> Sensible(s, typeMode, arms, k)
  {
    var p := arms[k].pattern;
    if p.Else? {
      if !Open(s, typeMode) { TakenIsMeant(s, typeMode, arms, k); }
    } else {
      FitsExactly(s, typeMode, p);
      if Fits(s, typeMode, p) {
        forall j | 0 <= j < k ensures SameClaim(s, typeMode, arms[j].pattern, p) <==> Overlap(s, arms[j].pattern, p) {
          SameClaimIsOverlap(s, typeMode, arms[j].pattern, p);
        }
      }
    }
  }

  /** A match is accepted exactly when every arm is sensible, all agree in type, an integer or an
      ErrorKind has an else, and every value is spoken of or left to one. */
  lemma AdmissibleExactly(s: Scrutinee, typeMode: bool, arms: seq<Arm>)
    requires DistinctNames(s) && |arms| > 0
    ensures Admissible(s, typeMode, arms) <==>
      && (forall k | 0 <= k < |arms| :: Sensible(s, typeMode, arms, k) && ResultsAgree(arms, k))
      && (s.Integer? && !typeMode ==> HasElse(arms)) && (ErrorKind(s) ==> HasElse(arms))
      && (HasElse(arms) || AllMeant(s, arms, |arms|))
  {
    SensibleUpTo(s, typeMode, arms, |arms|);
    if (forall k | 0 <= k < |arms| :: Sensible(s, typeMode, arms, k)) && !HasElse(arms) {
      forall j | 0 <= j < |arms| ensures !arms[j].pattern.Else? && Fits(s, typeMode, arms[j].pattern) {
        assert Sensible(s, typeMode, arms, j);
        if !arms[j].pattern.Else? { FitsExactly(s, typeMode, arms[j].pattern); }
      }
      assert Fits(s, typeMode, arms[0].pattern);
      if !Open(s, typeMode) { TakenIsMeant(s, typeMode, arms, |arms|); }
    }
  }

  lemma {:induction false} SensibleUpTo(s: Scrutinee, typeMode: bool, arms: seq<Arm>, n: nat)
    requires DistinctNames(s) && n <= |arms|
    ensures (forall k | 0 <= k < n :: ArmFits(s, typeMode, arms, k)) <==> forall k | 0 <= k < n :: Sensible(s, typeMode, arms, k)
  {
    if n > 0 {
      SensibleUpTo(s, typeMode, arms, n - 1);
      if forall k | 0 <= k < n - 1 :: ArmFits(s, typeMode, arms, k) {
        forall j | 0 <= j < n - 1 ensures !arms[j].pattern.Else? && Fits(s, typeMode, arms[j].pattern) {
          assert ArmFits(s, typeMode, arms, j);
        }
        ArmFitsExactly(s, typeMode, arms, n - 1);
      }
    }
  }

  /** In an accepted match an arm but an else is run for exactly the values its pattern means. */
  lemma SelectsWhatItMeans(s: Scrutinee, typeMode: bool, arms: seq<Arm>, k: nat, v: Value)
    requires DistinctNames(s) && Admissible(s, typeMode, arms) && k < |arms| && !arms[k].pattern.Else? && InDomain(s, v)
    ensures Selects(Tags(s, typeMode, arms), Constants(arms), k, v) <==> Means(s, arms[k].pattern, v)
  {
    assert ArmFits(s, typeMode, arms, k);
    NotElse(s, typeMode, arms, k);
    if Closed(arms[k].pattern) {
      TestsItsCase(s, typeMode, arms[k], v);
      MeansItsCase(s, typeMode, arms[k].pattern, v);
    }
  }

  ghost function Written(arms: seq<Arm>): (w: set<int>)
    ensures forall c :: c in w <==> exists j | 0 <= j < |arms| :: arms[j].pattern == ScalarPattern(c)
  {
    if arms == [] then {}
    else
      var last := arms[|arms| - 1].pattern;
      assert forall j | 0 <= j < |arms| - 1 :: arms[..|arms| - 1][j] == arms[j];
      Written(arms[..|arms| - 1]) + if last.ScalarPattern? then {last.constant} else {}
  }

  ghost function Range(low: int, count: nat): (r: set<int>)
    ensures |r| == count && forall c :: c in r <==> low <= c < low + count
  {
    if count == 0 then {} else Range(low, count - 1) + {low + count - 1}
  }

  /** Distinct constants, one per arm. */
  lemma {:induction false} WrittenCount(s: Scrutinee, arms: seq<Arm>)
    requires forall k | 0 <= k < |arms| :: arms[k].pattern.ScalarPattern? && FirstToSay(s, false, arms, k)
    ensures |Written(arms)| == |arms|
  {
    if arms != [] {
      var rest, n := arms[..|arms| - 1], |arms| - 1;
      forall k | 0 <= k < n ensures rest[k].pattern.ScalarPattern? && FirstToSay(s, false, rest, k) {
        assert FirstToSay(s, false, arms, k);
        forall j | 0 <= j < k ensures !SameClaim(s, false, rest[j].pattern, rest[k].pattern) {
          assert !SameClaim(s, false, arms[j].pattern, arms[k].pattern);
        }
      }
      WrittenCount(s, rest);
      assert FirstToSay(s, false, arms, n);
      assert arms[n].pattern.constant !in Written(rest) by {
        if j :| 0 <= j < n && rest[j].pattern == ScalarPattern(arms[n].pattern.constant) {
          assert SameClaim(s, false, arms[j].pattern, arms[n].pattern);
        }
      }
    }
  }

  /** Every literal of the machine width is written. */
  predicate AllLiterals(s: Scrutinee, typeMode: bool, arms: seq<Arm>) {
    s.Integer? && !typeMode && |arms| == Pow2(s.bits) + 1
  }

  lemma LiteralsFit(s: Scrutinee, arms: seq<Arm>)
    requires s.Integer? && Admissible(s, false, arms) && HasElse(arms)
    ensures var w := Written(arms[..|arms| - 1]);
      |w| == |arms| - 1 && w <= Range(Lowest(s), Pow2(s.bits))
  {
    var rest := arms[..|arms| - 1];
    forall k | 0 <= k < |rest| ensures rest[k].pattern.ScalarPattern? && InRange(s, rest[k].pattern.constant) && FirstToSay(s, false, rest, k) {
      assert ArmFits(s, false, arms, k);
      forall j | 0 <= j < k ensures !SameClaim(s, false, rest[j].pattern, rest[k].pattern) {
        assert !SameClaim(s, false, arms[j].pattern, arms[k].pattern);
      }
    }
    WrittenCount(s, rest);
  }

  lemma ElseSelects(s: Scrutinee, typeMode: bool, arms: seq<Arm>, v: Value)
    requires Admissible(s, typeMode, arms) && HasElse(arms) && InDomain(s, v)
    ensures Selects(Tags(s, typeMode, arms), Constants(arms), |arms| - 1, v) <==>
      (forall j | 0 <= j < |arms| - 1 ::
        if arms[j].pattern.ScalarPattern? then v != Int(arms[j].pattern.constant)
        else Takes(s, typeMode, arms[j].pattern) != CaseOf(s, typeMode, v))
  {
    var tags, constants, last := Tags(s, typeMode, arms), Constants(arms), |arms| - 1;
    NotElse(s, typeMode, arms, last);
    assert !Tests(tags[last], constants[last], v);
    forall j | 0 <= j < last
      ensures Tests(tags[j], constants[j], v) <==>
        (if arms[j].pattern.ScalarPattern? then v == Int(arms[j].pattern.constant)
         else Takes(s, typeMode, arms[j].pattern) == CaseOf(s, typeMode, v))
    {
      assert ArmFits(s, typeMode, arms, j);
      if Closed(arms[j].pattern) { TestsItsCase(s, typeMode, arms[j], v); }
    }
  }

  /** An accepted else is selected by some value, except in exactly two cases: ErrorKind with every
      variant written, and an integer match with every literal of its width written. */
  lemma ElseIsUsedExactly(s: Scrutinee, typeMode: bool, arms: seq<Arm>)
    requires Admissible(s, typeMode, arms) && HasElse(arms)
    ensures (exists v :: ElseTakes(s, typeMode, arms, v)) <==>
      !(ErrorKind(s) && AllTaken(s, typeMode, arms, |arms| - 1)) && !AllLiterals(s, typeMode, arms)
  {
    var last := |arms| - 1;
    assert ArmFits(s, typeMode, arms, last);
    if s.Integer? && !typeMode {
      IntegerElse(s, arms);
    } else if Open(s, typeMode) {
      OnlyElse(s, typeMode, arms);
      ElseSelects(s, typeMode, arms, Plain);
      assert ElseTakes(s, typeMode, arms, Plain);
    } else if AllTaken(s, typeMode, arms, last) {
      forall v | InDomain(s, v) ensures !ElseTakes(s, typeMode, arms, v) {
        ElseSelects(s, typeMode, arms, v);
        assert TakenBefore(s, typeMode, arms, last, CaseOf(s, typeMode, v));
      }
    } else {
      var i :| 0 <= i < |Cases(s, typeMode)| && !TakenBefore(s, typeMode, arms, last, i);
      UntakenCaseIsElse(s, typeMode, arms, i);
    }
  }

  lemma OnlyElse(s: Scrutinee, typeMode: bool, arms: seq<Arm>)
    requires Admissible(s, typeMode, arms) && s.Other? && !typeMode && HasElse(arms)
    ensures |arms| == 1
  {
    assert ArmFits(s, typeMode, arms, 0);
  }

  lemma UntakenCaseIsElse(s: Scrutinee, typeMode: bool, arms: seq<Arm>, i: nat)
    requires Admissible(s, typeMode, arms) && HasElse(arms) && !Open(s, typeMode)
    requires i < |Cases(s, typeMode)| && !TakenBefore(s, typeMode, arms, |arms| - 1, i)
    ensures exists v :: ElseTakes(s, typeMode, arms, v)
  {
    var v := Sample(s, typeMode, i);
    SampleIsOfItsCase(s, typeMode, i);
    forall j | 0 <= j < |arms| - 1
      ensures Closed(arms[j].pattern) && Takes(s, typeMode, arms[j].pattern) != i
    {
      assert ArmFits(s, typeMode, arms, j);
    }
    ElseSelects(s, typeMode, arms, v);
    assert ElseTakes(s, typeMode, arms, v);
  }

  ghost predicate ElseTakes(s: Scrutinee, typeMode: bool, arms: seq<Arm>, v: Value)
    requires |arms| > 0
  {
    InDomain(s, v) && Selects(Tags(s, typeMode, arms), Constants(arms), |arms| - 1, v)
  }

  lemma ElseTakesUnwritten(s: Scrutinee, arms: seq<Arm>, n: int)
    requires s.Integer? && Admissible(s, false, arms) && HasElse(arms) && InRange(s, n)
    ensures ElseTakes(s, false, arms, Int(n)) <==> n !in Written(arms[..|arms| - 1])
  {
    var rest := arms[..|arms| - 1];
    ElseSelects(s, false, arms, Int(n));
    forall j | 0 <= j < |rest| ensures arms[j].pattern.ScalarPattern? && rest[j] == arms[j] {
      assert ArmFits(s, false, arms, j);
    }
  }

  lemma IntegerElse(s: Scrutinee, arms: seq<Arm>)
    requires s.Integer? && Admissible(s, false, arms) && HasElse(arms)
    ensures (exists v :: ElseTakes(s, false, arms, v)) <==> |arms| - 1 < Pow2(s.bits)
    ensures |arms| - 1 <= Pow2(s.bits)
  {
    var taken, room := Written(arms[..|arms| - 1]), Range(Lowest(s), Pow2(s.bits));
    LiteralsFit(s, arms);
    SubsetCount(taken, room);
    if |taken| < Pow2(s.bits) {
      var n := Uncovered(taken, room);
      ElseTakesUnwritten(s, arms, n);
    } else {
      forall v | InDomain(s, v) ensures !ElseTakes(s, false, arms, v) {
        ElseTakesUnwritten(s, arms, v.n);
      }
    }
  }

  /** Every literal of the width, then the else the checker insists on. */
  function EveryLiteral(s: Scrutinee): seq<Arm>
    requires s.Integer?
  {
    seq(Pow2(s.bits) + 1, i requires 0 <= i < Pow2(s.bits) + 1 =>
      Arm(if i < Pow2(s.bits) then ScalarPattern(Lowest(s) + i) else Else, Some(0)))
  }

  /** Such a match is accepted at every width, though its else can never run. */
  lemma EveryLiteralIsAccepted(s: Scrutinee)
    requires s.Integer?
    ensures Admissible(s, false, EveryLiteral(s)) && HasElse(EveryLiteral(s))
    ensures forall v :: !ElseTakes(s, false, EveryLiteral(s), v)
  {
    var arms := EveryLiteral(s);
    forall k | 0 <= k < |arms| ensures ArmFits(s, false, arms, k) && ResultsAgree(arms, k) {
      forall j | 0 <= j < k ensures !SameClaim(s, false, arms[j].pattern, arms[k].pattern) {
      }
    }
    ElseIsUsedExactly(s, false, arms);
  }

  // ----- the generated code -----

  /** With an else the arms become an if / else-if chain: the first that tests true, or the else. */
  function FirstArm(tags: seq<int>, constants: seq<Option<int>>, v: Value): (k: nat)
    requires |tags| == |constants|
    ensures k <= |tags|
  {
    if tags == [] || tags[0] == ELSE_TAG || Tests(tags[0], constants[0], v) then 0
    else 1 + FirstArm(tags[1..], constants[1..], v)
  }

  /** Without one they become separate ifs that each assign the result: the last that tests true. */
  function LastArm(tags: seq<int>, constants: seq<Option<int>>, v: Value): (k: nat)
    requires |tags| == |constants|
    ensures k <= |tags|
  {
    if tags == [] then 0
    else if Tests(tags[|tags| - 1], constants[|tags| - 1], v) then |tags| - 1
    else
      var k := LastArm(tags[..|tags| - 1], constants[..|tags| - 1], v);
      if k == |tags| - 1 then |tags| else k
  }

  lemma {:induction false} FirstArmIs(tags: seq<int>, constants: seq<Option<int>>, v: Value, k: nat)
    requires |tags| == |constants| && k < |tags|
    requires tags[k] == ELSE_TAG || Tests(tags[k], constants[k], v)
    requires forall j | 0 <= j < k :: tags[j] != ELSE_TAG && !Tests(tags[j], constants[j], v)
    ensures FirstArm(tags, constants, v) == k
  {
    if k > 0 { FirstArmIs(tags[1..], constants[1..], v, k - 1); }
  }

  lemma {:induction false} LastArmIs(tags: seq<int>, constants: seq<Option<int>>, v: Value, k: nat)
    requires |tags| == |constants| && k < |tags| && Tests(tags[k], constants[k], v)
    requires forall j | k < j < |tags| :: !Tests(tags[j], constants[j], v)
    ensures LastArm(tags, constants, v) == k
  {
    if k < |tags| - 1 { LastArmIs(tags[..|tags| - 1], constants[..|tags| - 1], v, k); }
  }

  /** Both lowerings run the arm the value selects. */
  lemma LoweringRunsSelectedArm(s: Scrutinee, typeMode: bool, arms: seq<Arm>, v: Value, k: nat)
    requires Admissible(s, typeMode, arms) && InDomain(s, v) && k < |arms|
    requires Selects(Tags(s, typeMode, arms), Constants(arms), k, v)
    ensures HasElse(arms) ==> FirstArm(Tags(s, typeMode, arms), Constants(arms), v) == k
    ensures !HasElse(arms) ==> LastArm(Tags(s, typeMode, arms), Constants(arms), v) == k
  {
    var tags, constants := Tags(s, typeMode, arms), Constants(arms);
    var only := AcceptedPartitions(s, typeMode, arms, v);
    assert only == k;
    forall j | 0 <= j < |arms| && j != k ensures arms[j].pattern.Else? || !Tests(tags[j], constants[j], v) {
      NotElse(s, typeMode, arms, j);
      assert !Selects(tags, constants, j, v);
    }
    forall j | 0 <= j < |arms| ensures tags[j] == ELSE_TAG <==> arms[j].pattern.Else? {
      NotElse(s, typeMode, arms, j);
    }
    forall j | 0 <= j < |arms| - 1 ensures !arms[j].pattern.Else? {
      assert ArmFits(s, typeMode, arms, j);
    }
    if HasElse(arms) {
      FirstArmIs(tags, constants, v, k);
    } else {
      LastArmIs(tags, constants, v, k);
    }
  }
}
