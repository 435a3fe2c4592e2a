/** Type-argument inference: first-order unification with in-place bindings and a greedy search
    over union members. */
module Unification {
  import opened Finite

  /** Whether a nominal's members hold a type parameter, and whether the parameter test finds it. */
  datatype Placeholder = Absent | Found | Missed

  /** Type constructors whose component the parameter test looks into, and those it does not. */
  datatype Visible = Slice | List | InlineList(capacity: nat)
  datatype Blind = Task | Channel | Atomic | Stash | Pool

  /** A resolved type; interning makes identity and structure agree. A nullable pointer or function
      is its base with the flag set. A function's result is absent or one type. */
  datatype Type =
    | Parameter(owner: nat, index: nat)
    | Pointer(element: Type, writable: bool, nullable: bool)
    | Function(parameters: seq<Type>, result: seq<Type>, nullable: bool)
    | Union(members: seq<Type>)
    | Dict(key: Type, value: Type)
    | Holds(visible: Visible, element: Type)
    | Handle(blind: Blind, element: Type)
    | Nominal(id: nat, placeholder: Placeholder)
    | Scalar(id: nat)
    | Nil

  type Bindings = seq<Option<Type>>

  // ----- parameters inside types -----

  /** No type parameter anywhere. */
  predicate Closed(t: Type) {
    match t
    case Parameter(_, _) => false
    case Pointer(element, _, _) => Closed(element)
    case Function(parameters, result, _) => AllClosed(parameters) && AllClosed(result)
    case Union(members) => AllClosed(members)
    case Dict(key, value) => Closed(key) && Closed(value)
    case Holds(_, element) => Closed(element)
    case Handle(_, element) => Closed(element)
    case Nominal(_, placeholder) => placeholder.Absent?
    case Scalar(_) => true
    case Nil => true
  }

  predicate AllClosed(ts: seq<Type>) {
    ts != [] ==> Closed(ts[0]) && AllClosed(ts[1..])
  }

  /** The test the checker makes: it enters every component but a handle's. */
  predicate ContainsTypeParameter(t: Type) {
    match t
    case Parameter(_, _) => true
    case Pointer(element, _, _) => ContainsTypeParameter(element)
    case Function(parameters, result, _) => SomeContains(parameters) || SomeContains(result)
    case Union(members) => SomeContains(members)
    case Dict(key, value) => ContainsTypeParameter(key) || ContainsTypeParameter(value)
    case Holds(_, element) => ContainsTypeParameter(element)
    case Nominal(_, placeholder) => placeholder.Found?
    case _ => false
  }

  predicate SomeContains(ts: seq<Type>) {
    ts != [] && (ContainsTypeParameter(ts[0]) || SomeContains(ts[1..]))
  }

  /** A parameter lies behind a handle, where the test does not look. */
  predicate Hides(t: Type) {
    match t
    case Pointer(element, _, _) => Hides(element)
    case Function(parameters, result, _) => SomeHides(parameters) || SomeHides(result)
    case Union(members) => SomeHides(members)
    case Dict(key, value) => Hides(key) || Hides(value)
    case Holds(_, element) => Hides(element)
    case Handle(_, element) => !Closed(element)
    case Nominal(_, placeholder) => placeholder.Missed?
    case _ => false
  }

  predicate SomeHides(ts: seq<Type>) {
    ts != [] && (Hides(ts[0]) || SomeHides(ts[1..]))
  }

  /** The test is right about a type exactly when no handle hides a parameter. */
  lemma {:induction false} ClosedExactly(t: Type)
    ensures Closed(t) <==> !ContainsTypeParameter(t) && !Hides(t)
    decreases t, 0
  {
    match t
    case Pointer(element, _, _) => ClosedExactly(element);
    case Function(parameters, result, _) => AllClosedExactly(parameters); AllClosedExactly(result);
    case Union(members) => AllClosedExactly(members);
    case Dict(key, value) => ClosedExactly(key); ClosedExactly(value);
    case Holds(_, element) => ClosedExactly(element);
    case _ =>
  }

  lemma {:induction false} AllClosedExactly(ts: seq<Type>)
    ensures AllClosed(ts) <==> !SomeContains(ts) && !SomeHides(ts)
    decreases ts
  {
    if ts != [] {
      ClosedExactly(ts[0]);
      AllClosedExactly(ts[1..]);
    }
  }

  // ----- union members -----

  predicate IsUnion(t: Type) {
    t.Union? || (t.Pointer? && t.nullable) || (t.Function? && t.nullable)
  }

  /** A union's members; a nullable type is its base and Nil. */
  function UnionTypeMembers(t: Type): seq<Type>
    requires IsUnion(t)
  {
    match t
    case Union(members) => members
    case Pointer(element, writable, _) => [Pointer(element, writable, false), Nil]
    case Function(parameters, result, _) => [Function(parameters, result, false), Nil]
    case _ => []
  }

  function Size(t: Type): nat {
    match t
    case Pointer(element, _, nullable) => Size(element) + if nullable then 3 else 1
    case Function(parameters, result, nullable) => SizeAll(parameters) + SizeAll(result) + if nullable then 3 else 1
    case Union(members) => SizeAll(members) + 1
    case _ => 1
  }

  function SizeAll(ts: seq<Type>): nat {
    if ts == [] then 0 else Size(ts[0]) + SizeAll(ts[1..])
  }

  lemma {:induction false} SizeAt(ts: seq<Type>, i: nat)
    requires i < |ts|
    ensures Size(ts[i]) <= SizeAll(ts)
  {
    if i > 0 { SizeAt(ts[1..], i - 1); }
  }

  lemma MembersAreSmaller(t: Type)
    requires IsUnion(t)
    ensures SizeAll(UnionTypeMembers(t)) < Size(t)
  {
    if !t.Union? {
      var ms := UnionTypeMembers(t);
      assert ms[1..] == [Nil] && ms[1..][1..] == [];
      assert SizeAll([Nil]) == 1 && SizeAll(ms) == Size(ms[0]) + SizeAll(ms[1..]);
    }
  }

  // ----- the unifier, as a function of the bindings -----

  datatype Outcome = Outcome(ok: bool, bindings: Bindings)

  function Unify(expected: Type, actual: Type, b: Bindings, owner: nat): Outcome
    decreases Size(expected), 0, 0
  {
    if expected.Parameter? then
      if expected.owner != owner || expected.index >= |b| then Outcome(false, b)
      else if b[expected.index] == None then Outcome(true, b[expected.index := Some(actual)])
      else Outcome(b[expected.index].value == actual, b)
    else if expected == actual then Outcome(true, b)
    else if expected.Pointer? && actual.Pointer? then
      if (ContainsTypeParameter(expected.element) || ContainsTypeParameter(actual.element)) &&
         (expected.writable == actual.writable || !expected.writable) then
        Unify(expected.element, actual.element, b, owner)
      else Outcome(false, b)
    else if IsUnion(expected) && IsUnion(actual) &&
            |UnionTypeMembers(expected)| == |UnionTypeMembers(actual)| then
      MembersAreSmaller(expected);
      UnifyMembers(UnionTypeMembers(expected), UnionTypeMembers(actual),
                   seq(|UnionTypeMembers(expected)|, _ => false), b, owner)
    else Outcome(false, b)
  }

  /** Each actual member takes the first expected member still free that unifies with it. */
  function UnifyMembers(es: seq<Type>, rest: seq<Type>, used: seq<bool>, b: Bindings, owner: nat): Outcome
    requires |used| == |es|
    decreases SizeAll(es), 2, |rest|
  {
    if rest == [] then Outcome(true, b)
    else
      var (index, after) := TakeMember(es, rest[0], 0, used, b, owner);
      if index == |es| then Outcome(false, after)
      else UnifyMembers(es, rest[1..], used[index := true], after, owner)
  }

  /** The position taken, or the number of members when none unifies; what failed attempts bound
      stays bound. */
  function TakeMember(es: seq<Type>, actual: Type, from: nat, used: seq<bool>, b: Bindings, owner: nat):
    (r: (nat, Bindings))
    requires |used| == |es| && from <= |es|
    ensures from <= r.0 <= |es| && (r.0 < |es| ==> !used[r.0])
    decreases SizeAll(es), 1, |es| - from
  {
    if from == |es| then (from, b)
    else if used[from] then TakeMember(es, actual, from + 1, used, b, owner)
    else
      SizeAt(es, from);
      var o := Unify(es[from], actual, b, owner);
      if o.ok then (from, o.bindings) else TakeMember(es, actual, from + 1, used, o.bindings, owner)
  }

  // ----- the unifier as it runs -----

  method UnifyTypes(expected: Type, actual: Type, bindings: array<Option<Type>>, owner: nat) returns (ok: bool)
    modifies bindings
    ensures Outcome(ok, bindings[..]) == Unify(expected, actual, old(bindings[..]), owner)
    decreases Size(expected), 0, 0
  {
    if expected.Parameter? {
      if expected.owner != owner {
        return false;
      }
      if expected.index >= bindings.Length {
        return false;
      }
      if bindings[expected.index] == None {
        bindings[expected.index] := Some(actual);
        assert bindings[..] == old(bindings[..])[expected.index := Some(actual)];
        return true;
      }
      return bindings[expected.index].value == actual;
    }
    if expected == actual {
      return true;
    }
    if expected.Pointer? && actual.Pointer? {
      if ContainsTypeParameter(expected.element) || ContainsTypeParameter(actual.element) {
        if expected.writable != actual.writable && !expected.writable {
          ok := UnifyTypes(expected.element, actual.element, bindings, owner);
          return;
        }
        if expected.writable == actual.writable {
          ok := UnifyTypes(expected.element, actual.element, bindings, owner);
          return;
        }
      }
      return false;
    }
    if IsUnion(expected) && IsUnion(actual) {
      var es, acts := UnionTypeMembers(expected), UnionTypeMembers(actual);
      MembersAreSmaller(expected);
      if |es| == |acts| {
        ok := MatchMembers(es, acts, bindings, owner);
        return;
      }
    }
    return false;
  }

  method MatchMembers(es: seq<Type>, acts: seq<Type>, bindings: array<Option<Type>>, owner: nat) returns (ok: bool)
    modifies bindings
    ensures Outcome(ok, bindings[..]) ==
      UnifyMembers(es, acts, seq(|es|, _ => false), old(bindings[..]), owner)
    decreases SizeAll(es), 2, 0
  {
    var used := new bool[|es|](_ => false);
    assert used[..] == seq(|es|, _ => false);
    for k := 0 to |acts|
      invariant UnifyMembers(es, acts[k..], used[..], bindings[..], owner) ==
        UnifyMembers(es, acts, seq(|es|, _ => false), old(bindings[..]), owner)
    {
      assert acts[k..][0] == acts[k] && acts[k..][1..] == acts[k + 1..];
      var index := FirstMatch(es, acts[k], used, bindings, owner);
      if index == |es| {
        return false;
      }
      ghost var before := used[..];
      used[index] := true;
      assert used[..] == before[index := true];
    }
    return true;
  }

  method FirstMatch(es: seq<Type>, actual: Type, used: array<bool>, bindings: array<Option<Type>>, owner: nat)
    returns (index: nat)
    requires used.Length == |es|
    modifies bindings
    ensures (index, bindings[..]) == TakeMember(es, actual, 0, used[..], old(bindings[..]), owner)
    ensures used[..] == old(used[..])
    decreases SizeAll(es), 1, 0
  {
    index := 0;
    while index < |es|
      invariant index <= |es| && used[..] == old(used[..])
      invariant TakeMember(es, actual, index, used[..], bindings[..], owner) ==
        TakeMember(es, actual, 0, used[..], old(bindings[..]), owner)
    {
      if !used[index] {
        SizeAt(es, index);
        var ok := UnifyTypes(es[index], actual, bindings, owner);
        if ok {
          return;
        }
      }
      index := index + 1;
    }
  }

  // ----- bindings only grow -----

  predicate Extends(b: Bindings, c: Bindings) {
    |b| == |c| && forall i | 0 <= i < |b| && b[i].Some? :: c[i] == b[i]
  }

  lemma {:induction false} UnifyExtends(expected: Type, actual: Type, b: Bindings, owner: nat)
    ensures Extends(b, Unify(expected, actual, b, owner).bindings)
    decreases Size(expected), 0, 0
  {
    if expected.Parameter? || expected == actual {
    } else if expected.Pointer? && actual.Pointer? {
      UnifyExtends(expected.element, actual.element, b, owner);
    } else if IsUnion(expected) && IsUnion(actual) {
      MembersAreSmaller(expected);
      var es := UnionTypeMembers(expected);
      UnifyMembersExtends(es, UnionTypeMembers(actual), seq(|es|, _ => false), b, owner);
    }
  }

  lemma {:induction false} UnifyMembersExtends(es: seq<Type>, rest: seq<Type>, used: seq<bool>, b: Bindings, owner: nat)
    requires |used| == |es|
    ensures Extends(b, UnifyMembers(es, rest, used, b, owner).bindings)
    decreases SizeAll(es), 2, |rest|
  {
    if rest != [] {
      TakeMemberExtends(es, rest[0], 0, used, b, owner);
      var (index, after) := TakeMember(es, rest[0], 0, used, b, owner);
      if index < |es| {
        UnifyMembersExtends(es, rest[1..], used[index := true], after, owner);
      }
    }
  }

  lemma {:induction false} TakeMemberExtends(es: seq<Type>, actual: Type, from: nat, used: seq<bool>, b: Bindings, owner: nat)
    requires |used| == |es| && from <= |es|
    ensures Extends(b, TakeMember(es, actual, from, used, b, owner).1)
    decreases SizeAll(es), 1, |es| - from
  {
    if from < |es| {
      if used[from] {
        TakeMemberExtends(es, actual, from + 1, used, b, owner);
      } else {
        SizeAt(es, from);
        UnifyExtends(es[from], actual, b, owner);
        TakeMemberExtends(es, actual, from + 1, used, Unify(es[from], actual, b, owner).bindings, owner);
      }
    }
  }

  // ----- bindings stay closed -----

  predicate BoundClosed(b: Bindings) {
    forall i | 0 <= i < |b| && b[i].Some? :: Closed(b[i].value)
  }

  lemma {:induction false} ClosedAt(ts: seq<Type>, i: nat)
    requires AllClosed(ts) && i < |ts|
    ensures Closed(ts[i])
  {
    if i > 0 { ClosedAt(ts[1..], i - 1); }
  }

  lemma MembersClosed(t: Type)
    requires IsUnion(t) && Closed(t)
    ensures AllClosed(UnionTypeMembers(t))
  {
    if !t.Union? {
      var ms := UnionTypeMembers(t);
      assert ms[1..] == [Nil] && ms[1..][1..] == [];
    }
  }

  /** Nothing open is ever bound from closed arguments, even by an attempt that fails. */
  lemma {:induction false} UnifyBindsClosed(expected: Type, actual: Type, b: Bindings, owner: nat)
    requires Closed(actual) && BoundClosed(b)
    ensures BoundClosed(Unify(expected, actual, b, owner).bindings)
    decreases Size(expected), 0, 0
  {
    if expected.Parameter? || expected == actual {
    } else if expected.Pointer? && actual.Pointer? {
      UnifyBindsClosed(expected.element, actual.element, b, owner);
    } else if IsUnion(expected) && IsUnion(actual) {
      MembersAreSmaller(expected);
      MembersClosed(actual);
      var es := UnionTypeMembers(expected);
      MembersBindClosed(es, UnionTypeMembers(actual), seq(|es|, _ => false), b, owner);
    }
  }

  lemma {:induction false} MembersBindClosed(es: seq<Type>, rest: seq<Type>, used: seq<bool>, b: Bindings, owner: nat)
    requires |used| == |es| && AllClosed(rest) && BoundClosed(b)
    ensures BoundClosed(UnifyMembers(es, rest, used, b, owner).bindings)
    decreases SizeAll(es), 2, |rest|
  {
    if rest != [] {
      TakeBindsClosed(es, rest[0], 0, used, b, owner);
      var (index, after) := TakeMember(es, rest[0], 0, used, b, owner);
      if index < |es| {
        MembersBindClosed(es, rest[1..], used[index := true], after, owner);
      }
    }
  }

  lemma {:induction false} TakeBindsClosed(es: seq<Type>, actual: Type, from: nat, used: seq<bool>, b: Bindings, owner: nat)
    requires |used| == |es| && from <= |es| && Closed(actual) && BoundClosed(b)
    ensures BoundClosed(TakeMember(es, actual, from, used, b, owner).1)
    decreases SizeAll(es), 1, |es| - from
  {
    if from < |es| {
      if used[from] {
        TakeBindsClosed(es, actual, from + 1, used, b, owner);
      } else {
        SizeAt(es, from);
        UnifyBindsClosed(es[from], actual, b, owner);
        TakeBindsClosed(es, actual, from + 1, used, Unify(es[from], actual, b, owner).bindings, owner);
      }
    }
  }

  // ----- substitution -----

  function Subst(t: Type, b: Bindings, owner: nat): Type {
    match t
    case Parameter(o, i) => if o == owner && i < |b| && b[i].Some? then b[i].value else t
    case Pointer(element, writable, nullable) => Pointer(Subst(element, b, owner), writable, nullable)
    case Function(parameters, result, nullable) =>
      Function(SubstAll(parameters, b, owner), SubstAll(result, b, owner), nullable)
    case Union(members) => Union(SubstAll(members, b, owner))
    case Dict(key, value) => Dict(Subst(key, b, owner), Subst(value, b, owner))
    case Holds(visible, element) => Holds(visible, Subst(element, b, owner))
    case Handle(blind, element) => Handle(blind, Subst(element, b, owner))
    case _ => t
  }

  function SubstAll(ts: seq<Type>, b: Bindings, owner: nat): (r: seq<Type>)
    ensures |r| == |ts|
    ensures forall i | 0 <= i < |ts| :: r[i] == Subst(ts[i], b, owner)
  {
    if ts == [] then [] else [Subst(ts[0], b, owner)] + SubstAll(ts[1..], b, owner)
  }

  lemma {:induction false} SubstClosed(t: Type, b: Bindings, owner: nat)
    requires Closed(t)
    ensures Subst(t, b, owner) == t
    decreases t, 0
  {
    match t
    case Pointer(element, _, _) => SubstClosed(element, b, owner);
    case Function(parameters, result, _) =>
      SubstAllClosed(parameters, b, owner);
      SubstAllClosed(result, b, owner);
    case Union(members) => SubstAllClosed(members, b, owner);
    case Dict(key, value) =>
      SubstClosed(key, b, owner);
      SubstClosed(value, b, owner);
    case Holds(_, element) => SubstClosed(element, b, owner);
    case Handle(_, element) => SubstClosed(element, b, owner);
    case _ =>
  }

  lemma {:induction false} SubstAllClosed(ts: seq<Type>, b: Bindings, owner: nat)
    requires AllClosed(ts)
    ensures SubstAll(ts, b, owner) == ts
    decreases ts
  {
    if ts != [] {
      SubstClosed(ts[0], b, owner);
      SubstAllClosed(ts[1..], b, owner);
    }
  }

  /** Every parameter of the declaration in t is bound. */
  predicate Solved(t: Type, b: Bindings, owner: nat) {
    match t
    case Parameter(o, i) => o == owner && i < |b| && b[i].Some?
    case Pointer(element, _, _) => Solved(element, b, owner)
    case Function(parameters, result, _) => AllSolved(parameters, b, owner) && AllSolved(result, b, owner)
    case Union(members) => AllSolved(members, b, owner)
    case Dict(key, value) => Solved(key, b, owner) && Solved(value, b, owner)
    case Holds(_, element) => Solved(element, b, owner)
    case Handle(_, element) => Solved(element, b, owner)
    case _ => true
  }

  predicate AllSolved(ts: seq<Type>, b: Bindings, owner: nat) {
    ts != [] ==> Solved(ts[0], b, owner) && AllSolved(ts[1..], b, owner)
  }

  /** What is solved keeps its value however the bindings grow. */
  lemma {:induction false} SolvedStays(t: Type, b: Bindings, c: Bindings, owner: nat)
    requires Extends(b, c) && Solved(t, b, owner)
    ensures Solved(t, c, owner) && Subst(t, c, owner) == Subst(t, b, owner)
    decreases t, 0
  {
    match t
    case Pointer(element, _, _) => SolvedStays(element, b, c, owner);
    case Function(parameters, result, _) =>
      AllSolvedStay(parameters, b, c, owner);
      AllSolvedStay(result, b, c, owner);
    case Union(members) => AllSolvedStay(members, b, c, owner);
    case Dict(key, value) =>
      SolvedStays(key, b, c, owner);
      SolvedStays(value, b, c, owner);
    case Holds(_, element) => SolvedStays(element, b, c, owner);
    case Handle(_, element) => SolvedStays(element, b, c, owner);
    case _ =>
  }

  lemma {:induction false} AllSolvedStay(ts: seq<Type>, b: Bindings, c: Bindings, owner: nat)
    requires Extends(b, c) && AllSolved(ts, b, owner)
    ensures AllSolved(ts, c, owner) && SubstAll(ts, c, owner) == SubstAll(ts, b, owner)
    decreases ts
  {
    if ts != [] {
      SolvedStays(ts[0], b, c, owner);
      AllSolvedStay(ts[1..], b, c, owner);
    }
  }

  lemma {:induction false} ClosedIsSolved(t: Type, b: Bindings, owner: nat)
    requires Closed(t)
    ensures Solved(t, b, owner)
    decreases t, 0
  {
    match t
    case Pointer(element, _, _) => ClosedIsSolved(element, b, owner);
    case Function(parameters, result, _) =>
      AllClosedAreSolved(parameters, b, owner);
      AllClosedAreSolved(result, b, owner);
    case Union(members) => AllClosedAreSolved(members, b, owner);
    case Dict(key, value) =>
      ClosedIsSolved(key, b, owner);
      ClosedIsSolved(value, b, owner);
    case Holds(_, element) => ClosedIsSolved(element, b, owner);
    case Handle(_, element) => ClosedIsSolved(element, b, owner);
    case _ =>
  }

  lemma {:induction false} AllClosedAreSolved(ts: seq<Type>, b: Bindings, owner: nat)
    requires AllClosed(ts)
    ensures AllSolved(ts, b, owner)
    decreases ts
  {
    if ts != [] {
      ClosedIsSolved(ts[0], b, owner);
      AllClosedAreSolved(ts[1..], b, owner);
    }
  }

  // ----- how the instance relates to the argument -----

  /** The argument a fits the instance s: equal, or a pointer at least as writable whose pointee
      fits, or a union whose members fit one to one. `strict` asks pointer layers to agree on
      nullability as well. */
  ghost predicate Fits(s: Type, a: Type, strict: bool)
    decreases Size(a), 0
  {
    s == a ||
    (s.Pointer? && a.Pointer? && (s.writable ==> a.writable) && (strict ==> s.nullable == a.nullable) &&
     Fits(s.element, a.element, strict)) ||
    (IsUnion(s) && IsUnion(a) && !(s.Pointer? && a.Pointer?) &&
     (MembersAreSmaller(a);
      exists p :: OneToOne(UnionTypeMembers(s), UnionTypeMembers(a), p, strict)))
  }

  /** p sends each argument member to a distinct instance member it fits, and uses them all. */
  ghost predicate OneToOne(ss: seq<Type>, acts: seq<Type>, p: seq<nat>, strict: bool)
    decreases SizeAll(acts), 1
  {
    |p| == |acts| == |ss| &&
    (forall k | 0 <= k < |p| :: p[k] < |ss|) &&
    (forall j, k | 0 <= j < k < |p| :: p[j] != p[k]) &&
    forall k | 0 <= k < |p| :: SizeAt(acts, k); Fits(ss[p[k]], acts[k], strict)
  }

  lemma MembersOfInstance(t: Type, b: Bindings, owner: nat)
    requires IsUnion(t)
    ensures IsUnion(Subst(t, b, owner))
    ensures UnionTypeMembers(Subst(t, b, owner)) == SubstAll(UnionTypeMembers(t), b, owner)
  {
  }

  lemma {:induction false} AllSolvedFrom(ts: seq<Type>, b: Bindings, owner: nat)
    requires forall i | 0 <= i < |ts| :: Solved(ts[i], b, owner)
    ensures AllSolved(ts, b, owner)
  {
    if ts != [] { AllSolvedFrom(ts[1..], b, owner); }
  }

  lemma MembersSolved(t: Type, b: Bindings, owner: nat)
    requires IsUnion(t) && forall i | 0 <= i < |UnionTypeMembers(t)| :: Solved(UnionTypeMembers(t)[i], b, owner)
    ensures Solved(t, b, owner)
  {
    var ms := UnionTypeMembers(t);
    if t.Union? {
      AllSolvedFrom(t.members, b, owner);
    } else {
      assert Solved(ms[0], b, owner);
    }
  }

  /** No nullable pointer at any layer the unifier compares. */
  predicate NoNullablePointer(t: Type) {
    match t
    case Pointer(element, _, nullable) => !nullable && NoNullablePointer(element)
    case Union(members) => AllNoNullablePointer(members)
    case _ => true
  }

  predicate AllNoNullablePointer(ts: seq<Type>) {
    ts != [] ==> NoNullablePointer(ts[0]) && AllNoNullablePointer(ts[1..])
  }

  lemma {:induction false} PlainAt(ts: seq<Type>, i: nat)
    requires AllNoNullablePointer(ts) && i < |ts|
    ensures NoNullablePointer(ts[i])
  {
    if i > 0 { PlainAt(ts[1..], i - 1); }
  }

  lemma MembersPlain(t: Type)
    requires IsUnion(t) && NoNullablePointer(t)
    ensures AllNoNullablePointer(UnionTypeMembers(t))
  {
    if !t.Union? {
      var ms := UnionTypeMembers(t);
      assert ms[1..] == [Nil] && ms[1..][1..] == [];
    }
  }

  // ----- what unification solves -----

  /** c solves e for the argument a: a parameter is bound to exactly what the argument has in its
      place; types without one are equal; a pointer layer above one is at least as writable as asked;
      and union members pair off in some order. */
  ghost predicate Solves(e: Type, a: Type, c: Bindings, owner: nat)
    decreases Size(e), 0
  {
    if e.Parameter? then e.owner == owner && e.index < |c| && c[e.index] == Some(a)
    else
      e == a ||
      if e.Pointer? && a.Pointer? then
        && (ContainsTypeParameter(e.element) || ContainsTypeParameter(a.element))
        && (e.writable ==> a.writable)
        && Solves(e.element, a.element, c, owner)
      else
        IsUnion(e) && IsUnion(a) &&
        (MembersAreSmaller(e);
         exists p :: Pairs(UnionTypeMembers(e), UnionTypeMembers(a), p, c, owner))
  }

  predicate Distinct<T(==)>(s: seq<T>) {
    forall j, k | 0 <= j < k < |s| :: s[j] != s[k]
  }

  /** p gives each argument member an expected member of its own, none left over, that c solves. */
  ghost predicate Pairs(es: seq<Type>, acts: seq<Type>, p: seq<nat>, c: Bindings, owner: nat)
    decreases SizeAll(es), 1
  {
    |p| == |acts| == |es| && Distinct(p) &&
    (forall k | 0 <= k < |p| :: p[k] < |es|) &&
    forall k | 0 <= k < |p| :: SizeAt(es, p[k]); Solves(es[p[k]], acts[k], c, owner)
  }

  lemma {:induction false} SolvesStays(e: Type, a: Type, b: Bindings, c: Bindings, owner: nat)
    requires Extends(b, c) && Solves(e, a, b, owner)
    ensures Solves(e, a, c, owner)
    decreases Size(e)
  {
    if e.Parameter? || e == a {
    } else if e.Pointer? && a.Pointer? {
      SolvesStays(e.element, a.element, b, c, owner);
    } else {
      MembersAreSmaller(e);
      var es, acts := UnionTypeMembers(e), UnionTypeMembers(a);
      var p :| Pairs(es, acts, p, b, owner);
      forall k | 0 <= k < |p| ensures Solves(es[p[k]], acts[k], c, owner) {
        SizeAt(es, p[k]);
        SolvesStays(es[p[k]], acts[k], b, c, owner);
      }
      assert Pairs(es, acts, p, c, owner);
    }
  }

  /** What unification binds is a solution, whatever failed attempts bound on the way. */
  lemma {:induction false} UnifySolves(expected: Type, actual: Type, b: Bindings, owner: nat)
    requires Unify(expected, actual, b, owner).ok
    ensures Solves(expected, actual, Unify(expected, actual, b, owner).bindings, owner)
    decreases Size(expected), 0, 0
  {
    if expected.Parameter? || expected == actual {
    } else if expected.Pointer? && actual.Pointer? {
      UnifySolves(expected.element, actual.element, b, owner);
    } else {
      MembersAreSmaller(expected);
      var es, acts := UnionTypeMembers(expected), UnionTypeMembers(actual);
      var used := seq(|es|, _ => false);
      MembersSolve(es, acts, used, b, owner);
      assert Pairs(es, acts, Taken(es, acts, used, b, owner), UnifyMembers(es, acts, used, b, owner).bindings, owner);
    }
  }

  /** The positions the greedy search takes. */
  function Taken(es: seq<Type>, rest: seq<Type>, used: seq<bool>, b: Bindings, owner: nat): seq<nat>
    requires |used| == |es|
    decreases |rest|
  {
    if rest == [] then []
    else
      var (index, after) := TakeMember(es, rest[0], 0, used, b, owner);
      if index == |es| then []
      else [index] + Taken(es, rest[1..], used[index := true], after, owner)
  }

  lemma {:induction false} MembersSolve(es: seq<Type>, rest: seq<Type>, used: seq<bool>, b: Bindings, owner: nat)
    requires |used| == |es| && UnifyMembers(es, rest, used, b, owner).ok
    ensures var p := Taken(es, rest, used, b, owner);
      |p| == |rest| && Distinct(p) && forall k | 0 <= k < |p| :: p[k] < |es| && !used[p[k]]
    ensures var p := Taken(es, rest, used, b, owner);
      var c := UnifyMembers(es, rest, used, b, owner).bindings;
      forall k | 0 <= k < |p| :: Solves(es[p[k]], rest[k], c, owner)
    decreases SizeAll(es), 2, |rest|
  {
    if rest != [] {
      var (index, after) := TakeMember(es, rest[0], 0, used, b, owner);
      var later := used[index := true];
      TakeSolves(es, rest[0], 0, used, b, owner);
      MembersSolve(es, rest[1..], later, after, owner);
      var q := Taken(es, rest[1..], later, after, owner);
      var c := UnifyMembers(es, rest[1..], later, after, owner).bindings;
      UnifyMembersExtends(es, rest[1..], later, after, owner);
      SolvesStays(es[index], rest[0], after, c, owner);
      var p := [index] + q;
      assert p == Taken(es, rest, used, b, owner);
      forall k | 0 < k < |p| ensures p[k] != index && !used[p[k]] && Solves(es[p[k]], rest[k], c, owner) {
        assert p[k] == q[k - 1] && rest[k] == rest[1..][k - 1] && !later[q[k - 1]];
      }
    }
  }

  lemma {:induction false} TakeSolves(es: seq<Type>, actual: Type, from: nat, used: seq<bool>, b: Bindings, owner: nat)
    requires |used| == |es| && from <= |es|
    requires TakeMember(es, actual, from, used, b, owner).0 < |es|
    ensures var (index, after) := TakeMember(es, actual, from, used, b, owner);
      Solves(es[index], actual, after, owner)
    decreases SizeAll(es), 1, |es| - from
  {
    if used[from] {
      TakeSolves(es, actual, from + 1, used, b, owner);
    } else {
      SizeAt(es, from);
      var o := Unify(es[from], actual, b, owner);
      if o.ok {
        UnifySolves(es[from], actual, b, owner);
      } else {
        TakeSolves(es, actual, from + 1, used, o.bindings, owner);
      }
    }
  }

  /** A solution binds every parameter of the expected type, and the argument fits the instance;
      strictly so where no pointer layer is nullable. */
  lemma {:induction false} SolvesFits(e: Type, a: Type, c: Bindings, owner: nat, strict: bool)
    requires Closed(a) && Solves(e, a, c, owner)
    requires strict ==> NoNullablePointer(e) && NoNullablePointer(a)
    ensures Solved(e, c, owner) && Fits(Subst(e, c, owner), a, strict)
    decreases Size(e)
  {
    if e.Parameter? {
    } else if e == a {
      ClosedIsSolved(e, c, owner);
      SubstClosed(e, c, owner);
    } else if e.Pointer? && a.Pointer? {
      SolvesFits(e.element, a.element, c, owner, strict);
    } else {
      MembersAreSmaller(e);
      var es, acts := UnionTypeMembers(e), UnionTypeMembers(a);
      var p :| Pairs(es, acts, p, c, owner);
      MembersClosed(a);
      if strict {
        MembersPlain(e);
        MembersPlain(a);
      }
      forall k | 0 <= k < |p|
        ensures Solved(es[p[k]], c, owner) && Fits(Subst(es[p[k]], c, owner), acts[k], strict)
      {
        SizeAt(es, p[k]);
        ClosedAt(acts, k);
        if strict {
          PlainAt(es, p[k]);
          PlainAt(acts, k);
        }
        SolvesFits(es[p[k]], acts[k], c, owner, strict);
      }
      PairsFit(e, a, p, c, owner, strict);
    }
  }

  lemma PairsFit(e: Type, a: Type, p: seq<nat>, c: Bindings, owner: nat, strict: bool)
    requires IsUnion(e) && IsUnion(a) && !(e.Pointer? && a.Pointer?)
    requires Pairs(UnionTypeMembers(e), UnionTypeMembers(a), p, c, owner)
    requires forall k | 0 <= k < |p| ::
      && Solved(UnionTypeMembers(e)[p[k]], c, owner)
      && Fits(Subst(UnionTypeMembers(e)[p[k]], c, owner), UnionTypeMembers(a)[k], strict)
    ensures Solved(e, c, owner) && Fits(Subst(e, c, owner), a, strict)
  {
    var es, acts := UnionTypeMembers(e), UnionTypeMembers(a);
    MembersAreSmaller(a);
    MembersOfInstance(e, c, owner);
    AllPaired(es, p, c, owner);
    MembersSolved(e, c, owner);
    assert OneToOne(SubstAll(es, c, owner), acts, p, strict);
  }

  lemma AllPaired(es: seq<Type>, p: seq<nat>, c: Bindings, owner: nat)
    requires |p| == |es| && Distinct(p)
    requires forall k | 0 <= k < |p| :: p[k] < |es| && Solved(es[p[k]], c, owner)
    ensures forall i | 0 <= i < |es| :: Solved(es[i], c, owner)
  {
    Covered(p, |es|);
    forall i | 0 <= i < |es| ensures Solved(es[i], c, owner) {
      assert i in Below(|es|);
      var k :| 0 <= k < |p| && p[k] == i;
      assert Solved(es[p[k]], c, owner);
    }
  }

  /** Success is sound: the expected type is solved, and the argument fits its instance. */
  lemma UnifySound(expected: Type, actual: Type, b: Bindings, owner: nat, strict: bool)
    requires Closed(actual) && Unify(expected, actual, b, owner).ok
    requires strict ==> NoNullablePointer(expected) && NoNullablePointer(actual)
    ensures var c := Unify(expected, actual, b, owner).bindings;
      Solved(expected, c, owner) && Fits(Subst(expected, c, owner), actual, strict)
  {
    UnifySolves(expected, actual, b, owner);
    SolvesFits(expected, actual, Unify(expected, actual, b, owner).bindings, owner, strict);
  }

  /** Distinct positions below n, n of them, are all the positions. */
  lemma Covered(p: seq<nat>, n: nat)
    requires |p| == n && (forall k | 0 <= k < |p| :: p[k] < n)
    requires forall j, k | 0 <= j < k < |p| :: p[j] != p[k]
    ensures forall i: nat | i in Below(n) :: i in p
  {
    forall i: nat | i in Below(n) ensures i in p {
      if i !in p {
        DistinctFit(p, Below(n) - {i});
      }
    }
  }

  ghost function Below(n: nat): (r: set<nat>)
    ensures |r| == n && forall i :: i in r <==> 0 <= i < n
  {
    if n == 0 then {} else Below(n - 1) + {n - 1}
  }

  // ----- inference -----

  datatype Inference =
    | Inferred(arguments: seq<Type>)
    | WrongArity
    | Conflict(argument: nat)
    | CannotInfer(parameter: nat)
    | Unresolved(parameter: nat)

  /** The expected parameter an argument is unified with: past the fixed ones, the rest element. */
  function Slot(expected: seq<Type>, rest: bool, k: nat): nat {
    if rest && k >= |expected| - 1 && |expected| > 0 then |expected| - 1 else k
  }

  predicate ArityFits(expected: seq<Type>, rest: bool, count: nat) {
    if rest then |expected| > 0 && count >= |expected| - 1 else count == |expected|
  }

  /** Unifying the arguments in order, from argument k on. */
  function UnifyFrom(expected: seq<Type>, rest: bool, actual: seq<Type>, k: nat, b: Bindings, owner: nat): Outcome
    requires k <= |actual| && ArityFits(expected, rest, |actual|)
    decreases |actual| - k
  {
    if k == |actual| then Outcome(true, b)
    else
      var o := Unify(expected[Slot(expected, rest, k)], actual[k], b, owner);
      if o.ok then UnifyFrom(expected, rest, actual, k + 1, o.bindings, owner) else o
  }

  lemma {:induction false} UnifyFromSound(expected: seq<Type>, rest: bool, actual: seq<Type>, k: nat, b: Bindings, owner: nat)
    requires k <= |actual| && ArityFits(expected, rest, |actual|)
    requires forall i | 0 <= i < |actual| :: Closed(actual[i])
    requires UnifyFrom(expected, rest, actual, k, b, owner).ok
    ensures var c := UnifyFrom(expected, rest, actual, k, b, owner).bindings;
      Extends(b, c) && (BoundClosed(b) ==> BoundClosed(c)) &&
      forall i | k <= i < |actual| :: var e := expected[Slot(expected, rest, i)];
        Solved(e, c, owner) && Fits(Subst(e, c, owner), actual[i], false)
    decreases |actual| - k
  {
    if k < |actual| {
      var e := expected[Slot(expected, rest, k)];
      var o := Unify(e, actual[k], b, owner);
      UnifySound(e, actual[k], b, owner, false);
      UnifyExtends(e, actual[k], b, owner);
      if BoundClosed(b) { UnifyBindsClosed(e, actual[k], b, owner); }
      UnifyFromSound(expected, rest, actual, k + 1, o.bindings, owner);
      SolvedStays(e, o.bindings, UnifyFrom(expected, rest, actual, k + 1, o.bindings, owner).bindings, owner);
    }
  }

  lemma InferredFits(expected: seq<Type>, rest: bool, actual: seq<Type>, arity: nat, arguments: seq<Type>, b: Bindings,
                     owner: nat)
    requires ArityFits(expected, rest, |actual|) && |arguments| == |b| == arity
    requires forall i | 0 <= i < arity :: b[i] == Some(arguments[i])
    requires UnifyFrom(expected, rest, actual, 0, seq(arity, _ => None), owner) == Outcome(true, b)
    ensures (forall k | 0 <= k < |actual| :: Closed(actual[k])) ==>
      (forall i | 0 <= i < arity :: Closed(arguments[i])) &&
      forall k | 0 <= k < |actual| :: Fits(Subst(expected[Slot(expected, rest, k)], b, owner), actual[k], false)
  {
    if forall k | 0 <= k < |actual| :: Closed(actual[k]) {
      UnifyFromSound(expected, rest, actual, 0, seq(arity, _ => None), owner);
      forall i | 0 <= i < arity ensures Closed(arguments[i]) { assert b[i].Some?; }
    }
  }

  /** Unifying the first k arguments. */
  function UnifyFirst(expected: seq<Type>, rest: bool, actual: seq<Type>, k: nat, b: Bindings, owner: nat): Outcome
    requires k <= |actual| && ArityFits(expected, rest, |actual|)
  {
    if k == 0 then Outcome(true, b)
    else
      var o := UnifyFirst(expected, rest, actual, k - 1, b, owner);
      if o.ok then Unify(expected[Slot(expected, rest, k - 1)], actual[k - 1], o.bindings, owner) else o
  }

  lemma {:induction false} FirstKeepArity(expected: seq<Type>, rest: bool, actual: seq<Type>, k: nat, b: Bindings, owner: nat)
    requires k <= |actual| && ArityFits(expected, rest, |actual|)
    ensures |UnifyFirst(expected, rest, actual, k, b, owner).bindings| == |b|
  {
    if k > 0 {
      FirstKeepArity(expected, rest, actual, k - 1, b, owner);
      UnifyExtends(expected[Slot(expected, rest, k - 1)], actual[k - 1],
                   UnifyFirst(expected, rest, actual, k - 1, b, owner).bindings, owner);
    }
  }

  /** The binding is there and passes the parameter test. */
  predicate Passes(b: Bindings, i: nat)
    requires i < |b|
  {
    b[i].Some? && !ContainsTypeParameter(b[i].value)
  }

  predicate PassUpTo(b: Bindings, n: nat)
    requires n <= |b|
  {
    forall i | 0 <= i < n :: Passes(b, i)
  }

  /** The arguments are as many as wanted, they unify, and every binding passes. */
  predicate Infers(expected: seq<Type>, rest: bool, arity: nat, owner: nat, actual: seq<Type>) {
    ArityFits(expected, rest, |actual|) &&
    var o := UnifyFrom(expected, rest, actual, 0, seq(arity, _ => None), owner);
    o.ok && |o.bindings| == arity && PassUpTo(o.bindings, arity)
  }

  /** Inference: one argument list per declaration, or the reason there is none. For closed
      arguments success binds every parameter to a closed type, and every argument fits its
      parameter's instance. */
  method InferTypeArguments(expected: seq<Type>, rest: bool, arity: nat, owner: nat, actual: seq<Type>)
    returns (inference: Inference)
    requires rest ==> |expected| > 0
    ensures inference.WrongArity? <==> !ArityFits(expected, rest, |actual|)
    ensures inference.Inferred? ==>
      |inference.arguments| == arity &&
      var b := seq(arity, i requires 0 <= i < arity => Some(inference.arguments[i]));
      UnifyFrom(expected, rest, actual, 0, seq(arity, _ => None), owner) == Outcome(true, b) &&
      (forall i | 0 <= i < arity :: !ContainsTypeParameter(inference.arguments[i])) &&
      ((forall k | 0 <= k < |actual| :: Closed(actual[k])) ==>
        (forall i | 0 <= i < arity :: Closed(inference.arguments[i])) &&
        forall k | 0 <= k < |actual| :: Fits(Subst(expected[Slot(expected, rest, k)], b, owner), actual[k], false))
    ensures inference.Inferred? <==> Infers(expected, rest, arity, owner, actual)
    ensures inference.Conflict? ==>
      var k := inference.argument;
      k < |actual| && UnifyFirst(expected, rest, actual, k, seq(arity, _ => None), owner).ok &&
      !UnifyFirst(expected, rest, actual, k + 1, seq(arity, _ => None), owner).ok
    ensures inference.CannotInfer? || inference.Unresolved? ==>
      var o := UnifyFrom(expected, rest, actual, 0, seq(arity, _ => None), owner);
      var i := inference.parameter;
      o.ok && i < arity == |o.bindings| && PassUpTo(o.bindings, i) &&
      (if inference.CannotInfer? then o.bindings[i] == None
       else o.bindings[i].Some? && ContainsTypeParameter(o.bindings[i].value))
  {
    var fixed := |expected|;
    if rest {
      fixed := fixed - 1;
      if |actual| < fixed {
        return WrongArity;
      }
    } else if |expected| != |actual| {
      return WrongArity;
    }
    var bindings := new Option<Type>[arity](_ => None);
    ghost var empty: Bindings := seq(arity, _ => None);
    assert bindings[..] == empty;
    for k := 0 to |actual|
      invariant UnifyFrom(expected, rest, actual, k, bindings[..], owner) == UnifyFrom(expected, rest, actual, 0, empty, owner)
      invariant UnifyFirst(expected, rest, actual, k, empty, owner) == Outcome(true, bindings[..])
    {
      var slot := if rest && k >= fixed then fixed else k;
      var ok := UnifyTypes(expected[slot], actual[k], bindings, owner);
      if !ok {
        return Conflict(k);
      }
    }
    var arguments := [];
    for i := 0 to arity
      invariant |arguments| == i
      invariant forall j | 0 <= j < i :: bindings[j] == Some(arguments[j]) && !ContainsTypeParameter(arguments[j])
    {
      assert !Passes(bindings[..], i) <==> bindings[i] == None || ContainsTypeParameter(bindings[i].value);
      if bindings[i] == None {
        return CannotInfer(i);
      }
      if ContainsTypeParameter(bindings[i].value) {
        return Unresolved(i);
      }
      arguments := arguments + [bindings[i].value];
    }
    ghost var b: Bindings := seq(arity, i requires 0 <= i < arity => Some(arguments[i]));
    assert bindings[..] == b;
    InferredFits(expected, rest, actual, arity, arguments, b, owner);
    return Inferred(arguments);
  }

  // ----- nullability -----

  /** Pointer layers down to a parameter or to equal types. */
  predicate PointerChain(e: Type, a: Type) {
    e.Parameter? || e == a || (e.Pointer? && a.Pointer? && PointerChain(e.element, a.element))
  }

  predicate LayersAgree(e: Type, a: Type) {
    e.Pointer? && a.Pointer? ==> e.nullable == a.nullable && LayersAgree(e.element, a.element)
  }

  /** The unifier never compares nullability at a pointer layer. Along pointer layers, what it
      accepts fits strictly if and only if the layers agree on nullability. */
  lemma {:induction false} StrictExactly(expected: Type, actual: Type, b: Bindings, owner: nat)
    requires Closed(actual) && Unify(expected, actual, b, owner).ok && PointerChain(expected, actual)
    ensures var c := Unify(expected, actual, b, owner).bindings;
      Fits(Subst(expected, c, owner), actual, true) <==> LayersAgree(expected, actual)
    decreases expected
  {
    var c := Unify(expected, actual, b, owner).bindings;
    if expected.Parameter? {
    } else if expected == actual {
      SubstClosed(expected, c, owner);
      SameLayers(expected);
    } else {
      StrictExactly(expected.element, actual.element, b, owner);
      if Subst(expected, c, owner) == actual {
        assert Fits(Subst(expected.element, c, owner), actual.element, true);
      }
    }
  }

  lemma {:induction false} SameLayers(t: Type)
    ensures LayersAgree(t, t)
  {
    if t.Pointer? { SameLayers(t.element); }
  }

  /** Ptr<T> unifies with Ptr<Int> | Nil, and Ptr<Int> is not that type. */
  lemma NullabilityIsIgnored()
    ensures var e := Pointer(Parameter(0, 0), false, false);
      var a := Pointer(Scalar(0), false, true);
      Unify(e, a, [None], 0) == Outcome(true, [Some(Scalar(0))]) &&
      !Fits(Subst(e, [Some(Scalar(0))], 0), a, true)
  {
    var e, a := Pointer(Parameter(0, 0), false, false), Pointer(Scalar(0), false, true);
    assert Unify(Parameter(0, 0), Scalar(0), [None], 0) == Outcome(true, [Some(Scalar(0))]);
    StrictExactly(e, a, [None], 0);
  }

  // ----- when the search finds a solution -----

  /** No union at any layer the unifier compares. */
  predicate UnionFree(e: Type) {
    match e
    case Parameter(_, _) => true
    case Pointer(element, _, nullable) => !nullable && UnionFree(element)
    case _ => !IsUnion(e)
  }

  /** Where no union is compared, unification finds a solution if one extends the bindings, and what
      it binds is contained in every solution. */
  lemma {:induction false} UnionFreeComplete(e: Type, a: Type, b: Bindings, c: Bindings, owner: nat)
    requires UnionFree(e) && Extends(b, c) && Solves(e, a, c, owner)
    ensures Unify(e, a, b, owner).ok && Extends(Unify(e, a, b, owner).bindings, c)
    decreases e
  {
    if e.Pointer? && a.Pointer? && e != a {
      UnionFreeComplete(e.element, a.element, b, c, owner);
    }
  }

  lemma {:induction false} UnionFreeFails(e: Type, a: Type, b: Bindings, owner: nat)
    requires UnionFree(e) && !Unify(e, a, b, owner).ok
    ensures Unify(e, a, b, owner).bindings == b
    decreases e
  {
    if e.Pointer? && a.Pointer? {
      if (ContainsTypeParameter(e.element) || ContainsTypeParameter(a.element)) && (e.writable ==> a.writable) {
        UnionFreeFails(e.element, a.element, b, owner);
      }
    }
  }

  /** What unifies under some bindings unifies under fewer. */
  lemma UnifiesEarlier(e: Type, a: Type, b: Bindings, c: Bindings, owner: nat)
    requires UnionFree(e) && Extends(b, c) && Unify(e, a, c, owner).ok
    ensures Unify(e, a, b, owner).ok
  {
    UnifySolves(e, a, c, owner);
    UnifyExtends(e, a, c, owner);
    UnionFreeComplete(e, a, b, Unify(e, a, c, owner).bindings, owner);
  }

  /** A closed member takes itself alone and binds nothing. */
  lemma ClosedTakesItself(e: Type, a: Type, b: Bindings, owner: nat)
    requires UnionFree(e) && Closed(e) && Closed(a)
    ensures Unify(e, a, b, owner) == Outcome(e == a, b)
    ensures Solves(e, a, b, owner) ==> e == a
  {
    if e.Pointer? && a.Pointer? {
      ClosedExactly(e.element);
      ClosedExactly(a.element);
    }
  }

  /** Expected member i is the first free one that unifies with a under the bindings b. */
  predicate First(es: seq<Type>, a: Type, used: seq<bool>, b: Bindings, owner: nat, i: nat)
    requires |used| == |es|
  {
    && i < |es| && !used[i] && Unify(es[i], a, b, owner).ok
    && forall j | 0 <= j < i && !used[j] :: !Unify(es[j], a, b, owner).ok
  }

  /** Going through the argument members in order, each taking the first expected member left that
      unifies with it under the bindings the search starts from: none takes an open member while
      another that is left would also do. */
  predicate Clear(es: seq<Type>, rest: seq<Type>, used: seq<bool>, b: Bindings, owner: nat)
    requires |used| == |es|
    decreases |rest|
  {
    rest != [] ==>
      forall i: nat | i < |es| && First(es, rest[0], used, b, owner, i) ::
        && (Closed(es[i]) || forall j | i < j < |es| && !used[j] :: !Unify(es[j], rest[0], b, owner).ok)
        && Clear(es, rest[1..], used[i := true], b, owner)
  }

  predicate AllUnionFree(es: seq<Type>) {
    forall i | 0 <= i < |es| :: UnionFree(es[i])
  }

  /** A union as it is interned, with members the search compares without entering another union,
      against a closed one. */
  predicate Flat(es: seq<Type>, acts: seq<Type>) {
    Distinct(es) && Distinct(acts) && AllUnionFree(es) && AllClosed(acts) && |es| == |acts|
  }

  lemma {:induction false} TakeFirst(es: seq<Type>, a: Type, from: nat, used: seq<bool>, b: Bindings, owner: nat, i: nat)
    requires |used| == |es| && from <= i && AllUnionFree(es) && First(es, a, used, b, owner, i)
    ensures TakeMember(es, a, from, used, b, owner) == (i, Unify(es[i], a, b, owner).bindings)
    decreases |es| - from
  {
    if from < i {
      if !used[from] { UnionFreeFails(es[from], a, b, owner); }
      TakeFirst(es, a, from + 1, used, b, owner, i);
    }
  }

  lemma {:induction false} SomeFirst(es: seq<Type>, a: Type, used: seq<bool>, b: Bindings, owner: nat, j: nat)
    returns (i: nat)
    requires |used| == |es| && j < |es| && !used[j] && Unify(es[j], a, b, owner).ok
    ensures i <= j && First(es, a, used, b, owner, i)
  {
    i := 0;
    while used[i] || !Unify(es[i], a, b, owner).ok
      invariant i <= j && forall k | 0 <= k < i && !used[k] :: !Unify(es[k], a, b, owner).ok
      decreases j - i
    {
      i := i + 1;
    }
  }

  /** In a clear search every solution c, pairing the members left by p, leaves the search no choice:
      the first member that unifies under the starting bindings is the one p gives. */
  lemma {:induction false} ClearPairing(es: seq<Type>, rest: seq<Type>, used: seq<bool>, b: Bindings, c: Bindings,
                                        p: seq<nat>, owner: nat) returns (i: nat)
    requires |used| == |es| && AllUnionFree(es) && Distinct(rest) && AllClosed(rest) && rest != []
    requires Clear(es, rest, used, b, owner) && Extends(b, c) && Remaining(es, rest, used, p, c, owner)
    ensures i == p[0] && First(es, rest[0], used, b, owner, i)
  {
    UnionFreeComplete(es[p[0]], rest[0], b, c, owner);
    i := SomeFirst(es, rest[0], used, b, owner, p[0]);
    if i != p[0] {
      assert Closed(es[i]);
      var k :| 0 <= k < |p| && p[k] == i;
      ClosedAt(rest, k);
      ClosedTakesItself(es[i], rest[0], b, owner);
      ClosedTakesItself(es[i], rest[k], c, owner);
    }
  }

  /** p pairs the argument members left with exactly the expected members left, and c solves them. */
  ghost predicate Remaining(es: seq<Type>, rest: seq<Type>, used: seq<bool>, p: seq<nat>, c: Bindings, owner: nat)
    requires |used| == |es|
  {
    && |p| == |rest| && Distinct(p)
    && (forall k | 0 <= k < |p| :: p[k] < |es| && !used[p[k]] && Solves(es[p[k]], rest[k], c, owner))
    && (forall i: nat | i < |es| && !used[i] :: i in p)
  }

  lemma RemainingNext(es: seq<Type>, rest: seq<Type>, used: seq<bool>, p: seq<nat>, c: Bindings, owner: nat)
    requires |used| == |es| && rest != [] && Remaining(es, rest, used, p, c, owner)
    ensures Remaining(es, rest[1..], used[p[0] := true], p[1..], c, owner)
  {
    var later := used[p[0] := true];
    forall i: nat | i < |es| && !later[i] ensures i in p[1..] {
      assert i in p && i != p[0];
      var k :| 0 <= k < |p| && p[k] == i;
      assert p[1..][k - 1] == i;
    }
    forall k | 0 <= k < |p[1..]|
      ensures p[1..][k] < |es| && !later[p[1..][k]] && Solves(es[p[1..][k]], rest[1..][k], c, owner)
    {
      assert p[1..][k] == p[k + 1] != p[0] && rest[1..][k] == rest[k + 1];
    }
  }

  /** Where no choice arises, the search, started from b and now at some bindings between b and the
      solution, finds that solution's pairing. */
  lemma {:induction false} ClearSearchFinds(es: seq<Type>, rest: seq<Type>, used: seq<bool>, b: Bindings, now: Bindings,
                                            c: Bindings, p: seq<nat>, owner: nat)
    requires |used| == |es| && AllUnionFree(es) && Distinct(rest) && AllClosed(rest)
    requires Clear(es, rest, used, b, owner) && Remaining(es, rest, used, p, c, owner)
    requires Extends(b, now) && Extends(now, c)
    ensures var o := UnifyMembers(es, rest, used, now, owner); o.ok && Extends(o.bindings, c)
    decreases |rest|
  {
    if rest != [] {
      var i := ClearPairing(es, rest, used, b, c, p, owner);
      UnionFreeComplete(es[i], rest[0], now, c, owner);
      forall j | 0 <= j < i && !used[j] ensures !Unify(es[j], rest[0], now, owner).ok {
        if Unify(es[j], rest[0], now, owner).ok { UnifiesEarlier(es[j], rest[0], b, now, owner); }
      }
      TakeFirst(es, rest[0], 0, used, now, owner, i);
      UnifyExtends(es[i], rest[0], now, owner);
      RemainingNext(es, rest, used, p, c, owner);
      ClearSearchFinds(es, rest[1..], used[i := true], b, Unify(es[i], rest[0], now, owner).bindings, c, p[1..], owner);
    }
  }

  /** Wherever unifying e with a comes to a pair of unions, their search is clear. */
  predicate Decided(e: Type, a: Type, b: Bindings, owner: nat) {
    if e.Parameter? || e == a then true
    else if e.Pointer? && a.Pointer? then Decided(e.element, a.element, b, owner)
    else if IsUnion(e) && IsUnion(a) && |UnionTypeMembers(e)| == |UnionTypeMembers(a)| then
      var es := UnionTypeMembers(e);
      Flat(es, UnionTypeMembers(a)) && Clear(es, UnionTypeMembers(a), seq(|es|, _ => false), b, owner)
    else true
  }

  /** Pointer layers without a union, down to a parameter or anything else, need no search. */
  lemma {:induction false} UnionFreeIsDecided(e: Type, a: Type, b: Bindings, owner: nat)
    requires UnionFree(e)
    ensures Decided(e, a, b, owner)
    decreases e
  {
    if e.Pointer? && a.Pointer? { UnionFreeIsDecided(e.element, a.element, b, owner); }
  }

  /** Unification is exact where its searches are clear: it succeeds if and only if some extension of
      the bindings solves it, and what it binds is contained in every such solution. */
  lemma UnifyExactly(e: Type, a: Type, b: Bindings, owner: nat)
    requires Decided(e, a, b, owner)
    ensures Unify(e, a, b, owner).ok <==> exists c :: Extends(b, c) && Solves(e, a, c, owner)
    ensures forall c | Extends(b, c) && Solves(e, a, c, owner) :: Extends(Unify(e, a, b, owner).bindings, c)
  {
    var o := Unify(e, a, b, owner);
    UnifyExtends(e, a, b, owner);
    if o.ok {
      UnifySolves(e, a, b, owner);
      assert Extends(b, o.bindings) && Solves(e, a, o.bindings, owner);
    }
    forall c | Extends(b, c) && Solves(e, a, c, owner) ensures o.ok && Extends(o.bindings, c) {
      DecidedComplete(e, a, b, b, c, owner);
    }
  }

  /** Decided under some bindings, unification finds its solutions from any it has grown to. */
  lemma {:induction false} DecidedComplete(e: Type, a: Type, b: Bindings, now: Bindings, c: Bindings, owner: nat)
    requires Decided(e, a, b, owner) && Extends(b, now) && Extends(now, c) && Solves(e, a, c, owner)
    ensures Unify(e, a, now, owner).ok && Extends(Unify(e, a, now, owner).bindings, c)
    decreases e
  {
    if e.Parameter? || e == a {
    } else if e.Pointer? && a.Pointer? {
      DecidedComplete(e.element, a.element, b, now, c, owner);
    } else {
      var es, acts := UnionTypeMembers(e), UnionTypeMembers(a);
      var p :| Pairs(es, acts, p, c, owner);
      FlatComplete(es, acts, b, now, c, p, owner);
    }
  }

  lemma FlatComplete(es: seq<Type>, acts: seq<Type>, b: Bindings, now: Bindings, c: Bindings, p: seq<nat>, owner: nat)
    requires Flat(es, acts) && Clear(es, acts, seq(|es|, _ => false), b, owner)
    requires Extends(b, now) && Extends(now, c) && Pairs(es, acts, p, c, owner)
    ensures var o := UnifyMembers(es, acts, seq(|es|, _ => false), now, owner); o.ok && Extends(o.bindings, c)
  {
    var used := seq(|es|, _ => false);
    Covered(p, |es|);
    forall i: nat | i < |es| ensures i in p { assert i in Below(|es|); }
    assert Remaining(es, acts, used, p, c, owner);
    ClearSearchFinds(es, acts, used, b, now, c, p, owner);
  }

  /** A search that succeeds among closed members and one other was clear: had the open member been
      taken while a closed one would do, that one would have found no partner. */
  lemma {:induction false} SuccessIsClear(es: seq<Type>, rest: seq<Type>, used: seq<bool>, b: Bindings, now: Bindings,
                                          open: nat, owner: nat)
    requires |used| == |es| && AllUnionFree(es) && Distinct(rest) && AllClosed(rest)
    requires forall i | 0 <= i < |es| && i != open :: Closed(es[i])
    requires open < |es| && !used[open] ==> now == b
    requires UnifyMembers(es, rest, used, now, owner).ok
    requires forall i: nat | i < |es| && !used[i] :: i in Taken(es, rest, used, now, owner)
    ensures Clear(es, rest, used, b, owner)
    decreases |rest|
  {
    if rest != [] {
      MembersSolve(es, rest, used, now, owner);
      var p := Taken(es, rest, used, now, owner);
      var c := UnifyMembers(es, rest, used, now, owner).bindings;
      forall i: nat | i < |es| && !used[i] && i != open
        ensures Unify(es[i], rest[0], b, owner) == Unify(es[i], rest[0], now, owner).(bindings := b)
      {
        ClosedTakesItself(es[i], rest[0], b, owner);
        ClosedTakesItself(es[i], rest[0], now, owner);
      }
      forall i: nat | i < |es| && First(es, rest[0], used, b, owner, i)
        ensures Closed(es[i]) || forall j | i < j < |es| && !used[j] :: !Unify(es[j], rest[0], b, owner).ok
        ensures Clear(es, rest[1..], used[i := true], b, owner)
      {
        assert First(es, rest[0], used, now, owner, i);
        TakeFirst(es, rest[0], 0, used, now, owner, i);
        if i == open { OpenTakenAlone(es, rest, used, b, p, c, open, owner); }
        else { ClosedTakesItself(es[i], rest[0], now, owner); }
        TakenNext(es, rest, used, now, i, owner);
        SuccessIsClear(es, rest[1..], used[i := true], b, Unify(es[i], rest[0], now, owner).bindings, open, owner);
      }
    }
  }

  lemma TakenNext(es: seq<Type>, rest: seq<Type>, used: seq<bool>, now: Bindings, i: nat, owner: nat)
    requires |used| == |es| && rest != [] && i < |es| && Distinct(Taken(es, rest, used, now, owner))
    requires TakeMember(es, rest[0], 0, used, now, owner) == (i, Unify(es[i], rest[0], now, owner).bindings)
    requires forall j: nat | j < |es| && !used[j] :: j in Taken(es, rest, used, now, owner)
    ensures forall j: nat | j < |es| && j != i && !used[j] ::
      j in Taken(es, rest[1..], used[i := true], Unify(es[i], rest[0], now, owner).bindings, owner)
  {
    var q := Taken(es, rest[1..], used[i := true], Unify(es[i], rest[0], now, owner).bindings, owner);
    assert Taken(es, rest, used, now, owner) == [i] + q;
  }

  lemma OpenTakenAlone(es: seq<Type>, rest: seq<Type>, used: seq<bool>, b: Bindings, p: seq<nat>, c: Bindings,
                       open: nat, owner: nat)
    requires |used| == |es| && AllUnionFree(es) && Distinct(rest) && AllClosed(rest) && rest != []
    requires open < |es| && forall i | 0 <= i < |es| && i != open :: Closed(es[i])
    requires Remaining(es, rest, used, p, c, owner) && p[0] == open
    ensures forall j | open < j < |es| && !used[j] :: !Unify(es[j], rest[0], b, owner).ok
  {
    forall j | open < j < |es| && !used[j] ensures !Unify(es[j], rest[0], b, owner).ok {
      assert j in p;
      var k :| 0 <= k < |p| && p[k] == j;
      ClosedAt(rest, k);
      ClosedTakesItself(es[j], rest[0], b, owner);
      ClosedTakesItself(es[j], rest[k], c, owner);
      assert Solves(es[p[k]], rest[k], c, owner);
    }
  }

  /** A union with at most one open member, against a closed one: the search succeeds if and only if
      there is a solution and the search is clear. */
  lemma OneOpenMemberExactly(e: Type, a: Type, b: Bindings, open: nat, owner: nat)
    requires IsUnion(e) && IsUnion(a) && !(e.Pointer? && a.Pointer?)
    requires Flat(UnionTypeMembers(e), UnionTypeMembers(a))
    requires forall i | 0 <= i < |UnionTypeMembers(e)| && i != open :: Closed(UnionTypeMembers(e)[i])
    ensures Unify(e, a, b, owner).ok <==>
      && (exists c :: Extends(b, c) && Solves(e, a, c, owner))
      && (e == a || Clear(UnionTypeMembers(e), UnionTypeMembers(a), seq(|UnionTypeMembers(e)|, _ => false), b, owner))
  {
    var es, acts := UnionTypeMembers(e), UnionTypeMembers(a);
    var used := seq(|es|, _ => false);
    var o := Unify(e, a, b, owner);
    if o.ok {
      UnifyExtends(e, a, b, owner);
      UnifySolves(e, a, b, owner);
      assert Extends(b, o.bindings) && Solves(e, a, o.bindings, owner);
      if e != a {
        MembersSolve(es, acts, used, b, owner);
        Covered(Taken(es, acts, used, b, owner), |es|);
        forall i: nat | i < |es| ensures i in Taken(es, acts, used, b, owner) { assert i in Below(|es|); }
        SuccessIsClear(es, acts, used, b, b, open, owner);
      }
    } else if c :| Extends(b, c) && Solves(e, a, c, owner) {
      if e != a && Clear(es, acts, used, b, owner) { DecidedComplete(e, a, b, b, c, owner); }
    }
  }

  ghost function Left(used: seq<bool>): set<nat> {
    set i: nat | i < |used| && !used[i]
  }

  lemma LeftNext(used: seq<bool>, i: nat)
    requires i < |used| && !used[i]
    ensures |Left(used[i := true])| == |Left(used)| - 1
  {
    assert Left(used[i := true]) == Left(used) - {i};
  }

  /** The open member comes last, or last before a Nil that both unions end in. */
  predicate OpenComesLast(es: seq<Type>, open: nat) {
    || open + 1 == |es|
    || (open + 2 == |es| && es[open + 1] == Nil)
  }

  /** Nil alone is tried after the open member, and it is still left with the open one only if another
      argument member is still to come. */
  lemma OpenLastAlone(es: seq<Type>, rest: seq<Type>, used: seq<bool>, b: Bindings, open: nat, owner: nat)
    requires |used| == |es| && open < |es| && !used[open] && rest != [] && AllClosed(rest) && Distinct(rest)
    requires OpenComesLast(es, open) && |Left(used)| == |rest|
    requires open + 2 == |es| ==> rest[|rest| - 1] == Nil && !used[open + 1]
    ensures forall j | open < j < |es| && !used[j] :: !Unify(es[j], rest[0], b, owner).ok
  {
    if open + 2 == |es| {
      ClosedTakesItself(Nil, rest[0], b, owner);
      SubsetCount({open, open + 1}, Left(used));
    }
  }

  /** By the time Nil comes up, every other argument member has been given a place, and only the open
      member was left for the last of them. */
  lemma {:induction false} OpenLastIsClear(es: seq<Type>, rest: seq<Type>, used: seq<bool>, b: Bindings, open: nat, owner: nat)
    requires |used| == |es| && AllUnionFree(es) && Distinct(rest) && AllClosed(rest)
    requires forall i | 0 <= i < |es| && i != open :: Closed(es[i])
    requires OpenComesLast(es, open) && |Left(used)| == |rest|
    requires open + 2 == |es| && rest != [] ==> rest[|rest| - 1] == Nil && !used[open + 1]
    ensures Clear(es, rest, used, b, owner)
    decreases |rest|
  {
    if rest != [] {
      forall i: nat | i < |es| && First(es, rest[0], used, b, owner, i)
        ensures Closed(es[i]) || forall j | i < j < |es| && !used[j] :: !Unify(es[j], rest[0], b, owner).ok
        ensures Clear(es, rest[1..], used[i := true], b, owner)
      {
        if i == open { OpenLastAlone(es, rest, used, b, open, owner); }
        if i != open { ClosedTakesItself(es[i], rest[0], b, owner); }
        LeftNext(used, i);
        OpenLastIsClear(es, rest[1..], used[i := true], b, open, owner);
      }
    }
  }

  /** So T, T | Nil, or closed members followed by either, are inferred whenever they can be. */
  lemma OpenLastExactly(e: Type, a: Type, b: Bindings, open: nat, owner: nat)
    requires IsUnion(e) && IsUnion(a) && !(e.Pointer? && a.Pointer?)
    requires Flat(UnionTypeMembers(e), UnionTypeMembers(a))
    requires forall i | 0 <= i < |UnionTypeMembers(e)| && i != open :: Closed(UnionTypeMembers(e)[i])
    requires OpenComesLast(UnionTypeMembers(e), open)
    requires open + 2 == |UnionTypeMembers(e)| ==> UnionTypeMembers(a)[open + 1] == Nil
    ensures Unify(e, a, b, owner).ok <==> exists c :: Extends(b, c) && Solves(e, a, c, owner)
  {
    var es, acts := UnionTypeMembers(e), UnionTypeMembers(a);
    var used := seq(|es|, _ => false);
    assert |Left(used)| == |es| by {
      assert Left(used) == Below(|es|);
    }
    OpenLastIsClear(es, acts, used, b, open, owner);
    OneOpenMemberExactly(e, a, b, open, owner);
  }

  // ----- when inference finds type arguments -----

  /** c solves every argument from the k-th on. */
  ghost predicate SolvesFrom(expected: seq<Type>, rest: bool, actual: seq<Type>, k: nat, c: Bindings, owner: nat)
    requires ArityFits(expected, rest, |actual|)
  {
    forall i | k <= i < |actual| :: Solves(expected[Slot(expected, rest, i)], actual[i], c, owner)
  }

  predicate AllDecided(expected: seq<Type>, rest: bool, actual: seq<Type>, b: Bindings, owner: nat)
    requires ArityFits(expected, rest, |actual|)
  {
    forall i | 0 <= i < |actual| :: Decided(expected[Slot(expected, rest, i)], actual[i], b, owner)
  }

  lemma {:induction false} UnifyFromSolves(expected: seq<Type>, rest: bool, actual: seq<Type>, k: nat, b: Bindings, owner: nat)
    requires k <= |actual| && ArityFits(expected, rest, |actual|)
    requires UnifyFrom(expected, rest, actual, k, b, owner).ok
    ensures var c := UnifyFrom(expected, rest, actual, k, b, owner).bindings;
      Extends(b, c) && SolvesFrom(expected, rest, actual, k, c, owner)
    decreases |actual| - k
  {
    if k < |actual| {
      var e := expected[Slot(expected, rest, k)];
      var o := Unify(e, actual[k], b, owner);
      UnifySolves(e, actual[k], b, owner);
      UnifyExtends(e, actual[k], b, owner);
      UnifyFromSolves(expected, rest, actual, k + 1, o.bindings, owner);
      SolvesStays(e, actual[k], o.bindings, UnifyFrom(expected, rest, actual, k + 1, o.bindings, owner).bindings, owner);
    }
  }

  lemma {:induction false} UnifyFromComplete(expected: seq<Type>, rest: bool, actual: seq<Type>, k: nat,
                                             b: Bindings, now: Bindings, c: Bindings, owner: nat)
    requires k <= |actual| && ArityFits(expected, rest, |actual|) && AllDecided(expected, rest, actual, b, owner)
    requires Extends(b, now) && Extends(now, c) && SolvesFrom(expected, rest, actual, k, c, owner)
    ensures var o := UnifyFrom(expected, rest, actual, k, now, owner); o.ok && Extends(o.bindings, c)
    decreases |actual| - k
  {
    if k < |actual| {
      var e := expected[Slot(expected, rest, k)];
      DecidedComplete(e, actual[k], b, now, c, owner);
      UnifyExtends(e, actual[k], now, owner);
      UnifyFromComplete(expected, rest, actual, k + 1, b, Unify(e, actual[k], now, owner).bindings, c, owner);
    }
  }

  /** Where every argument's search is clear, the arguments conflict only when no type arguments solve
      them all, and what is inferred is contained in whatever does. */
  lemma InferenceExactly(expected: seq<Type>, rest: bool, actual: seq<Type>, arity: nat, owner: nat)
    requires ArityFits(expected, rest, |actual|)
    requires AllDecided(expected, rest, actual, seq(arity, _ => None), owner)
    ensures UnifyFrom(expected, rest, actual, 0, seq(arity, _ => None), owner).ok <==>
      exists c: Bindings :: |c| == arity && SolvesFrom(expected, rest, actual, 0, c, owner)
    ensures forall c: Bindings | |c| == arity && SolvesFrom(expected, rest, actual, 0, c, owner) ::
      Extends(UnifyFrom(expected, rest, actual, 0, seq(arity, _ => None), owner).bindings, c)
  {
    var b: Bindings := seq(arity, _ => None);
    var o := UnifyFrom(expected, rest, actual, 0, b, owner);
    if o.ok {
      UnifyFromSolves(expected, rest, actual, 0, b, owner);
      assert |o.bindings| == arity && SolvesFrom(expected, rest, actual, 0, o.bindings, owner);
    }
    forall c: Bindings | |c| == arity && SolvesFrom(expected, rest, actual, 0, c, owner)
      ensures o.ok && Extends(o.bindings, c)
    {
      UnifyFromComplete(expected, rest, actual, 0, b, b, c, owner);
    }
  }

  // ----- rest parameters -----

  /** The parameter types with the rest element written out for every argument past the fixed ones. */
  function WrittenOut(expected: seq<Type>, count: nat): (r: seq<Type>)
    requires |expected| > 0 && count >= |expected| - 1
    ensures |r| == count
  {
    var fixed := |expected| - 1;
    expected[..fixed] + seq(count - fixed, _ => expected[fixed])
  }

  /** A rest parameter stands for any number of parameters of its element type. */
  lemma {:induction false} RestIsRepeated(expected: seq<Type>, actual: seq<Type>, k: nat, b: Bindings, owner: nat)
    requires |expected| > 0 && |actual| >= |expected| - 1 && k <= |actual|
    ensures ArityFits(expected, true, |actual|)
    ensures UnifyFrom(expected, true, actual, k, b, owner)
         == UnifyFrom(WrittenOut(expected, |actual|), false, actual, k, b, owner)
    decreases |actual| - k
  {
    if k < |actual| {
      var e := expected[Slot(expected, true, k)];
      assert e == WrittenOut(expected, |actual|)[k];
      RestIsRepeated(expected, actual, k + 1, Unify(e, actual[k], b, owner).bindings, owner);
    }
  }

  // ----- when inference succeeds -----

  /** The parameter occurs in the type. */
  predicate Mentions(t: Type, owner: nat, i: nat) {
    match t
    case Parameter(o, j) => o == owner && j == i
    case Pointer(element, _, _) => Mentions(element, owner, i)
    case Function(parameters, result, _) => SomeMentions(parameters, owner, i) || SomeMentions(result, owner, i)
    case Union(members) => SomeMentions(members, owner, i)
    case Dict(key, value) => Mentions(key, owner, i) || Mentions(value, owner, i)
    case Holds(_, element) => Mentions(element, owner, i)
    case Handle(_, element) => Mentions(element, owner, i)
    case _ => false
  }

  predicate SomeMentions(ts: seq<Type>, owner: nat, i: nat) {
    ts != [] && (Mentions(ts[0], owner, i) || SomeMentions(ts[1..], owner, i))
  }

  lemma {:induction false} MentionsAt(ts: seq<Type>, k: nat, owner: nat, i: nat)
    requires k < |ts| && Mentions(ts[k], owner, i)
    ensures SomeMentions(ts, owner, i)
  {
    if k > 0 { MentionsAt(ts[1..], k - 1, owner, i); }
  }

  lemma MemberMentions(t: Type, k: nat, owner: nat, i: nat)
    requires IsUnion(t) && k < |UnionTypeMembers(t)| && Mentions(UnionTypeMembers(t)[k], owner, i)
    ensures Mentions(t, owner, i)
  {
    if t.Union? { MentionsAt(t.members, k, owner, i); }
  }

  /** A solved type has every parameter it mentions bound. */
  lemma {:induction false} MentionedIsBound(t: Type, b: Bindings, owner: nat, i: nat)
    requires Solved(t, b, owner) && Mentions(t, owner, i)
    ensures i < |b| && b[i].Some?
    decreases t, 0
  {
    match t
    case Pointer(element, _, _) => MentionedIsBound(element, b, owner, i);
    case Function(parameters, result, _) =>
      if SomeMentions(parameters, owner, i) { SomeMentionedIsBound(parameters, b, owner, i); }
      else { SomeMentionedIsBound(result, b, owner, i); }
    case Union(members) => SomeMentionedIsBound(members, b, owner, i);
    case Dict(key, value) =>
      if Mentions(key, owner, i) { MentionedIsBound(key, b, owner, i); } else { MentionedIsBound(value, b, owner, i); }
    case Holds(_, element) => MentionedIsBound(element, b, owner, i);
    case Handle(_, element) => MentionedIsBound(element, b, owner, i);
    case _ =>
  }

  lemma {:induction false} SomeMentionedIsBound(ts: seq<Type>, b: Bindings, owner: nat, i: nat)
    requires AllSolved(ts, b, owner) && SomeMentions(ts, owner, i)
    ensures i < |b| && b[i].Some?
    decreases ts
  {
    if Mentions(ts[0], owner, i) { MentionedIsBound(ts[0], b, owner, i); }
    else { SomeMentionedIsBound(ts[1..], b, owner, i); }
  }

  /** Unification binds nothing the expected type does not mention, not even in an attempt that
      fails. */
  lemma {:induction false} UnifyBindsMentioned(e: Type, a: Type, b: Bindings, owner: nat, i: nat)
    requires i < |b| && !Mentions(e, owner, i)
    ensures var c := Unify(e, a, b, owner).bindings; i < |c| && c[i] == b[i]
    decreases Size(e), 0, 0
  {
    UnifyExtends(e, a, b, owner);
    if e.Parameter? || e == a {
    } else if e.Pointer? && a.Pointer? {
      UnifyBindsMentioned(e.element, a.element, b, owner, i);
    } else if IsUnion(e) && IsUnion(a) {
      MembersAreSmaller(e);
      var es := UnionTypeMembers(e);
      forall k | 0 <= k < |es| ensures !Mentions(es[k], owner, i) {
        if Mentions(es[k], owner, i) { MemberMentions(e, k, owner, i); }
      }
      MembersBindMentioned(es, UnionTypeMembers(a), seq(|es|, _ => false), b, owner, i);
    }
  }

  lemma {:induction false} MembersBindMentioned(es: seq<Type>, rest: seq<Type>, used: seq<bool>, b: Bindings, owner: nat, i: nat)
    requires |used| == |es| && i < |b| && forall k | 0 <= k < |es| :: !Mentions(es[k], owner, i)
    ensures var c := UnifyMembers(es, rest, used, b, owner).bindings; i < |c| && c[i] == b[i]
    decreases SizeAll(es), 2, |rest|
  {
    if rest != [] {
      TakeBindsMentioned(es, rest[0], 0, used, b, owner, i);
      var (index, after) := TakeMember(es, rest[0], 0, used, b, owner);
      if index < |es| { MembersBindMentioned(es, rest[1..], used[index := true], after, owner, i); }
    }
  }

  lemma {:induction false} TakeBindsMentioned(es: seq<Type>, a: Type, from: nat, used: seq<bool>, b: Bindings, owner: nat, i: nat)
    requires |used| == |es| && from <= |es| && i < |b| && forall k | 0 <= k < |es| :: !Mentions(es[k], owner, i)
    ensures var c := TakeMember(es, a, from, used, b, owner).1; i < |c| && c[i] == b[i]
    decreases SizeAll(es), 1, |es| - from
  {
    if from < |es| {
      if used[from] {
        TakeBindsMentioned(es, a, from + 1, used, b, owner, i);
      } else {
        SizeAt(es, from);
        UnifyBindsMentioned(es[from], a, b, owner, i);
        TakeBindsMentioned(es, a, from + 1, used, Unify(es[from], a, b, owner).bindings, owner, i);
      }
    }
  }

  /** Some argument is passed for a parameter type that mentions type parameter i. */
  predicate Determined(expected: seq<Type>, rest: bool, actual: seq<Type>, owner: nat, i: nat)
    requires ArityFits(expected, rest, |actual|)
  {
    exists k | 0 <= k < |actual| :: Mentions(expected[Slot(expected, rest, k)], owner, i)
  }

  lemma {:induction false} FromBindsMentioned(expected: seq<Type>, rest: bool, actual: seq<Type>, k: nat, b: Bindings,
                                              owner: nat, i: nat)
    requires k <= |actual| && ArityFits(expected, rest, |actual|) && i < |b| && !Determined(expected, rest, actual, owner, i)
    ensures var c := UnifyFrom(expected, rest, actual, k, b, owner).bindings; i < |c| && c[i] == b[i]
    decreases |actual| - k
  {
    if k < |actual| {
      var e := expected[Slot(expected, rest, k)];
      UnifyBindsMentioned(e, actual[k], b, owner, i);
      FromBindsMentioned(expected, rest, actual, k + 1, Unify(e, actual[k], b, owner).bindings, owner, i);
    }
  }

  /** Closed arguments whose searches are clear are inferred if and only if type arguments exist that
      solve them all and every type parameter occurs in the type of some argument; and then they are
      the type arguments inferred. */
  lemma InfersExactly(expected: seq<Type>, rest: bool, actual: seq<Type>, arity: nat, owner: nat)
    requires ArityFits(expected, rest, |actual|) && forall k | 0 <= k < |actual| :: Closed(actual[k])
    requires AllDecided(expected, rest, actual, seq(arity, _ => None), owner)
    ensures Infers(expected, rest, arity, owner, actual) <==>
      && (exists c: Bindings :: |c| == arity && SolvesFrom(expected, rest, actual, 0, c, owner))
      && forall i | 0 <= i < arity :: Determined(expected, rest, actual, owner, i)
    ensures Infers(expected, rest, arity, owner, actual) ==>
      forall c: Bindings | |c| == arity && SolvesFrom(expected, rest, actual, 0, c, owner) ::
        c == UnifyFrom(expected, rest, actual, 0, seq(arity, _ => None), owner).bindings
  {
    var b: Bindings := seq(arity, _ => None);
    var o := UnifyFrom(expected, rest, actual, 0, b, owner);
    InferenceExactly(expected, rest, actual, arity, owner);
    if o.ok {
      UnifyFromSound(expected, rest, actual, 0, b, owner);
      forall i | 0 <= i < arity ensures Passes(o.bindings, i) <==> Determined(expected, rest, actual, owner, i) {
        if Determined(expected, rest, actual, owner, i) {
          var k :| 0 <= k < |actual| && Mentions(expected[Slot(expected, rest, k)], owner, i);
          MentionedIsBound(expected[Slot(expected, rest, k)], o.bindings, owner, i);
          ClosedExactly(o.bindings[i].value);
        } else {
          FromBindsMentioned(expected, rest, actual, 0, b, owner, i);
        }
      }
      if Infers(expected, rest, arity, owner, actual) {
        forall c: Bindings | |c| == arity && SolvesFrom(expected, rest, actual, 0, c, owner) ensures c == o.bindings {
          assert Extends(o.bindings, c);
          forall i | 0 <= i < arity ensures c[i] == o.bindings[i] { assert Passes(o.bindings, i); }
        }
      }
    }
  }

  // ----- what the greedy search misses -----

  lemma OfTwo(t: Type, u: Type)
    ensures AllClosed([t, u]) <==> Closed(t) && Closed(u)
    ensures AllNoNullablePointer([t, u]) <==> NoNullablePointer(t) && NoNullablePointer(u)
  {
    var ts := [t, u];
    assert ts[1..] == [u] && ts[1..][1..] == [];
    assert AllClosed([u]) <==> Closed(u);
    assert AllNoNullablePointer([u]) <==> NoNullablePointer(u);
  }

  /** Ptr<T> | T against Ptr<Int> | Ptr<Ptr<Int>>: the first argument member binds T to Int and the
      second finds no partner, though T = Ptr<Int> is a solution. */
  lemma GreedySearchMissesSolution()
    ensures var t := Parameter(0, 0);
      var e := Union([Pointer(t, false, false), t]);
      var p := Pointer(Scalar(0), false, false);
      var a := Union([p, Pointer(p, false, false)]);
      Unify(e, a, [None], 0) == Outcome(false, [Some(Scalar(0))]) &&
      Solves(e, a, [Some(p)], 0) && Fits(Subst(e, [Some(p)], 0), a, true)
  {
    var t := Parameter(0, 0);
    var p := Pointer(Scalar(0), false, false);
    var pp := Pointer(p, false, false);
    var es, acts := [Pointer(t, false, false), t], [p, pp];
    var b := [Some(Scalar(0))];
    var used := seq(2, _ => false);
    assert Unify(es[0], p, [None], 0) == Outcome(true, b) by {
      assert Unify(t, Scalar(0), [None], 0) == Outcome(true, b);
    }
    assert TakeMember(es, p, 0, used, [None], 0) == (0, b);
    var one := used[0 := true];
    assert Unify(t, pp, b, 0) == Outcome(false, b);
    assert TakeMember(es, pp, 2, one, b, 0) == (2, b);
    assert TakeMember(es, pp, 1, one, b, 0) == (2, b);
    assert TakeMember(es, pp, 0, one, b, 0) == (2, b);
    assert acts[1..] == [pp];
    assert UnifyMembers(es, acts[1..], one, b, 0) == Outcome(false, b);
    assert UnifyMembers(es, acts, used, [None], 0) == Outcome(false, b);
    var c := [Some(p)];
    assert Solves(es[1], p, c, 0) && Solves(es[0], pp, c, 0);
    var order: seq<nat> := [1, 0];
    var e, a := Union(es), Union(acts);
    assert Pairs(UnionTypeMembers(e), UnionTypeMembers(a), order, c, 0);
    assert Solves(e, a, c, 0);
    OfTwo(es[0], t);
    OfTwo(p, pp);
    SolvesFits(e, a, c, 0, true);
  }

  /** Fitting an instance is less than unifying with it: neither a bound parameter nor a closed member
      takes the more writable pointer that its instance would accept. */
  lemma FittingIsNotEnough()
    ensures var p, w := Pointer(Scalar(0), false, false), Pointer(Scalar(0), true, false);
      && Fits(Subst(Parameter(0, 0), [Some(p)], 0), w, true) && !Unify(Parameter(0, 0), w, [Some(p)], 0).ok
      && Fits(Subst(p, [], 0), w, true) && !Unify(p, w, [], 0).ok
  {
    var p, w := Pointer(Scalar(0), false, false), Pointer(Scalar(0), true, false);
    assert Fits(p.element, w.element, true);
  }

  /** A parameter behind a task handle passes the parameter test: T is bound to an open type. */
  lemma HandleHidesParameter(u: nat)
    ensures var a := Handle(Task, Parameter(u, 0));
      Unify(Parameter(0, 0), a, [None], 0) == Outcome(true, [Some(a)]) && !ContainsTypeParameter(a) && !Closed(a)
  {
    var empty: Bindings := [None];
    assert empty[0 := Some(Handle(Task, Parameter(u, 0)))] == [Some(Handle(Task, Parameter(u, 0)))];
  }
}
