/** By-value layouts stay finite: the resolved-storage recursion rule, exactly, and its effect
    over a whole sequence of declarations. */
module Layout {
  import opened Finite

  /** A nominal object or ADT. */
  type Id = nat

  /** What the walk sees of a resolved type: a nominal copy, with the incomplete flag the copy
      carries; a union's members or an inline list's element (`Inline`); or a kind it never
      enters - scalars and every type stored through an indirection (`Opaque`). */
  datatype Shape = Opaque | Nominal(id: Id, flagged: bool) | Inline(parts: seq<Shape>)

  /** The members of every complete nominal: an object's, or all payload members of an ADT. A
      provisional nominal is absent. */
  type Env = map<Id, seq<Shape>>

  function Members(env: Env, id: Id): seq<Shape> {
    if id in env then env[id] else []
  }

  // ----- the rule -----

  function Invalid(env: Env, shape: Shape, self: Id, path: set<Id>): bool
    decreases env.Keys - path, shape, 0
  {
    match shape
    case Opaque => false
    case Inline(parts) => SomeInvalid(env, parts, self, path)
    case Nominal(id, flagged) =>
      id == self || id in path ||
      (!flagged && id in env && SomeInvalid(env, env[id], self, path + {id}))
  }

  predicate SomeInvalid(env: Env, shapes: seq<Shape>, self: Id, path: set<Id>)
    decreases env.Keys - path, shapes
  {
    shapes != [] && (Invalid(env, shapes[0], self, path) || SomeInvalid(env, shapes[1..], self, path))
  }

  /** The identities on the walk. */
  class Path {
    var keys: set<Id>

    constructor ()
      ensures keys == {}
    {
      keys := {};
    }
  }

  /** The rule as it runs: an identity is on the path exactly while its subtree is walked. */
  method LayoutRecursionInvalid(env: Env, shape: Shape, self: Id, path: Path) returns (invalid: bool)
    modifies path
    ensures path.keys == old(path.keys)
    ensures invalid == Invalid(env, shape, self, old(path.keys))
    decreases env.Keys - path.keys, shape, 0
  {
    match shape
    case Opaque => return false;
    case Inline(parts) =>
      invalid := AnyRecursionInvalid(env, parts, self, path);
    case Nominal(id, flagged) =>
      if id == self {
        return true;
      }
      if id in path.keys {
        return true;
      }
      path.keys := path.keys + {id};
      if flagged || id !in env {
        invalid := false;
      } else {
        invalid := AnyRecursionInvalid(env, env[id], self, path);
      }
      path.keys := path.keys - {id};
  }

  method AnyRecursionInvalid(env: Env, shapes: seq<Shape>, self: Id, path: Path) returns (invalid: bool)
    modifies path
    ensures path.keys == old(path.keys)
    ensures invalid == SomeInvalid(env, shapes, self, old(path.keys))
    decreases env.Keys - path.keys, shapes
  {
    for i := 0 to |shapes|
      invariant path.keys == old(path.keys)
      invariant SomeInvalid(env, shapes[i..], self, path.keys) == SomeInvalid(env, shapes, self, path.keys)
    {
      assert shapes[i..][0] == shapes[i] && shapes[i..][1..] == shapes[i + 1..];
      invalid := LayoutRecursionInvalid(env, shapes[i], self, path);
      if invalid {
        return;
      }
    }
    return false;
  }

  // ----- what the rule decides -----

  /** A copy of id is stored in the shape by value; `open` asks for one the walk may enter. */
  predicate Stores(shape: Shape, id: Id, open: bool) {
    match shape
    case Opaque => false
    case Nominal(x, flagged) => x == id && (open ==> !flagged)
    case Inline(parts) => SomeStores(parts, id, open)
  }

  predicate SomeStores(shapes: seq<Shape>, id: Id, open: bool) {
    shapes != [] && (Stores(shapes[0], id, open) || SomeStores(shapes[1..], id, open))
  }

  /** A walk from the given shapes: every nominal but the last is entered. */
  predicate Walk(env: Env, shapes: seq<Shape>, w: seq<Id>)
    decreases |w|
  {
    |w| > 0 &&
    if |w| == 1 then SomeStores(shapes, w[0], false)
    else SomeStores(shapes, w[0], true) && w[0] in env && Walk(env, env[w[0]], w[1..])
  }

  /** The walk ends at self, at an identity of the path, or where it has been before. */
  predicate Closes(self: Id, path: set<Id>, w: seq<Id>) {
    |w| > 0 &&
    (w[|w| - 1] == self || w[|w| - 1] in path || exists i | 0 <= i < |w| - 1 :: w[i] == w[|w| - 1])
  }

  lemma {:induction false} InvalidHasWalk(env: Env, shapes: seq<Shape>, self: Id, path: set<Id>) returns (w: seq<Id>)
    requires SomeInvalid(env, shapes, self, path)
    ensures Walk(env, shapes, w) && Closes(self, path, w)
    decreases env.Keys - path, shapes
  {
    if !Invalid(env, shapes[0], self, path) {
      w := InvalidHasWalk(env, shapes[1..], self, path);
      WalkFromMore(env, shapes, w);
      return;
    }
    match shapes[0]
    case Inline(parts) =>
      w := InvalidHasWalk(env, parts, self, path);
      WalkFromInline(env, shapes, w);
    case Nominal(id, flagged) =>
      if id == self || id in path {
        w := [id];
      } else {
        var rest := InvalidHasWalk(env, env[id], self, path + {id});
        w := [id] + rest;
        assert w[1..] == rest;
        if k :| 0 <= k < |rest| - 1 && rest[k] == rest[|rest| - 1] {
          assert w[k + 1] == w[|w| - 1];
        }
        assert rest[|rest| - 1] == id ==> w[0] == w[|w| - 1];
      }
  }

  lemma WalkFromMore(env: Env, shapes: seq<Shape>, w: seq<Id>)
    requires shapes != [] && Walk(env, shapes[1..], w)
    ensures Walk(env, shapes, w)
  {
  }

  lemma WalkFromInline(env: Env, shapes: seq<Shape>, w: seq<Id>)
    requires shapes != [] && shapes[0].Inline? && Walk(env, shapes[0].parts, w)
    ensures Walk(env, shapes, w)
  {
  }

  lemma {:induction false} WalkMakesInvalid(env: Env, shapes: seq<Shape>, self: Id, path: set<Id>, w: seq<Id>)
    requires Walk(env, shapes, w) && Closes(self, path, w)
    ensures SomeInvalid(env, shapes, self, path)
    decreases |w|, shapes
  {
    var open := |w| > 1;
    if !Stores(shapes[0], w[0], open) {
      WalkMakesInvalid(env, shapes[1..], self, path, w);
    } else if shapes[0].Inline? {
      assert Walk(env, shapes[0].parts, w);
      WalkMakesInvalid(env, shapes[0].parts, self, path, w);
    } else if w[0] != self && w[0] !in path {
      var rest := w[1..];
      assert Closes(self, path + {w[0]}, rest) by {
        if i :| 0 <= i < |w| - 1 && w[i] == w[|w| - 1] {
          assert i > 0 ==> rest[i - 1] == rest[|rest| - 1];
        }
      }
      WalkMakesInvalid(env, env[w[0]], self, path + {w[0]}, rest);
    }
  }

  /** The rule rejects exactly when some by-value walk ends at the declared type, or repeats. */
  lemma InvalidExactly(env: Env, shapes: seq<Shape>, self: Id)
    ensures SomeInvalid(env, shapes, self, {}) <==> exists w :: Walk(env, shapes, w) && Closes(self, {}, w)
  {
    if SomeInvalid(env, shapes, self, {}) {
      var w := InvalidHasWalk(env, shapes, self, {});
    }
    if w :| Walk(env, shapes, w) && Closes(self, {}, w) {
      WalkMakesInvalid(env, shapes, self, {}, w);
    }
  }

  // ----- the by-value graph -----

  predicate Contains(env: Env, a: Id, b: Id) {
    a in env && SomeStores(env[a], b, false)
  }

  predicate IsPath(env: Env, p: seq<Id>) {
    |p| > 0 && forall i | 0 <= i < |p| - 1 :: Contains(env, p[i], p[i + 1])
  }

  predicate IsCycle(env: Env, p: seq<Id>) {
    IsPath(env, p) && |p| >= 2 && p[0] == p[|p| - 1]
  }

  ghost predicate Acyclic(env: Env) {
    forall p :: !IsCycle(env, p)
  }

  lemma OpenStores(shapes: seq<Shape>, id: Id)
    requires SomeStores(shapes, id, true)
    ensures SomeStores(shapes, id, false)
  {
    if Stores(shapes[0], id, true) {
      OpenStoresShape(shapes[0], id);
    } else {
      OpenStores(shapes[1..], id);
    }
  }

  lemma OpenStoresShape(shape: Shape, id: Id)
    requires Stores(shape, id, true)
    ensures Stores(shape, id, false)
  {
    if shape.Inline? { OpenStores(shape.parts, id); }
  }

  /** Without flags, a walk is a path whose first nominal the shapes store. */
  lemma {:induction false} WalkIsPath(env: Env, shapes: seq<Shape>, w: seq<Id>)
    requires Walk(env, shapes, w)
    ensures IsPath(env, w) && SomeStores(shapes, w[0], false)
    decreases |w|
  {
    if |w| > 1 {
      OpenStores(shapes, w[0]);
      WalkIsPath(env, env[w[0]], w[1..]);
      forall i | 0 <= i < |w| - 1 ensures Contains(env, w[i], w[i + 1]) {
        assert i > 0 ==> Contains(env, w[1..][i - 1], w[1..][i]);
      }
    }
  }

  /** Some type stored in the members leads back by value to the declared one, whatever the flags. */
  ghost predicate LeadsBack(env: Env, members: seq<Shape>, id: Id) {
    exists w :: IsPath(env, w) && SomeStores(members, w[0], false) && w[|w| - 1] == id
  }

  /** It does so without passing through a flagged copy; the copy it ends at may be flagged. */
  ghost predicate LeadsBackOpenly(env: Env, members: seq<Shape>, id: Id) {
    exists w :: Walk(env, members, w) && w[|w| - 1] == id
  }

  /** Every way back passes through a flagged copy, where the walk stops. */
  ghost predicate Hidden(env: Env, members: seq<Shape>, id: Id) {
    LeadsBack(env, members, id) && !LeadsBackOpenly(env, members, id)
  }

  // ----- one declaration -----

  lemma TailOfPath(env: Env, p: seq<Id>, i: nat, j: nat)
    requires IsPath(env, p) && i < j <= |p|
    ensures IsPath(env, p[i..j])
  {
    forall k | 0 <= k < |p[i..j]| - 1 ensures Contains(env, p[i..j][k], p[i..j][k + 1]) {
      assert Contains(env, p[i + k], p[i + k + 1]);
    }
  }

  /** The same cycle, entered at position i. */
  lemma Rotate(env: Env, p: seq<Id>, i: nat) returns (q: seq<Id>)
    requires IsCycle(env, p) && i < |p|
    ensures IsCycle(env, q) && q[0] == p[i]
  {
    if i == |p| - 1 {
      q := p;
      return;
    }
    q := p[i..] + p[1..i + 1];
    assert q[|q| - 1] == p[i];
    forall k | 0 <= k < |q| - 1 ensures Contains(env, q[k], q[k + 1]) {
      if k < |p| - i - 1 {
        assert Contains(env, p[i + k], p[i + k + 1]);
      } else {
        var m := k - (|p| - i - 1);
        assert q[k] == p[m] && q[k + 1] == p[m + 1];
        assert Contains(env, p[m], p[m + 1]);
      }
    }
  }

  /** A cycle that starts at n, cut at its first return to n. */
  lemma FirstReturn(env: Env, q: seq<Id>) returns (j: nat)
    requires IsCycle(env, q)
    ensures 0 < j < |q| && q[j] == q[0]
    ensures forall k | 0 < k < j :: q[k] != q[0]
  {
    j := 1;
    while q[j] != q[0]
      invariant 0 < j < |q|
      invariant forall k | 0 < k < j :: q[k] != q[0]
      decreases |q| - j
    {
      j := j + 1;
    }
  }

  /** A by-value cycle through the declared type leads back to it over what was complete before. */
  lemma CycleThroughLeadsBack(env: Env, id: Id, members: seq<Shape>, p: seq<Id>)
    requires IsCycle(env[id := members], p) && id in p
    ensures LeadsBack(env, members, id)
  {
    var after := env[id := members];
    var i :| 0 <= i < |p| && p[i] == id;
    var q := Rotate(after, p, i);
    var j := FirstReturn(after, q);
    var w := q[1..j + 1];
    assert Contains(after, q[0], q[1]);
    forall k | 0 <= k < |w| - 1 ensures Contains(env, w[k], w[k + 1]) {
      assert Contains(after, q[k + 1], q[k + 2]);
    }
  }

  /** Flags or not, a rejection is never spurious: it exhibits a by-value cycle. */
  lemma RejectionHasCycle(env: Env, id: Id, members: seq<Shape>) returns (p: seq<Id>)
    requires id !in env && SomeInvalid(env, members, id, {})
    ensures IsCycle(env[id := members], p)
  {
    var after := env[id := members];
    var w := InvalidHasWalk(env, members, id, {});
    WalkIsPath(env, members, w);
    p := [id] + w;
    forall k | 0 <= k < |p| - 1 ensures Contains(after, p[k], p[k + 1]) {
      if k > 0 {
        assert Contains(env, w[k - 1], w[k]);
      }
    }
    if w[|w| - 1] != id {
      var i :| 0 <= i < |w| - 1 && w[i] == w[|w| - 1];
      TailOfPath(after, p, i + 1, |p|);
      p := p[i + 1..|p|];
    }
  }

  lemma CycleAway(env: Env, id: Id, members: seq<Shape>, p: seq<Id>)
    requires IsCycle(env[id := members], p) && id !in p
    ensures IsCycle(env, p)
  {
    forall k | 0 <= k < |p| - 1 ensures Contains(env, p[k], p[k + 1]) {
      assert Contains(env[id := members], p[k], p[k + 1]);
      assert p[k] in p;
    }
  }

  lemma CycleKept(env: Env, id: Id, members: seq<Shape>, p: seq<Id>)
    requires IsCycle(env, p) && id !in env
    ensures IsCycle(env[id := members], p)
  {
    forall k | 0 <= k < |p| - 1 ensures Contains(env[id := members], p[k], p[k + 1]) {
      assert Contains(env, p[k], p[k + 1]);
    }
  }

  /** Completing the declaration closes a by-value cycle exactly when its members lead back to it. */
  lemma CycleExactly(env: Env, id: Id, members: seq<Shape>)
    requires Acyclic(env) && id !in env
    ensures Acyclic(env[id := members]) <==> !LeadsBack(env, members, id)
  {
    var after := env[id := members];
    if w :| IsPath(env, w) && SomeStores(members, w[0], false) && w[|w| - 1] == id {
      var p := [id] + w;
      forall k | 0 <= k < |p| - 1 ensures Contains(after, p[k], p[k + 1]) {
        if k > 0 { assert Contains(env, w[k - 1], w[k]); }
      }
      assert IsCycle(after, p);
    }
    if p :| IsCycle(after, p) {
      if id in p {
        CycleThroughLeadsBack(env, id, members, p);
      } else {
        CycleAway(env, id, members, p);
      }
    }
  }

  /** Over an acyclic environment the rule rejects exactly what leads back without a flagged copy in
      the way: nothing else can repeat. */
  lemma RejectsExactly(env: Env, id: Id, members: seq<Shape>)
    requires Acyclic(env)
    ensures SomeInvalid(env, members, id, {}) <==> LeadsBackOpenly(env, members, id)
  {
    if SomeInvalid(env, members, id, {}) {
      var w := InvalidHasWalk(env, members, id, {});
      WalkIsPath(env, members, w);
      if i :| 0 <= i < |w| - 1 && w[i] == w[|w| - 1] {
        TailOfPath(env, w, i, |w|);
        assert IsCycle(env, w[i..|w|]);
      }
    }
    if w :| Walk(env, members, w) && w[|w| - 1] == id {
      WalkMakesInvalid(env, members, id, {}, w);
    }
  }

  /** One acceptance, exactly: the rule accepts if and only if completing the declaration keeps the
      by-value graph free of cycles, precisely unless every way back to the declared type is hidden
      behind a flagged copy. */
  lemma AcceptExact(env: Env, id: Id, members: seq<Shape>)
    requires Acyclic(env) && id !in env
    ensures (!SomeInvalid(env, members, id, {}) <==> Acyclic(env[id := members])) <==> !Hidden(env, members, id)
  {
    CycleExactly(env, id, members);
    RejectsExactly(env, id, members);
    if LeadsBackOpenly(env, members, id) { OpenlyIsBack(env, id, members); }
  }

  lemma OpenlyIsBack(env: Env, id: Id, members: seq<Shape>)
    requires LeadsBackOpenly(env, members, id)
    ensures LeadsBack(env, members, id)
  {
    var w :| Walk(env, members, w) && w[|w| - 1] == id;
    WalkIsPath(env, members, w);
  }

  // ----- flags that hide nothing -----

  /** The flagged copies stored in these shapes are copies of the one type `own`. */
  predicate FlagsOnly(shapes: seq<Shape>, own: Id) {
    shapes != [] ==> FlagOnly(shapes[0], own) && FlagsOnly(shapes[1..], own)
  }

  predicate FlagOnly(shape: Shape, own: Id) {
    match shape
    case Opaque => true
    case Nominal(id, flagged) => flagged ==> id == own
    case Inline(parts) => FlagsOnly(parts, own)
  }

  /** Flagged copies are stored only where the declaration they were taken in stores itself. */
  predicate OwnFlags(env: Env) {
    forall id | id in env :: FlagsOnly(env[id], id)
  }

  lemma {:induction false} StoredOpenlyOrOwn(shapes: seq<Shape>, own: Id, id: Id)
    requires FlagsOnly(shapes, own) && SomeStores(shapes, id, false)
    ensures SomeStores(shapes, id, true) || id == own
    decreases shapes
  {
    if !Stores(shapes[0], id, false) {
      StoredOpenlyOrOwn(shapes[1..], own, id);
    } else if shapes[0].Inline? {
      StoredOpenlyOrOwn(shapes[0].parts, own, id);
    }
  }

  /** A path back goes on as a walk: where it steps from a type to its own flagged copy, that step is
      left out. */
  lemma {:induction false} OwnWay(env: Env, shapes: seq<Shape>, own: Id, p: seq<Id>, id: Id) returns (w: seq<Id>)
    requires OwnFlags(env) && FlagsOnly(shapes, own) && (own == id || (own in env && env[own] == shapes))
    requires IsPath(env, p) && SomeStores(shapes, p[0], false) && p[|p| - 1] == id
    ensures Walk(env, shapes, w) && w[|w| - 1] == id
    decreases |p|
  {
    if |p| == 1 || p[0] == id {
      w := [id];
    } else {
      StoredOpenlyOrOwn(shapes, own, p[0]);
      TailOfPath(env, p, 1, |p|);
      assert Contains(env, p[0], p[1]);
      w := OwnWay(env, env[p[0]], p[0], p[1..], id);
      if SomeStores(shapes, p[0], true) {
        var rest := w;
        w := [p[0]] + rest;
        assert w[1..] == rest;
      }
    }
  }

  lemma OwnFlagsHideNothing(env: Env, id: Id, members: seq<Shape>)
    requires OwnFlags(env) && FlagsOnly(members, id)
    ensures !Hidden(env, members, id)
  {
    if p :| IsPath(env, p) && SomeStores(members, p[0], false) && p[|p| - 1] == id {
      var w := OwnWay(env, members, id, p, id);
    }
  }

  /** The shapes with every flag reset. */
  function Erase(shapes: seq<Shape>): seq<Shape> {
    if shapes == [] then [] else [EraseShape(shapes[0])] + Erase(shapes[1..])
  }

  function EraseShape(shape: Shape): Shape {
    match shape
    case Opaque => Opaque
    case Nominal(id, _) => Nominal(id, false)
    case Inline(parts) => Inline(Erase(parts))
  }

  function EraseEnv(env: Env): Env {
    map id | id in env :: Erase(env[id])
  }

  lemma {:induction false} EraseStores(shapes: seq<Shape>, id: Id)
    ensures SomeStores(Erase(shapes), id, false) == SomeStores(shapes, id, false) && FlagsOnly(Erase(shapes), id)
    decreases shapes
  {
    if shapes != [] {
      assert Erase(shapes)[1..] == Erase(shapes[1..]);
      EraseStores(shapes[1..], id);
      if shapes[0].Inline? { EraseStores(shapes[0].parts, id); }
    }
  }

  lemma EraseKeepsCycles(env: Env)
    ensures OwnFlags(EraseEnv(env)) && (Acyclic(EraseEnv(env)) <==> Acyclic(env))
  {
    var e := EraseEnv(env);
    forall id | id in e ensures FlagsOnly(e[id], id) { EraseStores(env[id], id); }
    forall a, b ensures Contains(e, a, b) == Contains(env, a, b) {
      if a in env { EraseStores(env[a], b); }
    }
    forall p ensures IsPath(e, p) == IsPath(env, p) { SamePath(e, env, p); }
    forall p ensures IsCycle(e, p) == IsCycle(env, p) { assert IsPath(e, p) == IsPath(env, p); }
  }

  lemma SamePath(e: Env, env: Env, p: seq<Id>)
    requires forall a, b :: Contains(e, a, b) == Contains(env, a, b)
    ensures IsPath(e, p) == IsPath(env, p)
  {
  }

  /** The same rule over copies whose flags are kept up to date decides acyclicity, without
      condition. */
  lemma ErasedDecides(env: Env, id: Id, members: seq<Shape>)
    requires Acyclic(env) && id !in env
    ensures !SomeInvalid(EraseEnv(env), Erase(members), id, {}) <==> Acyclic(env[id := members])
  {
    EraseKeepsCycles(env);
    EraseKeepsCycles(env[id := members]);
    EraseStores(members, id);
    assert EraseEnv(env[id := members]) == EraseEnv(env)[id := Erase(members)];
    AcceptExact(EraseEnv(env), id, Erase(members));
    OwnFlagsHideNothing(EraseEnv(env), id, Erase(members));
  }

  // ----- a whole sequence of declarations -----

  /** One nominal declaration or specialization, in the order of completion. */
  datatype Declaration = Declaration(id: Id, members: seq<Shape>)

  predicate Sequence(ds: seq<Declaration>) {
    forall i, j | 0 <= i < j < |ds| :: ds[i].id != ds[j].id
  }

  /** The nominals complete once all of ds are. */
  function Completed(ds: seq<Declaration>): Env {
    if ds == [] then map[] else Completed(ds[..|ds| - 1])[ds[|ds| - 1].id := ds[|ds| - 1].members]
  }

  /** Declaration k passes the rule: what it may enter is what was complete before it. */
  predicate Accepted(ds: seq<Declaration>, k: nat)
    requires k < |ds|
  {
    !SomeInvalid(Completed(ds[..k]), ds[k].members, ds[k].id, {})
  }

  lemma {:induction false} CompletedHolds(ds: seq<Declaration>)
    requires Sequence(ds)
    ensures forall i | 0 <= i < |ds| :: ds[i].id in Completed(ds) && Completed(ds)[ds[i].id] == ds[i].members
    ensures forall id | id in Completed(ds) :: exists i :: 0 <= i < |ds| && ds[i].id == id
  {
    if ds != [] {
      CompletedHolds(ds[..|ds| - 1]);
      forall id | id in Completed(ds) ensures exists i :: 0 <= i < |ds| && ds[i].id == id {
        if id != ds[|ds| - 1].id {
          var i :| 0 <= i < |ds[..|ds| - 1]| && ds[..|ds| - 1][i].id == id;
          assert ds[i].id == id;
        }
      }
      forall i | 0 <= i < |ds| - 1 ensures ds[i].id in Completed(ds) && Completed(ds)[ds[i].id] == ds[i].members {
        assert ds[..|ds| - 1][i] == ds[i];
      }
    }
  }

  /** At declaration k, every by-value way back to it is behind a flagged copy. */
  ghost predicate HiddenAt(ds: seq<Declaration>, k: nat)
    requires k < |ds|
  {
    Hidden(Completed(ds[..k]), ds[k].members, ds[k].id)
  }

  /** Declaration k is accepted, and not misled. */
  ghost predicate Right(ds: seq<Declaration>, k: nat)
    requires k < |ds|
  {
    Accepted(ds, k) && !HiddenAt(ds, k)
  }

  /** Whatever was provisional when and whatever kept its flag: no chain of by-value storage over the
      whole environment closes if and only if every declaration is accepted and at none of them a
      flagged copy hides the way back. */
  lemma {:induction false} AllAcceptedExactlyAcyclic(ds: seq<Declaration>)
    requires Sequence(ds)
    ensures Acyclic(Completed(ds)) <==> forall k | 0 <= k < |ds| :: Right(ds, k)
    decreases |ds|
  {
    if ds == [] {
      forall p ensures !IsCycle(Completed(ds), p) {
        if |p| >= 2 { assert !Contains(Completed(ds), p[0], p[1]); }
      }
    } else {
      var before, last := ds[..|ds| - 1], ds[|ds| - 1];
      AllAcceptedExactlyAcyclic(before);
      CompletedHolds(before);
      forall k | 0 <= k < |before| ensures Right(ds, k) == Right(before, k) { RightBefore(ds, k); }
      OneStep(Completed(before), last.id, last.members);
      assert Acyclic(Completed(ds)) <==> Acyclic(Completed(before)) && Right(ds, |before|);
    }
  }

  lemma RightBefore(ds: seq<Declaration>, k: nat)
    requires k < |ds| - 1
    ensures Right(ds, k) == Right(ds[..|ds| - 1], k)
  {
    assert ds[..k] == ds[..|ds| - 1][..k];
  }

  /** The verdicts agree with the graph exactly when one of them rejects or none of them is misled. */
  lemma VerdictsAgreeExactly(ds: seq<Declaration>)
    requires Sequence(ds)
    ensures ((forall k | 0 <= k < |ds| :: Accepted(ds, k)) <==> Acyclic(Completed(ds))) <==>
      ((exists k | 0 <= k < |ds| :: !Accepted(ds, k)) || forall k | 0 <= k < |ds| :: !HiddenAt(ds, k))
  {
    AllAcceptedExactlyAcyclic(ds);
    if forall k | 0 <= k < |ds| :: Accepted(ds, k) {
      if forall k | 0 <= k < |ds| :: !HiddenAt(ds, k) {
        assert forall k | 0 <= k < |ds| :: Right(ds, k);
      } else {
        var k :| 0 <= k < |ds| && HiddenAt(ds, k);
        assert !Right(ds, k);
      }
    } else {
      var k :| 0 <= k < |ds| && !Accepted(ds, k);
      assert !Right(ds, k);
    }
  }

  /** A declaration leaves the graph acyclic exactly when it was, and it is neither rejected nor
      misled. */
  lemma OneStep(env: Env, id: Id, members: seq<Shape>)
    requires id !in env
    ensures Acyclic(env[id := members]) <==>
      Acyclic(env) && !SomeInvalid(env, members, id, {}) && !Hidden(env, members, id)
  {
    if Acyclic(env) {
      CycleExactly(env, id, members);
      RejectsExactly(env, id, members);
      if LeadsBackOpenly(env, members, id) { OpenlyIsBack(env, id, members); }
    } else {
      var p :| IsCycle(env, p);
      CycleKept(env, id, members, p);
    }
  }

  /** Resetting the flags of a whole sequence. */
  function Erased(ds: seq<Declaration>): (r: seq<Declaration>)
    ensures |r| == |ds|
    ensures forall i | 0 <= i < |ds| :: r[i] == Declaration(ds[i].id, Erase(ds[i].members))
  {
    seq(|ds|, i requires 0 <= i < |ds| => Declaration(ds[i].id, Erase(ds[i].members)))
  }

  lemma {:induction false} ErasedCompleted(ds: seq<Declaration>)
    ensures Completed(Erased(ds)) == EraseEnv(Completed(ds))
  {
    if ds != [] {
      var n := |ds| - 1;
      ErasedCompleted(ds[..n]);
      assert Erased(ds)[..n] == Erased(ds[..n]);
    }
  }

  /** With flags that are up to date, all declarations are accepted exactly when the environment they
      build is free of cycles. */
  lemma ErasedAllAccepted(ds: seq<Declaration>)
    requires Sequence(ds)
    ensures (forall k | 0 <= k < |ds| :: Accepted(Erased(ds), k)) <==> Acyclic(Completed(ds))
  {
    var es := Erased(ds);
    AllAcceptedExactlyAcyclic(es);
    ErasedCompleted(ds);
    EraseKeepsCycles(Completed(ds));
    forall k | 0 <= k < |ds| ensures FlagsOnly(es[k].members, es[k].id) { EraseStores(ds[k].members, ds[k].id); }
    OwnCopies(es);
  }

  /** So are all declarations whose only flagged copies are of the declared type itself, the copy a
      declaration sees of itself while it is provisional. */
  lemma OwnCopies(ds: seq<Declaration>)
    requires Sequence(ds) && forall k | 0 <= k < |ds| :: FlagsOnly(ds[k].members, ds[k].id)
    ensures forall k | 0 <= k < |ds| :: !HiddenAt(ds, k)
    ensures (forall k | 0 <= k < |ds| :: Accepted(ds, k)) <==> Acyclic(Completed(ds))
  {
    forall k | 0 <= k < |ds| ensures !HiddenAt(ds, k) {
      CompletedHolds(ds[..k]);
      forall id | id in Completed(ds[..k]) ensures FlagsOnly(Completed(ds[..k])[id], id) {
        var i :| 0 <= i < |ds[..k]| && ds[..k][i].id == id;
        assert ds[i] == ds[..k][i];
      }
      OwnFlagsHideNothing(Completed(ds[..k]), ds[k].id, ds[k].members);
    }
    VerdictsAgreeExactly(ds);
  }

  /** Of the types on a would-be cycle, the one completed last is the one rejected, unless a flagged
      copy hides the cycle from it. */
  lemma {:induction false} LastCompletedRejects(ds: seq<Declaration>, p: seq<Id>, k: nat)
    requires Sequence(ds) && IsCycle(Completed(ds), p)
    requires k < |ds| && ds[k].id in p
    requires forall i | k < i < |ds| :: ds[i].id !in p
    ensures !Accepted(ds, k) || HiddenAt(ds, k)
    decreases |ds|
  {
    var before, last := ds[..|ds| - 1], ds[|ds| - 1];
    if k == |ds| - 1 {
      var env := Completed(before);
      CycleThroughLeadsBack(env, last.id, last.members, p);
      if w :| Walk(env, last.members, w) && w[|w| - 1] == last.id {
        WalkMakesInvalid(env, last.members, last.id, {}, w);
      }
    } else {
      CycleAway(Completed(before), last.id, last.members, p);
      LastCompletedRejects(before, p, k);
      assert ds[..k] == before[..k];
    }
  }

  // ----- finite storage -----

  lemma {:induction false} PathIsShort(env: Env, p: seq<Id>)
    requires Acyclic(env) && IsPath(env, p)
    ensures |p| <= |env.Keys| + 1
  {
    forall i, j | 0 <= i < j < |p| ensures p[i] != p[j] {
      if p[i] == p[j] {
        TailOfPath(env, p, i, j + 1);
        assert IsCycle(env, p[i..j + 1]);
      }
    }
    var inner := p[..|p| - 1];
    forall i | 0 <= i < |inner| ensures inner[i] in env.Keys {
      assert Contains(env, p[i], p[i + 1]);
    }
    DistinctFit(inner, env.Keys);
  }

  /** The types entered on the way here, all stored in one another by value. */
  ghost predicate Inside(env: Env, shapes: seq<Shape>, way: seq<Id>) {
    way != [] ==>
      IsPath(env, way) && forall id | SomeStores(shapes, id, false) :: Contains(env, way[|way| - 1], id)
  }

  /** With no visited set at all, replacing every complete nominal by its members ends: in an
      acyclic environment a value of any type is finitely many leaves. */
  ghost function Expand(env: Env, shapes: seq<Shape>, way: seq<Id>): (leaves: seq<Shape>)
    requires Acyclic(env) && Inside(env, shapes, way)
    ensures forall id | id in env :: !SomeStores(leaves, id, false)
    decreases |env.Keys| + 2 - |way|, shapes
  {
    if shapes == [] then []
    else
      StoresParts(shapes);
      var rest := Expand(env, shapes[1..], way);
      match shapes[0]
      case Opaque => Joined([Opaque], rest); [Opaque] + rest
      case Inline(parts) =>
        var first := Expand(env, parts, way);
        Joined(first, rest); first + rest
      case Nominal(id, _) =>
        if id !in env then Joined([shapes[0]], rest); [shapes[0]] + rest
        else
          Deeper(env, shapes, way, id);
          var first := Expand(env, env[id], way + [id]);
          Joined(first, rest); first + rest
  }

  lemma StoresParts(shapes: seq<Shape>)
    requires shapes != []
    ensures forall id | SomeStores(shapes[1..], id, false) :: SomeStores(shapes, id, false)
    ensures shapes[0].Inline? ==> forall id | SomeStores(shapes[0].parts, id, false) :: SomeStores(shapes, id, false)
  {
  }

  lemma Deeper(env: Env, shapes: seq<Shape>, way: seq<Id>, id: Id)
    requires Acyclic(env) && Inside(env, shapes, way) && SomeStores(shapes, id, false) && id in env
    ensures Inside(env, env[id], way + [id]) && |way| <= |env.Keys|
  {
    var on := way + [id];
    forall k | 0 <= k < |on| - 1 ensures Contains(env, on[k], on[k + 1]) {
      if k < |way| - 1 {
        assert Contains(env, way[k], way[k + 1]);
      }
    }
    PathIsShort(env, on);
  }

  lemma {:induction false} Joined(a: seq<Shape>, b: seq<Shape>)
    ensures forall id, open :: SomeStores(a + b, id, open) == (SomeStores(a, id, open) || SomeStores(b, id, open))
    decreases |a|
  {
    if a == [] {
      assert a + b == b;
    } else {
      assert (a + b)[1..] == a[1..] + b;
      Joined(a[1..], b);
    }
  }

  /** The incomplete nominals among the leaves are exactly those a by-value path leads to. */
  lemma {:induction false} ExpandExactly(env: Env, shapes: seq<Shape>, way: seq<Id>, id: Id)
    requires Acyclic(env) && Inside(env, shapes, way) && id !in env
    ensures SomeStores(Expand(env, shapes, way), id, false) <==> LeadsBack(env, shapes, id)
    decreases |env.Keys| + 2 - |way|, shapes
  {
    if shapes == [] {
      forall p | IsPath(env, p) ensures !SomeStores(shapes, p[0], false) { }
    } else {
      StoresParts(shapes);
      var rest := Expand(env, shapes[1..], way);
      ExpandExactly(env, shapes[1..], way, id);
      LeadsFromParts(env, shapes, id);
      match shapes[0]
      case Opaque => Joined([Opaque], rest);
      case Inline(parts) =>
        ExpandExactly(env, parts, way, id);
        Joined(Expand(env, parts, way), rest);
      case Nominal(x, _) =>
        if x !in env {
          Joined([shapes[0]], rest);
        } else {
          Deeper(env, shapes, way, x);
          ExpandExactly(env, env[x], way + [x], id);
          Joined(Expand(env, env[x], way + [x]), rest);
        }
    }
  }

  ghost predicate LeadsFrom(env: Env, shape: Shape, id: Id) {
    match shape
    case Opaque => false
    case Inline(parts) => LeadsBack(env, parts, id)
    case Nominal(x, _) => if x in env then LeadsBack(env, env[x], id) else x == id
  }

  /** What a path from the shapes starts with. */
  lemma LeadsFromParts(env: Env, shapes: seq<Shape>, id: Id)
    requires shapes != [] && id !in env
    ensures LeadsBack(env, shapes, id) <==> (LeadsBack(env, shapes[1..], id) || LeadsFrom(env, shapes[0], id))
  {
    StoresParts(shapes);
    if LeadsBack(env, shapes[1..], id) {
      var p :| IsPath(env, p) && SomeStores(shapes[1..], p[0], false) && p[|p| - 1] == id;
      assert SomeStores(shapes, p[0], false);
    }
    if shapes[0].Inline? && LeadsBack(env, shapes[0].parts, id) {
      var p :| IsPath(env, p) && SomeStores(shapes[0].parts, p[0], false) && p[|p| - 1] == id;
      assert SomeStores(shapes, p[0], false);
    }
    if p :| IsPath(env, p) && SomeStores(shapes, p[0], false) && p[|p| - 1] == id {
      StoredInHeadOrTail(shapes, p[0]);
      if !SomeStores(shapes[1..], p[0], false) && shapes[0].Nominal? {
        assert shapes[0].id == p[0];
        if |p| > 1 {
          assert Contains(env, p[0], p[1]);
          TailOfPath(env, p, 1, |p|);
          assert p[1..|p|] == p[1..];
          assert SomeStores(env[p[0]], p[1..][0], false) && p[1..][|p| - 2] == id;
        }
      }
    }
    if shapes[0].Nominal? && LeadsFrom(env, shapes[0], id) { NominalLeads(env, shapes, id); }
  }

  lemma StoredInHeadOrTail(shapes: seq<Shape>, id: Id)
    requires shapes != [] && SomeStores(shapes, id, false)
    ensures
      || SomeStores(shapes[1..], id, false)
      || (shapes[0].Nominal? && shapes[0].id == id)
      || (shapes[0].Inline? && SomeStores(shapes[0].parts, id, false))
  {
  }

  lemma NominalLeads(env: Env, shapes: seq<Shape>, id: Id)
    requires shapes != [] && shapes[0].Nominal? && LeadsFrom(env, shapes[0], id)
    ensures LeadsBack(env, shapes, id)
  {
    var x := shapes[0].id;
    if x in env {
      var p :| IsPath(env, p) && SomeStores(env[x], p[0], false) && p[|p| - 1] == id;
      var longer := [x] + p;
      forall k | 0 <= k < |longer| - 1 ensures Contains(env, longer[k], longer[k + 1]) {
        if k > 0 { assert Contains(env, p[k - 1], p[k]); }
      }
      assert IsPath(env, longer) && SomeStores(shapes, longer[0], false) && longer[|longer| - 1] == id;
    } else {
      var p := [id];
      assert IsPath(env, p) && SomeStores(shapes, p[0], false) && p[|p| - 1] == id;
    }
  }

  // ----- a copy that kept its flag -----

  lemma EndsOfCycle(env: Env, p: seq<Id>)
    requires IsCycle(env, p)
    ensures Contains(env, p[0], p[1]) && Contains(env, p[|p| - 2], p[0])
  {
    var k := |p| - 2;
    assert Contains(env, p[k], p[k + 1]);
  }

  /** A copy taken while object 0 was provisional keeps its incomplete flag (a generic alias hands
      the same cached copy out again later). Type 1 stores that copy by value, and object 0 stores
      type 1: the walk from type 1 stops at the copy and the by-value cycle goes unnoticed. */
  lemma StaleCopyHidesCycle()
    ensures var env := map[0 := [Opaque, Nominal(1, false)]];
      var members := [Opaque, Nominal(0, true)];
      Acyclic(env) && !SomeInvalid(env, members, 1, {}) && IsCycle(env[1 := members], [1, 0, 1])
  {
    var env: Env := map[0 := [Opaque, Nominal(1, false)]];
    var members := [Opaque, Nominal(0, true)];
    assert members[1..] == [Nominal(0, true)] && env[0][1..] == [Nominal(1, false)];
    forall p ensures !IsCycle(env, p) {
      if IsCycle(env, p) {
        EndsOfCycle(env, p);
      }
    }
    var p := [1, 0, 1];
    assert Contains(env[1 := members], 1, 0) && Contains(env[1 := members], 0, 1);
    assert !Invalid(env, Nominal(0, true), 1, {});
  }
}
