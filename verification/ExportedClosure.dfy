/** The exported-interface closure: which exported declarations expose a private nominal type. */
module ExportedClosure {
  import opened Finite

  /** A nominal type: an object or an ADT, by identity. */
  datatype Nominal = Object(id: nat) | Adt(id: nat)

  /** The type constructors with a single component. */
  datatype Holder = Pointer | Nullable | InlineList | Slice | List | Task | Channel | Atomic | Stash | Pool

  /** A resolved type. `Leaf` is a scalar, text, Nil, Unknown or a type parameter; `HttpGeneric` a
      Router or Server over its application type. A function's result is absent or one type. */
  datatype Shape =
    | Leaf
    | Named(nominal: Nominal)
    | Holds(holder: Holder, element: Shape)
    | Function(parameters: seq<Shape>, result: seq<Shape>)
    | Union(members: seq<Shape>)
    | Dict(key: Shape, value: Shape)
    | HttpGeneric(app: Shape)

  /** The members of every nominal - an object's, or all payload fields of an ADT - and the
      nominals an importer may see: builtins and exported types. */
  datatype World = World(members: map<Nominal, seq<Shape>>, exported: set<Nominal>)

  function Members(w: World, n: Nominal): seq<Shape> {
    if n in w.members then w.members[n] else []
  }

  // ----- what a type reaches -----

  /** x is written inside the shape; `deep` also looks inside http handles. */
  predicate Occurs(shape: Shape, x: Shape, deep: bool) {
    shape == x ||
    match shape
    case Holds(_, element) => Occurs(element, x, deep)
    case Function(parameters, result) => SomeOccurs(parameters, x, deep) || SomeOccurs(result, x, deep)
    case Union(members) => SomeOccurs(members, x, deep)
    case Dict(key, value) => Occurs(key, x, deep) || Occurs(value, x, deep)
    case HttpGeneric(app) => deep && Occurs(app, x, deep)
    case _ => false
  }

  predicate SomeOccurs(shapes: seq<Shape>, x: Shape, deep: bool) {
    shapes != [] && (Occurs(shapes[0], x, deep) || SomeOccurs(shapes[1..], x, deep))
  }

  /** Nominals each written in the members of the one before. */
  predicate Trail(w: World, shapes: seq<Shape>, t: seq<Nominal>, deep: bool)
    decreases |t|
  {
    |t| > 0 && SomeOccurs(shapes, Named(t[0]), deep) && (|t| > 1 ==> Trail(w, Members(w, t[0]), t[1..], deep))
  }

  ghost predicate Reaches(w: World, shapes: seq<Shape>, n: Nominal, deep: bool) {
    exists t :: Trail(w, shapes, t, deep) && t[|t| - 1] == n
  }

  /** Some private nominal is reachable. */
  ghost predicate Leaks(w: World, shapes: seq<Shape>, deep: bool) {
    exists n :: n !in w.exported && Reaches(w, shapes, n, deep)
  }

  lemma ReachesFrom(w: World, shapes: seq<Shape>, via: Nominal, n: Nominal, deep: bool)
    requires SomeOccurs(shapes, Named(via), deep)
    ensures via == n ==> Reaches(w, shapes, n, deep)
    ensures Reaches(w, Members(w, via), n, deep) ==> Reaches(w, shapes, n, deep)
  {
    assert Trail(w, shapes, [via], deep);
    if Reaches(w, Members(w, via), n, deep) {
      var t :| Trail(w, Members(w, via), t, deep) && t[|t| - 1] == n;
      assert ([via] + t)[1..] == t;
      assert Trail(w, shapes, [via] + t, deep);
    }
  }

  /** The second list writes down every nominal the first one does. */
  ghost predicate Includes(whole: seq<Shape>, part: seq<Shape>, deep: bool) {
    forall n | SomeOccurs(part, Named(n), deep) :: SomeOccurs(whole, Named(n), deep)
  }

  lemma ReachesMore(w: World, part: seq<Shape>, whole: seq<Shape>, n: Nominal, deep: bool)
    requires Includes(whole, part, deep) && Reaches(w, part, n, deep)
    ensures Reaches(w, whole, n, deep)
  {
    var t :| Trail(w, part, t, deep) && t[|t| - 1] == n;
    assert SomeOccurs(whole, Named(t[0]), deep);
    assert Trail(w, whole, t, deep);
  }

  lemma {:induction false} OccursWhere(shapes: seq<Shape>, x: Shape, deep: bool) returns (i: nat)
    requires SomeOccurs(shapes, x, deep)
    ensures i < |shapes| && Occurs(shapes[i], x, deep)
  {
    if Occurs(shapes[0], x, deep) {
      i := 0;
    } else {
      i := OccursWhere(shapes[1..], x, deep);
      i := i + 1;
    }
  }

  // ----- the walk -----

  /** The nominals one declaration's walk has met, objects and ADTs apart. */
  class Seen {
    var objects: set<Nominal>
    var adts: set<Nominal>

    constructor ()
      ensures All() == {}
    {
      objects, adts := {}, {};
    }

    function All(): set<Nominal>
      reads this
    {
      objects + adts
    }

    predicate Has(n: Nominal)
      reads this
    {
      if n.Object? then n in objects else n in adts
    }

    ghost predicate Valid()
      reads this
    {
      (forall n | n in objects :: n.Object?) && (forall n | n in adts :: n.Adt?)
    }

    method Add(n: Nominal)
      requires Valid()
      modifies this
      ensures Valid() && All() == old(All()) + {n}
    {
      if n.Object? {
        objects := objects + {n};
      } else {
        adts := adts + {n};
      }
    }
  }

  /** All that an exported nominal's members write down has been met. */
  ghost predicate Settled(w: World, n: Nominal, seen: set<Nominal>) {
    n in w.exported && Met(Members(w, n), seen)
  }

  ghost predicate Met(shapes: seq<Shape>, seen: set<Nominal>) {
    forall n | SomeOccurs(shapes, Named(n), false) :: n in seen
  }

  /** A finished walk over the shapes: either it names a private type they reach, or it met all
      they write down and settled whatever was new. */
  ghost predicate Walked(w: World, shapes: seq<Shape>, before: set<Nominal>, after: set<Nominal>,
                         private: Option<Nominal>)
  {
    before <= after &&
    match private
    case Some(p) => p !in w.exported && Reaches(w, shapes, p, false)
    case None => Met(shapes, after) && forall n | n in after - before :: Settled(w, n, after)
  }

  /** A private type found in a part is found in the whole. */
  lemma WalkedPart(w: World, part: seq<Shape>, whole: seq<Shape>, a: set<Nominal>, b: set<Nominal>, private: Option<Nominal>)
    requires private.Some? && Includes(whole, part, false) && Walked(w, part, a, b, private)
    ensures Walked(w, whole, a, b, private)
  {
    ReachesMore(w, part, whole, private.value, false);
  }

  /** A finished walk over one part, continued over the other. */
  lemma WalkedThen(w: World, first: seq<Shape>, second: seq<Shape>, whole: seq<Shape>,
                   a: set<Nominal>, b: set<Nominal>, c: set<Nominal>, private: Option<Nominal>)
    requires Walked(w, first, a, b, None) && Walked(w, second, b, c, private)
    requires Includes(whole, second, false)
    requires forall n | SomeOccurs(whole, Named(n), false) ::
      SomeOccurs(first, Named(n), false) || SomeOccurs(second, Named(n), false)
    ensures Walked(w, whole, a, c, private)
  {
    if private.Some? {
      ReachesMore(w, second, whole, private.value, false);
    } else {
      forall n | n in c - a ensures Settled(w, n, c) {
        assert n in c - b || Settled(w, n, b);
      }
    }
  }

  /** The first private nominal met, depth first; none when the walk met only exported ones. */
  method PrivateTypeInUse(w: World, shape: Shape, seen: Seen) returns (private: Option<Nominal>)
    requires seen.Valid()
    modifies seen
    ensures seen.Valid()
    ensures Walked(w, [shape], old(seen.All()), seen.All(), private)
    decreases w.members.Keys - seen.All(), shape, 1
  {
    ghost var a := seen.All();
    match shape
    case Named(n) =>
      private := NominalInUse(w, n, seen);
    case Holds(_, element) =>
      private := PrivateTypeInUse(w, element, seen);
      if private.Some? {
        WalkedPart(w, [element], [shape], a, seen.All(), private);
      }
    case Function(parameters, result) =>
      private := AnyPrivate(w, parameters, seen);
      if private.Some? {
        WalkedPart(w, parameters, [shape], a, seen.All(), private);
        return;
      }
      ghost var b := seen.All();
      private := AnyPrivate(w, result, seen);
      WalkedThen(w, parameters, result, [shape], a, b, seen.All(), private);
    case Union(members) =>
      private := AnyPrivate(w, members, seen);
      if private.Some? {
        WalkedPart(w, members, [shape], a, seen.All(), private);
      }
    case Dict(key, value) =>
      private := PrivateTypeInUse(w, key, seen);
      if private.Some? {
        WalkedPart(w, [key], [shape], a, seen.All(), private);
        return;
      }
      ghost var b := seen.All();
      private := PrivateTypeInUse(w, value, seen);
      WalkedThen(w, [key], [value], [shape], a, b, seen.All(), private);
    case Leaf => return None;
    case HttpGeneric(_) => return None;
  }

  method NominalInUse(w: World, n: Nominal, seen: Seen) returns (private: Option<Nominal>)
    requires seen.Valid()
    modifies seen
    ensures seen.Valid()
    ensures Walked(w, [Named(n)], old(seen.All()), seen.All(), private)
    decreases w.members.Keys - seen.All(), Named(n), 0
  {
    if seen.Has(n) {
      return None;
    }
    ghost var before := seen.All();
    seen.Add(n);
    if n !in w.exported {
      ReachesFrom(w, [Named(n)], n, n, false);
      return Some(n);
    }
    ghost var entered := seen.All();
    if n in w.members {
      private := AnyPrivate(w, w.members[n], seen);
    } else {
      private := None;
    }
    if private.Some? {
      ReachesFrom(w, [Named(n)], n, private.value, false);
    } else {
      NominalSettled(w, n, before, entered, seen.All());
    }
  }

  lemma NominalSettled(w: World, n: Nominal, before: set<Nominal>, entered: set<Nominal>, after: set<Nominal>)
    requires n in w.exported && entered == before + {n} && Walked(w, Members(w, n), entered, after, None)
    ensures Walked(w, [Named(n)], before, after, None)
  {
    forall m | m in after - before ensures Settled(w, m, after) {
      assert m in after - entered || m == n;
    }
  }

  method AnyPrivate(w: World, shapes: seq<Shape>, seen: Seen) returns (private: Option<Nominal>)
    requires seen.Valid()
    modifies seen
    ensures seen.Valid()
    ensures Walked(w, shapes, old(seen.All()), seen.All(), private)
    decreases w.members.Keys - seen.All(), shapes, 0
  {
    ghost var a := seen.All();
    for i := 0 to |shapes|
      invariant seen.Valid()
      invariant Walked(w, shapes[..i], a, seen.All(), None)
    {
      ghost var b := seen.All();
      private := PrivateTypeInUse(w, shapes[i], seen);
      TakeOneMore(shapes, i);
      WalkedThen(w, shapes[..i], [shapes[i]], shapes[..i + 1], a, b, seen.All(), private);
      if private.Some? {
        WalkedPart(w, shapes[..i + 1], shapes, a, seen.All(), private);
        return;
      }
    }
    assert shapes[..|shapes|] == shapes;
    return None;
  }

  lemma {:induction false} OccursInBoth(a: seq<Shape>, b: seq<Shape>, x: Shape, deep: bool)
    ensures SomeOccurs(a + b, x, deep) == (SomeOccurs(a, x, deep) || SomeOccurs(b, x, deep))
  {
    if a == [] {
      assert a + b == b;
    } else {
      assert (a + b)[1..] == a[1..] + b;
      OccursInBoth(a[1..], b, x, deep);
    }
  }

  lemma TakeOneMore(shapes: seq<Shape>, i: nat)
    requires i < |shapes|
    ensures forall n :: SomeOccurs(shapes[..i + 1], Named(n), false) <==>
      SomeOccurs(shapes[..i], Named(n), false) || SomeOccurs([shapes[i]], Named(n), false)
    ensures Includes(shapes, shapes[..i + 1], false)
  {
    forall n ensures SomeOccurs(shapes[..i + 1], Named(n), false) <==>
      SomeOccurs(shapes[..i], Named(n), false) || SomeOccurs([shapes[i]], Named(n), false)
    {
      assert shapes[..i + 1] == shapes[..i] + [shapes[i]];
      OccursInBoth(shapes[..i], [shapes[i]], Named(n), false);
    }
    forall n | SomeOccurs(shapes[..i + 1], Named(n), false) ensures SomeOccurs(shapes, Named(n), false) {
      assert shapes == shapes[..i + 1] + shapes[i + 1..];
      OccursInBoth(shapes[..i + 1], shapes[i + 1..], Named(n), false);
    }
  }

  // ----- what the walk decides -----

  /** A finished walk from nothing decides reachability. */
  lemma WalkDecides(w: World, shapes: seq<Shape>, after: set<Nominal>, private: Option<Nominal>)
    requires Walked(w, shapes, {}, after, private)
    ensures private.Some? <==> Leaks(w, shapes, false)
    ensures private.Some? ==> private.value !in w.exported && Reaches(w, shapes, private.value, false)
  {
    if private.None? && Leaks(w, shapes, false) {
      var n :| n !in w.exported && Reaches(w, shapes, n, false);
      var t :| Trail(w, shapes, t, false) && t[|t| - 1] == n;
      TrailStaysMet(w, shapes, after, t);
      assert false;
    }
  }

  lemma {:induction false} TrailStaysMet(w: World, shapes: seq<Shape>, seen: set<Nominal>, t: seq<Nominal>)
    requires Met(shapes, seen) && forall n | n in seen :: Settled(w, n, seen)
    requires Trail(w, shapes, t, false)
    ensures t[|t| - 1] in w.exported
    decreases |t|
  {
    assert t[0] in seen && Settled(w, t[0], seen);
    if |t| > 1 {
      TrailStaysMet(w, Members(w, t[0]), seen, t[1..]);
    }
  }

  /** One method's interface: receiver, then parameters, then result, all sharing the visited
      sets, and stopping at the first private type. Sharing loses nothing. */
  method MethodExposes(w: World, self: Shape, parameters: seq<Shape>, result: seq<Shape>) returns (private: Option<Nominal>)
    ensures private.Some? <==> Leaks(w, [self] + parameters + result, false)
    ensures private.Some? ==>
      private.value !in w.exported && Reaches(w, [self] + parameters + result, private.value, false)
  {
    var seen := new Seen();
    ghost var whole := [self] + parameters + result;
    private := PrivateTypeInUse(w, self, seen);
    ghost var one := seen.All();
    ghost var both := one;
    JoinsInterface([self], parameters, result);
    if private.None? {
      private := AnyPrivate(w, parameters, seen);
      WalkedThen(w, [self], parameters, [self] + parameters, {}, one, seen.All(), private);
      both := seen.All();
    } else {
      WalkedPart(w, [self], [self] + parameters, {}, one, private);
    }
    if private.None? {
      private := AnyPrivate(w, result, seen);
      WalkedThen(w, [self] + parameters, result, whole, {}, both, seen.All(), private);
    } else {
      WalkedPart(w, [self] + parameters, whole, {}, both, private);
    }
    WalkDecides(w, whole, seen.All(), private);
  }

  lemma JoinsInterface(a: seq<Shape>, b: seq<Shape>, c: seq<Shape>)
    ensures forall n :: SomeOccurs(a + b, Named(n), false) <==> SomeOccurs(a, Named(n), false) || SomeOccurs(b, Named(n), false)
    ensures forall n :: SomeOccurs(a + b + c, Named(n), false) <==> SomeOccurs(a + b, Named(n), false) || SomeOccurs(c, Named(n), false)
  {
    forall n ensures SomeOccurs(a + b, Named(n), false) <==> SomeOccurs(a, Named(n), false) || SomeOccurs(b, Named(n), false) {
      OccursInBoth(a, b, Named(n), false);
    }
    forall n ensures SomeOccurs(a + b + c, Named(n), false) <==> SomeOccurs(a + b, Named(n), false) || SomeOccurs(c, Named(n), false) {
      OccursInBoth(a + b, c, Named(n), false);
    }
  }

  /** A module's declaration: a type alias or function through its one type, or a method. */
  datatype Declaration =
    | Plain(exported: bool, typ: Shape)
    | Method(exported: bool, self: Shape, parameters: seq<Shape>, result: seq<Shape>)

  function Interface(d: Declaration): seq<Shape> {
    match d
    case Plain(_, typ) => [typ]
    case Method(_, self, parameters, result) => [self] + parameters + result
  }

  ghost predicate Exposed(w: World, d: Declaration) {
    d.exported && Leaks(w, Interface(d), false)
  }

  ghost predicate Proper(w: World, declarations: seq<Declaration>, report: (nat, Nominal)) {
    report.0 < |declarations| && declarations[report.0].exported && report.1 !in w.exported &&
    Reaches(w, Interface(declarations[report.0]), report.1, false)
  }

  predicate Reported(reports: seq<(nat, Nominal)>, i: nat) {
    exists k :: 0 <= k < |reports| && reports[k].0 == i
  }

  /** One report per exposed declaration so far, in order, each naming a private type of the
      declaration's interface. */
  ghost predicate ReportsUpTo(w: World, declarations: seq<Declaration>, reports: seq<(nat, Nominal)>, i: nat)
    requires i <= |declarations|
  {
    (forall k | 0 <= k < |reports| :: Proper(w, declarations, reports[k])) &&
    InOrder(reports, i) &&
    (forall d | 0 <= d < i :: Exposed(w, declarations[d]) <==> Reported(reports, d))
  }

  predicate InOrder(reports: seq<(nat, Nominal)>, i: nat) {
    (forall k | 0 <= k < |reports| :: reports[k].0 < i) &&
    (forall j, k | 0 <= j < k < |reports| :: reports[j].0 < reports[k].0)
  }

  lemma ReportedOnce(reports: seq<(nat, Nominal)>, i: nat, p: Nominal)
    requires InOrder(reports, i)
    ensures InOrder(reports + [(i, p)], i + 1) && InOrder(reports, i + 1) && !Reported(reports, i)
    ensures forall d: nat :: Reported(reports + [(i, p)], d) <==> Reported(reports, d) || d == i
  {
    var grown := reports + [(i, p)];
    assert grown[|reports|].0 == i;
    forall d: nat ensures Reported(grown, d) <==> Reported(reports, d) || d == i {
      if k :| 0 <= k < |reports| && reports[k].0 == d {
        assert grown[k].0 == d;
      }
    }
  }

  /** Every exported declaration whose interface leaks is reported once, in order, with a private
      type of its interface; no other is. */
  method CheckExportedClosure(w: World, declarations: seq<Declaration>) returns (reports: seq<(nat, Nominal)>)
    ensures ReportsUpTo(w, declarations, reports, |declarations|)
  {
    reports := [];
    for i := 0 to |declarations|
      invariant ReportsUpTo(w, declarations, reports, i)
    {
      reports := CheckOne(w, declarations, reports, i);
    }
  }

  method CheckOne(w: World, declarations: seq<Declaration>, reports: seq<(nat, Nominal)>, i: nat)
    returns (grown: seq<(nat, Nominal)>)
    requires i < |declarations|
    requires forall k | 0 <= k < |reports| :: Proper(w, declarations, reports[k])
    requires InOrder(reports, i)
    requires forall d | 0 <= d < i :: Exposed(w, declarations[d]) <==> Reported(reports, d)
    ensures ReportsUpTo(w, declarations, grown, i + 1)
  {
    ReportedOnce(reports, i, Object(0));
    if !declarations[i].exported {
      assert !Exposed(w, declarations[i]);
      return reports;
    }
    var private := Exposes(w, declarations[i]);
    if private.None? {
      return reports;
    }
    ReportedOnce(reports, i, private.value);
    assert Proper(w, declarations, (i, private.value));
    grown := reports + [(i, private.value)];
  }

  method Exposes(w: World, d: Declaration) returns (private: Option<Nominal>)
    requires d.exported
    ensures private.Some? <==> Exposed(w, d)
    ensures private.Some? ==> private.value !in w.exported && Reaches(w, Interface(d), private.value, false)
  {
    match d
    case Plain(_, typ) =>
      var seen := new Seen();
      private := PrivateTypeInUse(w, typ, seen);
      WalkDecides(w, [typ], seen.All(), private);
    case Method(_, self, parameters, result) =>
      private := MethodExposes(w, self, parameters, result);
  }

  // ----- http handles -----

  /** A Router or Server over this application type stands where the walk arrives. */
  ghost predicate MeetsHandle(w: World, shapes: seq<Shape>, app: Shape) {
    SomeOccurs(shapes, HttpGeneric(app), false) ||
    exists n :: Reaches(w, shapes, n, false) && SomeOccurs(Members(w, n), HttpGeneric(app), false)
  }

  lemma {:induction false} DeepOccurs(shape: Shape, x: Shape) returns (app: Shape)
    requires Occurs(shape, x, true) && !Occurs(shape, x, false)
    ensures Occurs(shape, HttpGeneric(app), false) && Occurs(app, x, true)
    decreases shape, 0
  {
    match shape
    case Holds(_, element) => app := DeepOccurs(element, x);
    case Function(parameters, result) =>
      if SomeOccurs(parameters, x, true) {
        app := SomeDeepOccurs(parameters, x);
      } else {
        app := SomeDeepOccurs(result, x);
      }
    case Union(members) => app := SomeDeepOccurs(members, x);
    case Dict(key, value) =>
      if Occurs(key, x, true) {
        app := DeepOccurs(key, x);
      } else {
        app := DeepOccurs(value, x);
      }
    case HttpGeneric(inner) => app := inner;
  }

  lemma {:induction false} SomeDeepOccurs(shapes: seq<Shape>, x: Shape) returns (app: Shape)
    requires SomeOccurs(shapes, x, true) && !SomeOccurs(shapes, x, false)
    ensures SomeOccurs(shapes, HttpGeneric(app), false) && Occurs(app, x, true)
    decreases shapes
  {
    if Occurs(shapes[0], x, true) {
      app := DeepOccurs(shapes[0], x);
    } else {
      app := SomeDeepOccurs(shapes[1..], x);
    }
  }

  lemma {:induction false} ShallowIsDeep(shape: Shape, x: Shape)
    requires Occurs(shape, x, false)
    ensures Occurs(shape, x, true)
    decreases shape, 0
  {
    if shape != x {
      match shape
      case Holds(_, element) => ShallowIsDeep(element, x);
      case Function(parameters, result) =>
        if SomeOccurs(parameters, x, false) {
          SomeShallowIsDeep(parameters, x);
        } else {
          SomeShallowIsDeep(result, x);
        }
      case Union(members) => SomeShallowIsDeep(members, x);
      case Dict(key, value) =>
        if Occurs(key, x, false) {
          ShallowIsDeep(key, x);
        } else {
          ShallowIsDeep(value, x);
        }
    }
  }

  lemma {:induction false} SomeShallowIsDeep(shapes: seq<Shape>, x: Shape)
    requires SomeOccurs(shapes, x, false)
    ensures SomeOccurs(shapes, x, true)
    decreases shapes
  {
    if Occurs(shapes[0], x, false) {
      ShallowIsDeep(shapes[0], x);
    } else {
      SomeShallowIsDeep(shapes[1..], x);
    }
  }

  lemma {:induction false} ShallowReaches(w: World, shapes: seq<Shape>, t: seq<Nominal>)
    requires Trail(w, shapes, t, false)
    ensures Trail(w, shapes, t, true)
    decreases |t|
  {
    SomeShallowIsDeep(shapes, Named(t[0]));
    if |t| > 1 { ShallowReaches(w, Members(w, t[0]), t[1..]); }
  }

  /** What lies inside a handle's application type lies inside whatever writes the handle down. */
  lemma {:induction false} InsideHandle(shape: Shape, app: Shape, x: Shape)
    requires Occurs(shape, HttpGeneric(app), true) && Occurs(app, x, true)
    ensures Occurs(shape, x, true)
    decreases shape, 0
  {
    if shape != HttpGeneric(app) {
      match shape
      case Holds(_, element) => InsideHandle(element, app, x);
      case Function(parameters, result) =>
        if SomeOccurs(parameters, HttpGeneric(app), true) {
          SomeInsideHandle(parameters, app, x);
        } else {
          SomeInsideHandle(result, app, x);
        }
      case Union(members) => SomeInsideHandle(members, app, x);
      case Dict(key, value) =>
        if Occurs(key, HttpGeneric(app), true) {
          InsideHandle(key, app, x);
        } else {
          InsideHandle(value, app, x);
        }
      case HttpGeneric(inner) => InsideHandle(inner, app, x);
    }
  }

  lemma {:induction false} SomeInsideHandle(shapes: seq<Shape>, app: Shape, x: Shape)
    requires SomeOccurs(shapes, HttpGeneric(app), true) && Occurs(app, x, true)
    ensures SomeOccurs(shapes, x, true)
    decreases shapes
  {
    if Occurs(shapes[0], HttpGeneric(app), true) {
      InsideHandle(shapes[0], app, x);
    } else {
      SomeInsideHandle(shapes[1..], app, x);
    }
  }

  lemma {:induction false} ReachesOn(w: World, shapes: seq<Shape>, t: seq<Nominal>, n: Nominal, deep: bool)
    requires Trail(w, shapes, t, deep) && Reaches(w, Members(w, t[|t| - 1]), n, deep)
    ensures Reaches(w, shapes, n, deep)
    decreases |t|
  {
    if |t| > 1 {
      ReachesOn(w, Members(w, t[0]), t[1..], n, deep);
    }
    ReachesFrom(w, shapes, t[0], n, deep);
  }

  /** A trail that enters a handle enters one where the walk arrives. */
  lemma {:induction false} DeepTrail(w: World, shapes: seq<Shape>, t: seq<Nominal>) returns (app: Shape)
    requires Trail(w, shapes, t, true) && !Reaches(w, shapes, t[|t| - 1], false)
    ensures MeetsHandle(w, shapes, app) && Reaches(w, [app], t[|t| - 1], true)
    decreases |t|
  {
    if !SomeOccurs(shapes, Named(t[0]), false) {
      app := SomeDeepOccurs(shapes, Named(t[0]));
      assert Trail(w, [app], t, true);
    } else {
      ReachesFrom(w, shapes, t[0], t[|t| - 1], false);
      app := DeepTrail(w, Members(w, t[0]), t[1..]);
      ReachesFrom(w, shapes, t[0], t[0], false);
      if !SomeOccurs(Members(w, t[0]), HttpGeneric(app), false) {
        var n :| Reaches(w, Members(w, t[0]), n, false) && SomeOccurs(Members(w, n), HttpGeneric(app), false);
        ReachesFrom(w, shapes, t[0], n, false);
      }
    }
  }

  lemma HandleLeaks(w: World, shapes: seq<Shape>, app: Shape, n: Nominal)
    requires MeetsHandle(w, shapes, app) && Reaches(w, [app], n, true)
    ensures Reaches(w, shapes, n, true)
  {
    var t :| Trail(w, [app], t, true) && t[|t| - 1] == n;
    var at := OccursWhere([app], Named(t[0]), true);
    assert [app][at] == app;
    if SomeOccurs(shapes, HttpGeneric(app), false) {
      SomeShallowIsDeep(shapes, HttpGeneric(app));
      SomeInsideHandle(shapes, app, Named(t[0]));
      assert Trail(w, shapes, t, true);
    } else {
      var m :| Reaches(w, shapes, m, false) && SomeOccurs(Members(w, m), HttpGeneric(app), false);
      SomeShallowIsDeep(Members(w, m), HttpGeneric(app));
      SomeInsideHandle(Members(w, m), app, Named(t[0]));
      assert Trail(w, Members(w, m), t, true);
      var s :| Trail(w, shapes, s, false) && s[|s| - 1] == m;
      ShallowReaches(w, shapes, s);
      ReachesOn(w, shapes, s, n, true);
    }
  }

  /** What the walk misses, exactly: an interface exposes a private type if and only if the walk
      finds one, or arrives at an http handle whose application type exposes one. */
  lemma ExposureExactly(w: World, shapes: seq<Shape>)
    ensures Leaks(w, shapes, true) <==>
      Leaks(w, shapes, false) || exists app :: MeetsHandle(w, shapes, app) && Leaks(w, [app], true)
  {
    if Leaks(w, shapes, true) {
      var n :| n !in w.exported && Reaches(w, shapes, n, true);
      if !Reaches(w, shapes, n, false) {
        var t :| Trail(w, shapes, t, true) && t[|t| - 1] == n;
        var app := DeepTrail(w, shapes, t);
        assert Leaks(w, [app], true);
      }
    }
    if Leaks(w, shapes, false) {
      var n :| n !in w.exported && Reaches(w, shapes, n, false);
      var t :| Trail(w, shapes, t, false) && t[|t| - 1] == n;
      ShallowReaches(w, shapes, t);
      assert Reaches(w, shapes, n, true);
    }
    if app :| MeetsHandle(w, shapes, app) && Leaks(w, [app], true) {
      var n :| n !in w.exported && Reaches(w, [app], n, true);
      HandleLeaks(w, shapes, app, n);
    }
  }

  lemma NothingShallow(app: Shape, n: Nominal)
    ensures !SomeOccurs([Function([HttpGeneric(app)], [])], Named(n), false)
  {
    var f := Function([HttpGeneric(app)], []);
    assert [HttpGeneric(app)][1..] == [] && !Occurs(HttpGeneric(app), Named(n), false);
    assert !SomeOccurs([HttpGeneric(app)], Named(n), false);
    assert !Occurs(f, Named(n), false) && [f][1..] == [];
  }

  /** An exported function over Router<App> with a private App passes the walk. */
  lemma RouterHidesItsApp()
    ensures var w := World(map[], {}); var app := Named(Object(0));
      var f := Function([HttpGeneric(app)], []);
      !Leaks(w, [f], false) && Leaks(w, [f], true)
  {
    var w, app := World(map[], {}), Named(Object(0));
    var f := Function([HttpGeneric(app)], []);
    ReachesFrom(w, [app], Object(0), Object(0), true);
    assert SomeOccurs([HttpGeneric(app)], HttpGeneric(app), false) && Occurs(f, HttpGeneric(app), false);
    assert MeetsHandle(w, [f], app);
    ExposureExactly(w, [f]);
    if Leaks(w, [f], false) {
      var n :| n !in w.exported && Reaches(w, [f], n, false);
      var t :| Trail(w, [f], t, false) && t[|t| - 1] == n;
      NothingShallow(app, t[0]);
      assert false;
    }
  }
}
