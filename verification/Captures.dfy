/** Environment dependence: which entry-module functions and methods reach a root binding, closed
    over the call graph by two changed-flag loops. */
module Captures {

  type Name = string

  /** A set of names per declaration name; a missing entry reads as empty. */
  type Table = map<Name, set<Name>>

  function At(table: Table, name: Name): set<Name> {
    if name in table then table[name] else {}
  }

  /** A top-level item: a root binding, or a function or method with the names its body uses
      without binding them and the names it calls directly. */
  datatype Item = Root(name: Name) | Declared(name: Name, free: set<Name>, calls: set<Name>)

  // ----- the call graph -----

  predicate Chain(callees: Table, p: seq<Name>) {
    |p| > 0 && (|p| > 1 ==> p[1] in At(callees, p[0]) && Chain(callees, p[1..]))
  }

  ghost predicate Reaches(callees: Table, from: Name, to: Name) {
    exists p :: Chain(callees, p) && p[0] == from && p[|p| - 1] == to
  }

  /** A call chain from the declaration ends at one of the targets. */
  ghost predicate LeadsTo(callees: Table, from: Name, targets: set<Name>) {
    exists to :: to in targets && Reaches(callees, from, to)
  }

  /** A call chain from the declaration ends at one that captures c directly. */
  ghost predicate Inherits(callees: Table, direct: Table, from: Name, c: Name) {
    exists to :: c in At(direct, to) && Reaches(callees, from, to)
  }

  lemma ReachesItself(callees: Table, name: Name)
    ensures Reaches(callees, name, name)
  {
    assert Chain(callees, [name]);
  }

  lemma ReachesThrough(callees: Table, from: Name, via: Name, to: Name)
    requires via in At(callees, from) && Reaches(callees, via, to)
    ensures Reaches(callees, from, to)
  {
    var p :| Chain(callees, p) && p[0] == via && p[|p| - 1] == to;
    assert ([from] + p)[1..] == p;
    assert Chain(callees, [from] + p);
  }

  /** A set that a declaration joins as soon as one of its callees is in it. */
  predicate ClosedAt(callees: Table, marked: set<Name>, name: Name)
    requires name in callees
  {
    callees[name] * marked != {} ==> name in marked
  }

  lemma {:induction false} ClosedHoldsChains(callees: Table, marked: set<Name>, p: seq<Name>)
    requires forall name | name in callees :: ClosedAt(callees, marked, name)
    requires Chain(callees, p) && p[|p| - 1] in marked
    ensures p[0] in marked
  {
    if |p| > 1 {
      ClosedHoldsChains(callees, marked, p[1..]);
      assert p[1] in callees[p[0]] * marked;
    }
  }

  lemma ClosedHoldsLeading(callees: Table, marked: set<Name>, seeds: set<Name>)
    requires seeds <= marked && forall f | f in callees :: ClosedAt(callees, marked, f)
    ensures forall f | LeadsTo(callees, f, seeds) :: f in marked
  {
    forall f | LeadsTo(callees, f, seeds) ensures f in marked {
      var to :| to in seeds && Reaches(callees, f, to);
      var p :| Chain(callees, p) && p[0] == f && p[|p| - 1] == to;
      ClosedHoldsChains(callees, marked, p);
    }
  }

  /** Captures that a declaration shares as soon as a callee has them. */
  predicate FlowsAt(callees: Table, captures: Table, name: Name)
    requires name in callees
  {
    forall callee | callee in callees[name] :: At(captures, callee) <= At(captures, name)
  }

  lemma {:induction false} FlowsAlongChains(callees: Table, captures: Table, p: seq<Name>)
    requires forall name | name in callees :: FlowsAt(callees, captures, name)
    requires Chain(callees, p)
    ensures At(captures, p[|p| - 1]) <= At(captures, p[0])
  {
    if |p| > 1 {
      FlowsAlongChains(callees, captures, p[1..]);
      assert FlowsAt(callees, captures, p[0]);
    }
  }

  // ----- recording -----

  /** What the walk over the top level leaves behind for the two loops. */
  datatype Record = Record(visible: set<Name>, captures: Table, callees: Table, dependent: set<Name>)

  /** A later declaration of a name replaces its captures and callees; a mark of dependence
      stays. */
  function Note(r: Record, item: Item): Record {
    match item
    case Root(name) => r.(visible := r.visible + {name})
    case Declared(name, free, calls) =>
      var direct := free * r.visible;
      r.(captures := r.captures[name := direct],
         callees := r.callees[name := calls],
         dependent := if direct == {} then r.dependent else r.dependent + {name})
  }

  function Recorded(items: seq<Item>): Record {
    if items == [] then Record({}, map[], map[], {})
    else Note(Recorded(items[..|items| - 1]), items[|items| - 1])
  }

  /** A checked function, method or specialization, as the second pass reads it. */
  datatype Checked = Checked(name: Name, dependent: bool, captures: set<Name>, calls: set<Name>)

  /** Here a later declaration of a name replaces the mark as well. */
  function Reread(done: seq<Checked>): Record {
    if done == [] then Record({}, map[], map[], {})
    else
      var r, last := Reread(done[..|done| - 1]), done[|done| - 1];
      Record({}, r.captures[last.name := last.captures], r.callees[last.name := last.calls],
             if last.dependent then r.dependent + {last.name} else r.dependent - {last.name})
  }

  // ----- what is recorded -----

  /** A root binding of that name comes before position i. */
  predicate RootBefore(items: seq<Item>, i: nat, x: Name)
    requires i <= |items|
  {
    exists j | 0 <= j < i :: items[j] == Root(x)
  }

  /** Declaration i uses the name, and it is a root binding declared before it. */
  predicate UsesRoot(items: seq<Item>, i: nat, x: Name)
    requires i < |items|
  {
    items[i].Declared? && x in items[i].free && RootBefore(items, i, x)
  }

  /** Declaration i is the last of its name. */
  predicate LastOf(items: seq<Item>, i: nat)
    requires i < |items|
  {
    items[i].Declared? && forall j | i < j < |items| && items[j].Declared? :: items[j].name != items[i].name
  }

  /** The last declaration of a name gives its callees, and as its captures the root bindings before it
      that it uses; every declaration that uses one leaves its name marked. */
  lemma {:induction false} RecordedExactly(items: seq<Item>)
    ensures var r := Recorded(items);
      && (forall x :: x in r.visible <==> RootBefore(items, |items|, x))
      && (forall i | 0 <= i < |items| && LastOf(items, i) :: At(r.callees, items[i].name) == items[i].calls)
      && (forall i, x | 0 <= i < |items| && LastOf(items, i) ::
            x in At(r.captures, items[i].name) <==> UsesRoot(items, i, x))
    ensures var r := Recorded(items);
      forall f | f in r.callees || f in r.captures :: exists i | 0 <= i < |items| :: items[i].Declared? && items[i].name == f
  {
    if items != [] {
      var n := |items| - 1;
      var before, last := items[..n], items[n];
      RecordedExactly(before);
      var r, q := Recorded(items), Recorded(before);
      forall x ensures x in r.visible <==> RootBefore(items, |items|, x) {
        RootsSoFar(items, x);
      }
      forall i | 0 <= i < |items| && LastOf(items, i)
        ensures At(r.callees, items[i].name) == items[i].calls
        ensures forall x :: x in At(r.captures, items[i].name) <==> UsesRoot(items, i, x)
      {
        forall x ensures UsesRoot(items, i, x) == (items[i].Declared? && x in items[i].free && RootBefore(items[..i], i, x)) {
          RootsBefore(items, i, x);
        }
        if i < n {
          assert before[i] == items[i] && LastOf(before, i);
          forall x ensures UsesRoot(before, i, x) == UsesRoot(items, i, x) {
            assert before[..i] == items[..i];
            RootsBefore(before, i, x);
          }
          assert last.Declared? ==> last.name != items[i].name;
        } else {
          assert items[..i] == before;
        }
      }
      forall f | f in r.callees || f in r.captures ensures exists i | 0 <= i < |items| :: items[i].Declared? && items[i].name == f {
        if f in q.callees || f in q.captures {
          var i :| 0 <= i < |before| && before[i].Declared? && before[i].name == f;
          assert items[i].Declared? && items[i].name == f;
        } else {
          assert items[n].Declared? && items[n].name == f;
        }
      }
    }
  }

  lemma RootsBefore(items: seq<Item>, i: nat, x: Name)
    requires i <= |items|
    ensures RootBefore(items, i, x) == RootBefore(items[..i], i, x)
  {
    if j :| 0 <= j < i && items[j] == Root(x) { assert items[..i][j] == Root(x); }
    if j :| 0 <= j < i && items[..i][j] == Root(x) { assert items[j] == Root(x); }
  }

  lemma RootsSoFar(items: seq<Item>, x: Name)
    requires items != []
    ensures var n := |items| - 1;
      RootBefore(items, |items|, x) <==> RootBefore(items[..n], n, x) || items[n] == Root(x)
  {
    var n := |items| - 1;
    RootsBefore(items, n, x);
    if j :| 0 <= j < |items| && items[j] == Root(x) { assert j < n ==> RootBefore(items, n, x); }
    if j :| 0 <= j < n && items[j] == Root(x) { assert items[j] == Root(x); }
  }

  /** A name is marked exactly when some declaration of it uses a root binding before it. */
  lemma {:induction false} MarkedExactly(items: seq<Item>, f: Name)
    ensures f in Recorded(items).dependent <==> exists i | 0 <= i < |items| :: Marks(items, i, f)
  {
    if items != [] {
      var n := |items| - 1;
      var before := items[..n];
      MarkedExactly(before, f);
      LastMarks(items, f);
      forall i | 0 <= i < n ensures Marks(before, i, f) == Marks(items, i, f) { MarksBefore(items, i, f); }
      if i :| 0 <= i < n && Marks(before, i, f) { assert Marks(items, i, f); }
      if i :| 0 <= i < |items| && Marks(items, i, f) { assert i < n ==> Marks(before, i, f); }
    }
  }

  /** Declaration i is of the name, and uses some root binding before it. */
  ghost predicate Marks(items: seq<Item>, i: nat, f: Name)
    requires i < |items|
  {
    items[i].Declared? && items[i].name == f && exists x :: UsesRoot(items, i, x)
  }

  lemma LastMarks(items: seq<Item>, f: Name)
    requires items != []
    ensures var n := |items| - 1;
      f in Recorded(items).dependent <==> f in Recorded(items[..n]).dependent || Marks(items, n, f)
  {
    var n := |items| - 1;
    var before, last := items[..n], items[n];
    RecordedExactly(before);
    if last.Declared? {
      var visible := Recorded(before).visible;
      forall x ensures UsesRoot(items, n, x) <==> x in last.free * visible { RootsBefore(items, n, x); }
      if last.free * visible != {} {
        var x :| x in last.free * visible;
        assert UsesRoot(items, n, x);
      }
    }
  }

  lemma MarksBefore(items: seq<Item>, i: nat, f: Name)
    requires i < |items| - 1
    ensures Marks(items[..|items| - 1], i, f) == Marks(items, i, f)
  {
    var before := items[..|items| - 1];
    forall x ensures UsesRoot(before, i, x) == UsesRoot(items, i, x) {
      RootsBefore(items, i, x);
      RootsBefore(before, i, x);
      assert before[..i] == items[..i];
    }
  }

  /** In the second pass the last checked declaration of a name gives its captures, its callees and its
      mark. */
  lemma {:induction false} RereadExactly(done: seq<Checked>, i: nat)
    requires i < |done| && forall j | i < j < |done| :: done[j].name != done[i].name
    ensures var r := Reread(done);
      && At(r.captures, done[i].name) == done[i].captures && At(r.callees, done[i].name) == done[i].calls
      && (done[i].name in r.dependent <==> done[i].dependent)
    decreases |done|
  {
    var n := |done| - 1;
    if i < n {
      assert done[..n][i] == done[i] && done[n].name != done[i].name;
      RereadExactly(done[..n], i);
    }
  }

  class Analysis {
    var captures: Table
    var envDependent: set<Name>

    constructor ()
      ensures captures == map[] && envDependent == {}
    {
      captures, envDependent := map[], {};
    }

    /** The whole analysis: dependence and captures are exactly what the last-recorded call graph
        reaches, in whatever order the maps are ranged over. */
    method Analyze(items: seq<Item>)
      requires captures == map[] && envDependent == {}
      modifies this
      ensures var r := Recorded(items);
        (forall f :: f in envDependent <==> LeadsTo(r.callees, f, r.dependent)) &&
        (forall f, c :: c in At(captures, f) <==> Inherits(r.callees, r.captures, f, c))
    {
      var callees: Table, visible: set<Name> := map[], {};
      for i := 0 to |items|
        invariant Recorded(items[..i]) == Record(visible, captures, callees, envDependent)
      {
        assert items[..i + 1][..i] == items[..i];
        match items[i]
        case Root(name) =>
          visible := visible + {name};
        case Declared(name, free, calls) =>
          callees := Keep(name, free * visible, calls, callees);
      }
      assert items[..|items|] == items;
      CloseDependence(callees);
      CloseCaptures(callees);
    }

    /** The second pass, over the checked program. */
    method ComputeEnvironmentDependence(done: seq<Checked>)
      requires captures == map[] && envDependent == {}
      modifies this
      ensures var r := Reread(done);
        (forall f :: f in envDependent <==> LeadsTo(r.callees, f, r.dependent)) &&
        (forall f, c :: c in At(captures, f) <==> Inherits(r.callees, r.captures, f, c))
    {
      var callees: Table := map[];
      for i := 0 to |done|
        invariant Reread(done[..i]) == Record({}, captures, callees, envDependent)
      {
        assert done[..i + 1][..i] == done[..i];
        var name := done[i].name;
        captures := captures[name := done[i].captures];
        callees := callees[name := done[i].calls];
        envDependent := if done[i].dependent then envDependent + {name} else envDependent - {name};
      }
      assert done[..|done|] == done;
      CloseDependence(callees);
      CloseCaptures(callees);
    }

    method Keep(name: Name, direct: set<Name>, calls: set<Name>, callees: Table) returns (kept: Table)
      modifies this
      ensures kept == callees[name := calls]
      ensures captures == old(captures)[name := direct]
      ensures envDependent == if direct == {} then old(envDependent) else old(envDependent) + {name}
    {
      captures := captures[name := direct];
      kept := callees[name := calls];
      if direct != {} {
        envDependent := envDependent + {name};
      }
    }

    method CloseDependence(callees: Table)
      modifies this
      ensures captures == old(captures)
      ensures forall f :: f in envDependent <==> LeadsTo(callees, f, old(envDependent))
    {
      ghost var seeds := envDependent;
      forall f | f in seeds ensures LeadsTo(callees, f, seeds) {
        ReachesItself(callees, f);
      }
      var changed := true;
      while changed
        invariant captures == old(captures) && seeds <= envDependent
        invariant forall f | f in envDependent :: LeadsTo(callees, f, seeds)
        invariant !changed ==> forall f | f in callees :: ClosedAt(callees, envDependent, f)
        decreases callees.Keys - envDependent, changed
      {
        changed := false;
        var todo := callees.Keys;
        ghost var before := envDependent;
        while todo != {}
          invariant todo <= callees.Keys
          invariant captures == old(captures) && before <= envDependent
          invariant forall f | f in envDependent :: LeadsTo(callees, f, seeds)
          invariant !changed ==> envDependent == before
          invariant !changed ==> forall f | f in callees.Keys - todo :: ClosedAt(callees, before, f)
          invariant changed ==> callees.Keys - envDependent < callees.Keys - before
        {
          var name :| name in todo;
          todo := todo - {name};
          if name !in envDependent {
            var marked := MarkFromCallees(name, callees, seeds);
            changed := changed || marked;
          }
        }
      }
      ClosedHoldsLeading(callees, envDependent, seeds);
    }

    /** One visit of one declaration, until a dependent callee is met. */
    method MarkFromCallees(name: Name, callees: Table, ghost seeds: set<Name>) returns (marked: bool)
      requires name in callees && name !in envDependent
      requires forall f | f in envDependent :: LeadsTo(callees, f, seeds)
      modifies this
      ensures captures == old(captures)
      ensures marked == (callees[name] * old(envDependent) != {})
      ensures envDependent == if marked then old(envDependent) + {name} else old(envDependent)
      ensures forall f | f in envDependent :: LeadsTo(callees, f, seeds)
    {
      var todo := callees[name];
      while todo != {}
        invariant captures == old(captures) && envDependent == old(envDependent)
        invariant todo <= callees[name] && (callees[name] - todo) * envDependent == {}
      {
        var callee :| callee in todo;
        todo := todo - {callee};
        if callee in envDependent {
          ghost var to :| to in seeds && Reaches(callees, callee, to);
          ReachesThrough(callees, name, callee, to);
          assert callee in callees[name] * old(envDependent);
          envDependent := envDependent + {name};
          return true;
        }
      }
      return false;
    }

    method CloseCaptures(callees: Table)
      modifies this
      ensures envDependent == old(envDependent)
      ensures forall f, c :: c in At(captures, f) <==> Inherits(callees, old(captures), f, c)
    {
      ghost var direct := captures;
      ghost var all := Everything(direct);
      StartsBetween(callees, direct);
      var changed := true;
      while changed
        invariant envDependent == old(envDependent)
        invariant Between(callees, direct, captures, all)
        invariant !changed ==> forall f | f in callees :: FlowsAt(callees, captures, f)
        decreases Missing(callees, captures, all), changed
      {
        changed := false;
        var todo := callees.Keys;
        ghost var before := captures;
        while todo != {}
          invariant todo <= callees.Keys && envDependent == old(envDependent)
          invariant Between(callees, direct, captures, all)
          invariant Extends(before, captures) && (!changed ==> Extends(captures, before))
          invariant !changed ==> forall f | f in callees.Keys - todo :: FlowsAt(callees, captures, f)
          invariant changed ==> Missing(callees, captures, all) < Missing(callees, before, all)
        {
          var name :| name in todo;
          todo := todo - {name};
          ghost var entry := captures;
          var grown := TakeFromCallees(name, callees, direct, all);
          Visited(callees, before, entry, captures, all, grown);
          changed := changed || grown;
        }
      }
      SettledIsExact(callees, direct, captures, all);
    }

    /** One visit of one declaration: it takes over every capture of every callee. */
    method TakeFromCallees(name: Name, callees: Table, ghost direct: Table, ghost all: set<Name>)
      returns (grown: bool)
      requires name in callees && Between(callees, direct, captures, all)
      modifies this
      ensures envDependent == old(envDependent) && Between(callees, direct, captures, all)
      ensures Extends(old(captures), captures)
      ensures !grown ==> Extends(captures, old(captures)) && FlowsAt(callees, captures, name)
      ensures grown ==> Missing(callees, captures, all) < Missing(callees, old(captures), all)
    {
      grown := false;
      if name !in captures {
        EmptyEntry(callees, direct, captures, all, name);
        captures := captures[name := {}];
      }
      var todo := callees[name];
      while todo != {}
        invariant name in captures && todo <= callees[name]
        invariant envDependent == old(envDependent) && Between(callees, direct, captures, all)
        invariant Extends(old(captures), captures)
        invariant !grown ==> Extends(captures, old(captures))
        invariant !grown ==> forall g | g in callees[name] - todo :: At(captures, g) <= captures[name]
        invariant grown ==> Missing(callees, captures, all) < Missing(callees, old(captures), all)
      {
        var callee :| callee in todo;
        todo := todo - {callee};
        ghost var before := captures;
        if !(At(captures, callee) <= captures[name]) {
          TakeIsInherited(callees, direct, captures, all, name, callee);
          captures := captures[name := captures[name] + At(captures, callee)];
          ExtendsThrough(old(captures), before, captures);
          ghost var c :| c in At(before, callee) && c !in At(before, name);
          assert Inherits(callees, direct, callee, c);
          assert c in At(captures, name);
          MissingShrinks(callees, old(captures), before, captures, all);
          grown := true;
        }
      }
    }
  }

  // ----- one step of the second loop -----

  predicate Extends(before: Table, after: Table) {
    forall f | f in before :: before[f] <= At(after, f)
  }

  lemma ExtendsThrough(a: Table, b: Table, c: Table)
    requires Extends(a, b) && Extends(b, c)
    ensures Extends(a, c)
  {
    forall f | f in a ensures a[f] <= At(c, f) {
      assert f in b ==> b[f] <= At(c, f);
    }
  }

  lemma ExtendsAt(before: Table, after: Table, f: Name)
    requires Extends(before, after)
    ensures At(before, f) <= At(after, f)
  {
  }

  /** A visit loses nothing, and one that takes nothing leaves earlier visits settled. */
  lemma Visited(callees: Table, before: Table, entry: Table, after: Table, all: set<Name>, grown: bool)
    requires Extends(before, entry) && Extends(entry, after) && (!grown ==> Extends(after, entry))
    ensures Extends(before, after)
    ensures !grown && Extends(entry, before) ==> Extends(after, before)
    ensures !grown ==> forall f | f in callees && FlowsAt(callees, entry, f) :: FlowsAt(callees, after, f)
    ensures Missing(callees, after, all) <= Missing(callees, entry, all) <= Missing(callees, before, all)
  {
    ExtendsThrough(before, entry, after);
    if !grown {
      if Extends(entry, before) {
        ExtendsThrough(after, entry, before);
      }
      forall f | f in callees && FlowsAt(callees, entry, f) ensures FlowsAt(callees, after, f) {
        FlowsSame(callees, entry, after, f);
      }
    }
    MissingMonotone(callees, before, entry, all);
    MissingMonotone(callees, entry, after, all);
  }

  lemma MissingMonotone(callees: Table, before: Table, after: Table, all: set<Name>)
    requires Extends(before, after)
    ensures Missing(callees, after, all) <= Missing(callees, before, all)
  {
    forall f, c | (f, c) in Missing(callees, after, all) ensures (f, c) in Missing(callees, before, all) {
      ExtendsAt(before, after, f);
    }
  }

  lemma FlowsSame(callees: Table, before: Table, after: Table, f: Name)
    requires f in callees && Extends(before, after) && Extends(after, before)
    requires FlowsAt(callees, before, f)
    ensures FlowsAt(callees, after, f)
  {
    forall g | g in callees[f] ensures At(after, g) <= At(after, f) {
      ExtendsAt(after, before, g);
      ExtendsAt(before, after, f);
    }
  }

  lemma EmptyEntry(callees: Table, direct: Table, captures: Table, all: set<Name>, name: Name)
    requires Between(callees, direct, captures, all) && name !in captures
    ensures Between(callees, direct, captures[name := {}], all)
    ensures Extends(captures, captures[name := {}]) && Extends(captures[name := {}], captures)
  {
    var after := captures[name := {}];
    assert Extends(captures, after);
    ExtendsThrough(direct, captures, after);
    forall f, c | c in At(after, f) ensures c in all && Inherits(callees, direct, f, c) {
      assert c in At(captures, f);
      assert Inherits(callees, direct, f, c);
    }
  }

  lemma StartsBetween(callees: Table, direct: Table)
    ensures Between(callees, direct, direct, Everything(direct))
  {
    forall f, c | c in At(direct, f) ensures c in Everything(direct) && Inherits(callees, direct, f, c) {
      ReachesItself(callees, f);
    }
  }

  /** Once no visit takes anything, the captures are the inherited ones exactly. */
  lemma SettledIsExact(callees: Table, direct: Table, captures: Table, all: set<Name>)
    requires Between(callees, direct, captures, all)
    requires forall f | f in callees :: FlowsAt(callees, captures, f)
    ensures forall f, c :: c in At(captures, f) <==> Inherits(callees, direct, f, c)
  {
    forall f, c | Inherits(callees, direct, f, c) ensures c in At(captures, f) {
      var to :| c in At(direct, to) && Reaches(callees, f, to);
      var p :| Chain(callees, p) && p[0] == f && p[|p| - 1] == to;
      ExtendsAt(direct, captures, to);
      FlowsAlongChains(callees, captures, p);
    }
    forall f, c | c in At(captures, f) ensures Inherits(callees, direct, f, c) {
    }
  }

  lemma TakeIsInherited(callees: Table, direct: Table, captures: Table, all: set<Name>, name: Name, callee: Name)
    requires Between(callees, direct, captures, all) && callee in At(callees, name) && name in captures
    ensures Between(callees, direct, captures[name := captures[name] + At(captures, callee)], all)
  {
    var after := captures[name := captures[name] + At(captures, callee)];
    forall c | c in At(captures, callee) ensures c in all && Inherits(callees, direct, name, c) {
      assert Inherits(callees, direct, callee, c);
      var to :| c in At(direct, to) && Reaches(callees, callee, to);
      ReachesThrough(callees, name, callee, to);
    }
    forall f, c | c in At(after, f) ensures c in all && Inherits(callees, direct, f, c) {
      if c in At(captures, f) {
        assert Inherits(callees, direct, f, c);
      }
    }
    assert Extends(captures, after);
    ExtendsThrough(direct, captures, after);
  }

  lemma MissingShrinks(callees: Table, first: Table, before: Table, after: Table, all: set<Name>)
    requires Extends(first, before) && Extends(before, after)
    requires exists f, c :: f in callees && c in all && c in At(after, f) && c !in At(before, f)
    ensures Missing(callees, after, all) < Missing(callees, first, all)
  {
    ExtendsThrough(first, before, after);
    MissingMonotone(callees, first, after, all);
    var f, c :| f in callees && c in all && c in At(after, f) && c !in At(before, f);
    ExtendsAt(first, before, f);
    assert (f, c) in Missing(callees, first, all);
    assert (f, c) !in Missing(callees, after, all);
  }

  // ----- the measure of the second loop -----

  ghost function Everything(table: Table): set<Name> {
    set f, c | f in table && c in table[f] :: c
  }

  /** Captures only grow, only by inheritance, and only within what was captured directly. */
  ghost predicate Between(callees: Table, direct: Table, captures: Table, all: set<Name>) {
    Extends(direct, captures) &&
    forall f, c {:trigger Inherits(callees, direct, f, c)} | c in At(captures, f) :: c in all && Inherits(callees, direct, f, c)
  }

  /** What the table has yet to take in. */
  ghost function Missing(callees: Table, captures: Table, all: set<Name>): set<(Name, Name)> {
    set f, c | f in callees && c in all && c !in At(captures, f) :: (f, c)
  }

  // ----- dependence against captures -----

  lemma {:induction false} CapturingIsMarked(items: seq<Item>)
    ensures forall f, c | c in At(Recorded(items).captures, f) :: f in Recorded(items).dependent
  {
    if items != [] {
      var before := Recorded(items[..|items| - 1]);
      CapturingIsMarked(items[..|items| - 1]);
      forall f, c | c in At(Recorded(items).captures, f) ensures f in Recorded(items).dependent {
        assert f in before.dependent || c !in At(before.captures, f);
      }
    }
  }

  ghost predicate HasCapture(callees: Table, direct: Table, f: Name) {
    exists c :: Inherits(callees, direct, f, c)
  }

  /** The two results agree - a declaration is dependent exactly when it has a capture - if and
      only if every name ever marked still reaches a capturing declaration in the recorded graph. */
  lemma DependenceIsCaptureExactly(items: seq<Item>)
    ensures var r := Recorded(items);
      (forall f :: LeadsTo(r.callees, f, r.dependent) <==> HasCapture(r.callees, r.captures, f))
      <==> forall s | s in r.dependent :: HasCapture(r.callees, r.captures, s)
  {
    var r := Recorded(items);
    CapturingIsMarked(items);
    AgreeExactly(r.callees, r.captures, r.dependent);
  }

  lemma AgreeExactly(callees: Table, direct: Table, marked: set<Name>)
    requires forall f, c {:trigger c in At(direct, f), f in marked} | c in At(direct, f) :: f in marked
    ensures (forall f :: LeadsTo(callees, f, marked) <==> HasCapture(callees, direct, f))
      <==> forall s | s in marked :: HasCapture(callees, direct, s)
  {
    forall s | s in marked ensures LeadsTo(callees, s, marked) {
      ReachesItself(callees, s);
    }
    forall f | HasCapture(callees, direct, f) ensures LeadsTo(callees, f, marked) {
      CaptureLeads(callees, direct, marked, f);
    }
    if forall s | s in marked :: HasCapture(callees, direct, s) {
      forall f | LeadsTo(callees, f, marked) ensures HasCapture(callees, direct, f) {
        LeadCaptures(callees, direct, marked, f);
      }
    }
  }

  lemma CaptureLeads(callees: Table, direct: Table, marked: set<Name>, f: Name)
    requires forall f, c {:trigger c in At(direct, f), f in marked} | c in At(direct, f) :: f in marked
    requires HasCapture(callees, direct, f)
    ensures LeadsTo(callees, f, marked)
  {
    var c :| Inherits(callees, direct, f, c);
    var to :| c in At(direct, to) && Reaches(callees, f, to);
    assert to in marked;
  }

  lemma LeadCaptures(callees: Table, direct: Table, marked: set<Name>, f: Name)
    requires forall s | s in marked :: HasCapture(callees, direct, s)
    requires LeadsTo(callees, f, marked)
    ensures HasCapture(callees, direct, f)
  {
    var s :| s in marked && Reaches(callees, f, s);
    InheritThrough(callees, direct, f, s);
  }

  lemma InheritThrough(callees: Table, direct: Table, f: Name, s: Name)
    requires Reaches(callees, f, s) && HasCapture(callees, direct, s)
    ensures HasCapture(callees, direct, f)
  {
    var c :| Inherits(callees, direct, s, c);
    var to :| c in At(direct, to) && Reaches(callees, s, to);
    ReachTransitive(callees, f, s, to);
    assert Inherits(callees, direct, f, c);
  }

  lemma ReachTransitive(callees: Table, a: Name, b: Name, c: Name)
    requires Reaches(callees, a, b) && Reaches(callees, b, c)
    ensures Reaches(callees, a, c)
  {
    var p :| Chain(callees, p) && p[0] == a && p[|p| - 1] == b;
    var q :| Chain(callees, q) && q[0] == b && q[|q| - 1] == c;
    ChainsJoin(callees, p, q);
  }

  lemma {:induction false} ChainsJoin(callees: Table, p: seq<Name>, q: seq<Name>)
    requires Chain(callees, p) && Chain(callees, q) && p[|p| - 1] == q[0]
    ensures Reaches(callees, p[0], q[|q| - 1])
  {
    if |p| == 1 {
      assert Chain(callees, q);
    } else {
      ChainsJoin(callees, p[1..], q);
      ReachesThrough(callees, p[0], p[1], q[|q| - 1]);
    }
  }

  predicate Declares(items: seq<Item>, f: Name) {
    exists i :: 0 <= i < |items| && items[i].Declared? && items[i].name == f
  }

  predicate NamesOnce(items: seq<Item>) {
    forall i | 0 <= i < |items| && items[i].Declared? :: !Declares(items[..i], items[i].name)
  }

  lemma {:induction false} OnceMarkedCaptures(items: seq<Item>)
    requires NamesOnce(items)
    ensures forall f | f in Recorded(items).dependent :: f in Recorded(items).captures && Recorded(items).captures[f] != {}
    ensures forall f | f in Recorded(items).captures :: Declares(items, f)
    ensures Recorded(items).dependent <= Recorded(items).captures.Keys
  {
    if items != [] {
      var before, last := items[..|items| - 1], items[|items| - 1];
      forall i | 0 <= i < |before| && before[i].Declared? ensures !Declares(before[..i], before[i].name) {
        assert before[..i] == items[..i];
      }
      OnceMarkedCaptures(before);
      forall f | f in Recorded(items).captures ensures Declares(items, f) {
        if f in Recorded(before).captures {
          assert Declares(before, f);
          var i :| 0 <= i < |before| && before[i].Declared? && before[i].name == f;
          assert items[i].Declared? && items[i].name == f;
        } else {
          assert items[|items| - 1].Declared? && items[|items| - 1].name == f;
        }
      }
      if last.Declared? {
        assert !Declares(before, last.name);
        assert last.name !in Recorded(before).captures;
      }
    }
  }

  /** With one declaration per name, dependence and captures always agree. */
  lemma DistinctNamesAgree(items: seq<Item>)
    requires NamesOnce(items)
    ensures var r := Recorded(items);
      forall f :: LeadsTo(r.callees, f, r.dependent) <==> HasCapture(r.callees, r.captures, f)
  {
    var r := Recorded(items);
    OnceMarkedCaptures(items);
    forall s | s in r.dependent ensures HasCapture(r.callees, r.captures, s) {
      var c :| c in r.captures[s];
      ReachesItself(r.callees, s);
      assert Inherits(r.callees, r.captures, s, c);
    }
    DependenceIsCaptureExactly(items);
  }

  lemma {:induction false} RereadMarksCapturing(done: seq<Checked>)
    requires forall i | 0 <= i < |done| :: done[i].captures != {} ==> done[i].dependent
    ensures forall f, c | c in At(Reread(done).captures, f) :: f in Reread(done).dependent
  {
    if done != [] {
      var before, last := Reread(done[..|done| - 1]), done[|done| - 1];
      RereadMarksCapturing(done[..|done| - 1]);
      forall f, c | c in At(Reread(done).captures, f) ensures f in Reread(done).dependent {
        assert f == last.name || c in At(before.captures, f);
      }
    }
  }

  lemma {:induction false} RereadCapturesMarked(done: seq<Checked>)
    requires forall i | 0 <= i < |done| :: done[i].dependent ==> done[i].captures != {}
    ensures forall f | f in Reread(done).dependent :: At(Reread(done).captures, f) != {}
  {
    if done != [] {
      RereadCapturesMarked(done[..|done| - 1]);
    }
  }

  /** Over the checked program a declaration with a capture is marked, a specialization that
      inherits one included. Then marks and captures agree for every declaration if and only if every
      one still marked reaches a capturing one. */
  lemma SecondPassExactly(done: seq<Checked>)
    requires forall i | 0 <= i < |done| :: done[i].captures != {} ==> done[i].dependent
    ensures var r := Reread(done);
      (forall f :: LeadsTo(r.callees, f, r.dependent) <==> HasCapture(r.callees, r.captures, f))
      <==> forall s | s in r.dependent :: HasCapture(r.callees, r.captures, s)
  {
    var r := Reread(done);
    RereadMarksCapturing(done);
    AgreeExactly(r.callees, r.captures, r.dependent);
  }

  /** When in addition a mark always comes with a capture of the declaration's own, shared names
      cannot make the two disagree: a mark is replaced along with the captures. */
  lemma SecondPassAgrees(done: seq<Checked>)
    requires forall i | 0 <= i < |done| :: done[i].dependent == (done[i].captures != {})
    ensures var r := Reread(done);
      forall f :: LeadsTo(r.callees, f, r.dependent) <==> HasCapture(r.callees, r.captures, f)
  {
    var r := Reread(done);
    RereadCapturesMarked(done);
    forall s | s in r.dependent ensures HasCapture(r.callees, r.captures, s) {
      var c :| c in At(r.captures, s);
      ReachesItself(r.callees, s);
      assert Inherits(r.callees, r.captures, s, c);
    }
    SecondPassExactly(done);
  }

  /** Methods of different types may share a name. A capturing one followed by one that captures
      nothing leaves the name dependent with no capture recorded. */
  lemma SharedNameDisagrees()
    ensures var r := Recorded([Root("x"), Declared("show", {"x"}, {}), Declared("show", {}, {})]);
      LeadsTo(r.callees, "show", r.dependent) && !HasCapture(r.callees, r.captures, "show")
  {
    var one, two := [Root("x")], [Root("x"), Declared("show", {"x"}, {})];
    var items := two + [Declared("show", {}, {})];
    assert items == [Root("x"), Declared("show", {"x"}, {}), Declared("show", {}, {})];
    assert items[..2] == two && two[..1] == one && one[..0] == [];
    assert Recorded(one) == Record({"x"}, map[], map[], {});
    assert {"x"} * {"x"} == {"x"};
    assert Recorded(two) == Record({"x"}, map["show" := {"x"}], map["show" := {}], {"show"});
    var empty: set<Name> := {};
    assert empty * {"x"} == {};
    var r := Recorded(items);
    assert r == Record({"x"}, map["show" := {}], map["show" := {}], {"show"});
    ReachesItself(r.callees, "show");
  }
}
