/** The claims of the flow analysis at every place of a body, and exactly which assignments keep
    them. */
module FlowClaims {
  import opened Syntax
  import opened FlowFacts
  import opened FlowAnalysis
  import opened FlowSemantics
  import opened FlowGuards
  import opened FlowPlaces
  import opened FlowSteady
  import opened FlowNarrowing
  import opened FlowSoundness

  /** Machine m is one the facts f describe, under a naming of the identities minted so far. */
  ghost predicate Describes(slots: Slots, f: Flow, next: AllocationId, names: Naming, m: Machine) {
    Typed(slots, f, m) && Owned(f, next, names, m)
  }

  // ----- cleanup soundness at every place -----

  lemma {:induction false} ElifEntrySound(slots: Slots, elifs: seq<Branch>, chain: Chain, k: nat, defers: seq<Action>,
                                          depth: nat, names: Naming, m: Machine, m': Machine)
    requires k <= |elifs| && EntersElif(slots, elifs, m, k, m')
    requires Owned(chain.otherwise, chain.next, names, m)
    ensures var start := ElifEntry(slots, elifs, chain, k, defers, depth);
      Owned(start.flow, start.next, names, m')
    ensures m'.pending == m.pending
    decreases |elifs|
  {
    if elifs != [] {
      if k == 0 {
        CondSound(slots, chain.otherwise, chain.next, elifs[0].cond, true, names, m, m');
      } else {
        var mid :| Decides(slots, elifs[0].cond, m, false, mid) && EntersElif(slots, elifs[1..], mid, k - 1, m');
        var next := CheckElif(slots, elifs[0], chain, defers, depth);
        CondSound(slots, chain.otherwise, chain.next, elifs[0].cond, false, names, m, mid);
        ElifsKeep(slots, [elifs[0]], chain, defers, depth);
        assert CheckElifs(slots, [elifs[0]], chain, defers, depth) == next by {
          assert [elifs[0]][1..] == [];
        }
        OwnedLater(next.otherwise, chain.next, next.next, names, mid);
        ElifEntrySound(slots, elifs[1..], next, k - 1, defers, depth, names, mid, m');
      }
    }
  }

  /** When the condition is false, the first elseif starts from what the condition left. */
  lemma OtherwiseSound(slots: Slots, stmt: Stmt, s: Scope, depth: nat, names: Naming, m: Machine, mid: Machine)
    requires stmt.If? && Decides(slots, stmt.cond, m, false, mid)
    requires Owned(s.flow, s.next, names, m)
    ensures var f := Narrowed(slots, CondEffects(s.flow, stmt.cond), stmt.cond, true);
      var start := StartChain(slots, stmt.cond, stmt.thn, s, CheckBlock(slots, stmt.thn, f, s.next, depth));
      Owned(start.otherwise, start.next, names, mid)
    ensures mid.pending == m.pending
  {
    var f := Narrowed(slots, CondEffects(s.flow, stmt.cond), stmt.cond, true);
    var start := StartChain(slots, stmt.cond, stmt.thn, s, CheckBlock(slots, stmt.thn, f, s.next, depth));
    CondSound(slots, s.flow, s.next, stmt.cond, false, names, m, mid);
    ThenCounts(slots, stmt.thn, f, s.next, depth);
    OwnedLater(start.otherwise, s.next, start.next, names, mid);
  }

  lemma ArmEntrySound(slots: Slots, stmt: Stmt, s: Scope, arm: nat, depth: nat, names: Naming, m: Machine, m': Machine)
    requires HasArm(stmt, arm) && EntersArm(slots, stmt, m, arm, m')
    requires Owned(s.flow, s.next, names, m) && (IsLoop(stmt) ==> Steady(s.flow, s.flow, stmt))
    ensures var start := ArmEntry(slots, stmt, s, arm, depth); Owned(start.flow, start.next, names, m')
    ensures m'.pending == m.pending
  {
    if IsLoop(stmt) {
      LoopEntrySound(slots, stmt, s.flow, s.next, names, m, m');
    } else if stmt.If? {
      if arm == 0 {
        CondSound(slots, s.flow, s.next, stmt.cond, true, names, m, m');
      } else {
        LaterArmSound(slots, stmt, s, arm, depth, names, m, m');
      }
    }
  }

  lemma LaterArmSound(slots: Slots, stmt: Stmt, s: Scope, arm: nat, depth: nat, names: Naming, m: Machine, m': Machine)
    requires stmt.If? && arm > 0 && HasArm(stmt, arm) && EntersArm(slots, stmt, m, arm, m')
    requires Owned(s.flow, s.next, names, m)
    ensures var start := ArmEntry(slots, stmt, s, arm, depth); Owned(start.flow, start.next, names, m')
    ensures m'.pending == m.pending
  {
    var mid :| Decides(slots, stmt.cond, m, false, mid) && EntersElif(slots, stmt.elifs, mid, arm - 1, m');
    var f := Narrowed(slots, CondEffects(s.flow, stmt.cond), stmt.cond, true);
    var start := StartChain(slots, stmt.cond, stmt.thn, s, CheckBlock(slots, stmt.thn, f, s.next, depth));
    OtherwiseSound(slots, stmt, s, depth, names, m, mid);
    ElifEntrySound(slots, stmt.elifs, start, arm - 1, s.defers, depth, names, mid, m');
  }

  lemma LoopEntrySound(slots: Slots, stmt: Stmt, f: Flow, n: AllocationId, names: Naming, m: Machine, m': Machine)
    requires IsLoop(stmt) && EntersArm(slots, stmt, m, 0, m') && Owned(f, n, names, m) && Steady(f, f, stmt)
    ensures var guard := if stmt.While? then stmt.guard else Opaque([]);
      Owned(Narrowed(slots, CondEffects(f, guard), guard, true), n, names, m')
    ensures m'.pending == m.pending
  {
    var guard, body := if stmt.While? then stmt.guard else Opaque([]), ArmBody(stmt, 0);
    var k: nat :| EntersLoop(slots, guard, body, k, m, m');
    var before := EntersDrifts(slots, f, guard, body, k, m, m');
    DriftedOwned(slots, f, f, n, names, m, before);
    CondSound(slots, f, n, guard, true, names, before, m');
  }

  lemma ThenCounts(slots: Slots, thn: seq<Stmt>, f: Flow, n: AllocationId, depth: nat)
    ensures n <= CheckBlock(slots, thn, f, n, depth).next
  {
    var chain := Chain(f, n, [], [], false);
    ElseKeeps(slots, Else(thn), chain, [], depth);
  }

  /** The cleanup facts held at a place are true of every machine that can be there, and the deferred
      actions stand for the releases it has pending. */
  lemma {:induction false} PointOwned(slots: Slots, stmts: seq<Stmt>, s: Scope, outer: seq<Action>, place: Place,
                                      depth: nat, names: Naming, m: Machine, m': Machine) returns (names': Naming)
    requires Valid(stmts, place) && FollowedTo(slots, stmts, s, place, depth, true)
    requires Owned(s.flow, s.next, names, m) && Awaits(names, outer + s.defers, m.pending)
    requires Reaches(slots, stmts, m, place, m')
    ensures Extends(names, names')
    ensures var p := PointAt(slots, stmts, s, outer, place, depth);
      Owned(p.flow, p.next, names', m') && Awaits(names', p.actions, m'.pending)
    decreases place
  {
    var before := stmts[..place.index];
    var here := CheckSeq(slots, before, s, depth);
    match place
    case At(i) => names' := PrefixOwned(slots, before, s, outer, depth, names, m, m');
    case In(i, arm, rest) =>
      var mid, inside := EntersPlace(slots, stmts, m, i, arm, rest, m');
      names' := ArmOwned(slots, before, stmts[i], s, outer, arm, depth, names, m, mid, inside);
      var start := ArmEntry(slots, stmts[i], here, arm, depth);
      assert outer + here.defers + [] == outer + here.defers;
      names' := PointOwned(slots, ArmBody(stmts[i], arm), Enter(start.flow, start.next), outer + here.defers, rest,
                           ArmDepth(stmts[i], depth), names', inside, m');
  }

  /** An execution inside an arm came to its statement, and entered it. */
  lemma EntersPlace(slots: Slots, stmts: seq<Stmt>, m: Machine, i: nat, arm: nat, rest: Place, m': Machine)
    returns (mid: Machine, inside: Machine)
    requires Valid(stmts, In(i, arm, rest)) && Reaches(slots, stmts, m, In(i, arm, rest), m')
    ensures ExecSeq(slots, stmts[..i], m, Outcome(Fell, mid)) && EntersArm(slots, stmts[i], mid, arm, inside)
    ensures Reaches(slots, ArmBody(stmts[i], arm), inside, rest, m')
  {
    mid, inside :| ExecSeq(slots, stmts[..i], m, Outcome(Fell, mid)) && EntersArm(slots, stmts[i], mid, arm, inside)
      && Reaches(slots, ArmBody(stmts[i], arm), inside, rest, m');
  }

  lemma ArmOwned(slots: Slots, before: seq<Stmt>, stmt: Stmt, s: Scope, outer: seq<Action>, arm: nat, depth: nat,
                 names: Naming, m: Machine, mid: Machine, inside: Machine) returns (names': Naming)
    requires SeqFollowed(slots, before, s, depth, true) && ExecSeq(slots, before, m, Outcome(Fell, mid))
    requires Owned(s.flow, s.next, names, m) && Awaits(names, outer + s.defers, m.pending)
    requires HasArm(stmt, arm) && EntersArm(slots, stmt, mid, arm, inside)
    requires var f := CheckSeq(slots, before, s, depth).flow; IsLoop(stmt) ==> Steady(f, f, stmt)
    ensures Extends(names, names')
    ensures var here := CheckSeq(slots, before, s, depth);
      var start := ArmEntry(slots, stmt, here, arm, depth);
      Owned(start.flow, start.next, names', inside) && Awaits(names', outer + here.defers, inside.pending)
  {
    names' := PrefixOwned(slots, before, s, outer, depth, names, m, mid);
    ArmEntrySound(slots, stmt, CheckSeq(slots, before, s, depth), arm, depth, names', mid, inside);
  }

  lemma PrefixOwned(slots: Slots, stmts: seq<Stmt>, s: Scope, outer: seq<Action>, depth: nat, names: Naming,
                    m: Machine, m': Machine) returns (names': Naming)
    requires SeqFollowed(slots, stmts, s, depth, true) && ExecSeq(slots, stmts, m, Outcome(Fell, m'))
    requires Owned(s.flow, s.next, names, m) && Awaits(names, outer + s.defers, m.pending)
    ensures Extends(names, names')
    ensures var r := CheckSeq(slots, stmts, s, depth);
      Owned(r.flow, r.next, names', m') && Awaits(names', outer + r.defers, m'.pending)
  {
    var base := |outer|;
    var r := CheckSeq(slots, stmts, s, depth);
    forall i | 0 <= i < |s.defers| && s.defers[i].captured != 0
      ensures s.defers[i].captured in names && names[s.defers[i].captured] == m.pending[base..][i]
    {
      assert (outer + s.defers)[base + i] == s.defers[i];
    }
    names' := SeqSound(slots, stmts, s, depth, names, m, base, Outcome(Fell, m'));
    var all := outer + r.defers;
    forall i | 0 <= i < |all| && all[i].captured != 0
      ensures all[i].captured in names' && names'[all[i].captured] == m'.pending[i]
    {
      if i < base {
        assert (outer + s.defers)[i] == all[i] && m'.pending[..base][i] == m.pending[..base][i];
      } else {
        assert m'.pending[base..][i - base] == m'.pending[i];
      }
    }
  }

  // ----- the claims -----

  /** The main theorem: the facts held at a place describe every machine that can be there, and
      the deferred actions stand for the releases it has pending. */
  lemma PointSound(slots: Slots, stmts: seq<Stmt>, s: Scope, outer: seq<Action>, place: Place,
                   depth: nat, names: Naming, m: Machine, m': Machine) returns (names': Naming)
    requires Valid(stmts, place) && FollowedTo(slots, stmts, s, place, depth, true)
    requires Describes(slots, s.flow, s.next, names, m) && Awaits(names, outer + s.defers, m.pending)
    requires Reaches(slots, stmts, m, place, m')
    ensures Extends(names, names')
    ensures var p := PointAt(slots, stmts, s, outer, place, depth);
      Describes(slots, p.flow, p.next, names', m') && Awaits(names', p.actions, m'.pending)
  {
    FollowedToLess(slots, stmts, s, place, depth);
    PointTyped(slots, stmts, s, outer, place, depth, m, m');
    names' := PointOwned(slots, stmts, s, outer, place, depth, names, m, m');
  }

  lemma BodySound(slots: Slots, body: seq<Stmt>, place: Place, m: Machine, m': Machine) returns (names: Naming)
    requires Valid(body, place) && BodyFollowedTo(slots, body, place, true)
    requires Initial(slots, m) && Reaches(slots, body, m, place, m')
    ensures var p := BodyPoint(slots, body, place);
      Describes(slots, p.flow, p.next, names, m') && Awaits(names, p.actions, m'.pending)
  {
    names := PointSound(slots, body, Enter(EMPTY_FLOW, 0), [], place, 0, map[], m, m');
  }

  /** Cleanup soundness: whenever the facts say b's allocation is released, every execution at
      that place has released it. */
  lemma FreedIsReleased(slots: Slots, body: seq<Stmt>, place: Place, b: BindingId, m: Machine, m': Machine)
    requires Valid(body, place) && BodyFollowedTo(slots, body, place, true)
    requires Initial(slots, m) && Reaches(slots, body, m, place, m')
    requires Freed(BodyPoint(slots, body, place).flow, b)
    ensures b in m'.env && m'.env[b].handle in m'.released
  {
    var names := BodySound(slots, body, place, m, m');
  }

  /** Narrowing soundness: whenever the facts narrow b to a type, the value in b has it. Of the body
      this asks only that declarations are new and that loops and rejected compound statements are
      steady, not how assignments and deferred releases treat identities. */
  lemma NarrowedIsHeld(slots: Slots, body: seq<Stmt>, place: Place, b: BindingId, m: Machine, m': Machine)
    requires Valid(body, place) && BodyFollowedTo(slots, body, place, false)
    requires Initial(slots, m) && Reaches(slots, body, m, place, m')
    requires NarrowedType(BodyPoint(slots, body, place).flow, b) != NO_TYPE
    ensures b in m'.env && m'.env[b].kind in NarrowedType(BodyPoint(slots, body, place).flow, b)
  {
    PointTyped(slots, body, Enter(EMPTY_FLOW, 0), [], place, 0, m, m');
  }

  /** A release or a dereference the checker rejects is a double free or a use after free on
      every execution that reaches it. */
  lemma ReportIsDefinite(slots: Slots, body: seq<Stmt>, place: Place, b: BindingId, m: Machine, m': Machine,
                         s: Scope, depth: nat)
    requires Valid(body, place) && BodyFollowedTo(slots, body, place, true)
    requires BeforeStatement(body, place)
    requires StatementAt(body, place) == Free(b) || StatementAt(body, place) == Deref(b)
    requires s.flow == BodyPoint(slots, body, place).flow && !s.failed
    requires CheckStmt(slots, StatementAt(body, place), s, depth).failed
    requires Initial(slots, m) && Reaches(slots, body, m, place, m')
    ensures b in m'.env && m'.env[b].handle in m'.released
  {
    FreedIsReleased(slots, body, place, b, m, m');
  }

  // ----- deferred releases at an exit -----

  /** The exit at flow f reports action k: the later registered ones have been validated. */
  predicate Reported(actions: seq<Action>, f: Flow, k: nat)
    requires k < |actions|
  {
    ValidateOne(actions[k], Validate(actions[k + 1..], f).flow).failed
  }

  /** Validating the last action first leaves the same question for the ones before it. */
  lemma ReportedBefore(actions: seq<Action>, f: Flow, k: nat)
    requires k < |actions| - 1
    ensures var rest := actions[..|actions| - 1];
      Reported(actions, f, k) == Reported(rest, ValidateOne(actions[|actions| - 1], f).flow, k)
  {
    var last := |actions| - 1;
    var tail := actions[k + 1..];
    assert actions[..last][k] == actions[k];
    assert tail[|tail| - 1] == actions[last] && tail[..|tail| - 1] == actions[..last][k + 1..];
  }

  lemma ReportedLast(actions: seq<Action>, f: Flow)
    requires actions != []
    ensures Reported(actions, f, |actions| - 1) == ValidateOne(actions[|actions| - 1], f).failed
  {
    assert actions[|actions|..] == [];
  }

  /** Some action at or before the last is reported. */
  predicate AnyReported(actions: seq<Action>, f: Flow) {
    exists k | 0 <= k < |actions| :: Reported(actions, f, k)
  }

  lemma AnyReportedSplits(actions: seq<Action>, f: Flow)
    requires actions != []
    ensures var last := |actions| - 1;
      AnyReported(actions, f) <==>
        Reported(actions, f, last) || AnyReported(actions[..last], ValidateOne(actions[last], f).flow)
  {
    var last := |actions| - 1;
    var g := ValidateOne(actions[last], f).flow;
    if k :| 0 <= k < last && Reported(actions[..last], g, k) {
      ReportedBefore(actions, f, k);
    }
    if k :| 0 <= k < |actions| && Reported(actions, f, k) {
      if k < last { ReportedBefore(actions, f, k); }
    }
  }

  lemma {:induction false} FailsWhenReported(actions: seq<Action>, f: Flow)
    ensures Validate(actions, f).failed <==> AnyReported(actions, f)
    decreases |actions|
  {
    if actions != [] {
      var last := |actions| - 1;
      FailsWhenReported(actions[..last], ValidateOne(actions[last], f).flow);
      AnyReportedSplits(actions, f);
      ReportedLast(actions, f);
    }
  }

  /** Leaving the inner scope and then the outer one validates one list after the other. */
  lemma {:induction false} ValidateInnerThenOuter(outer: seq<Action>, inner: seq<Action>, f: Flow)
    ensures var first := Validate(inner, f);
      var second := Validate(outer, first.flow);
      Validate(outer + inner, f) == Verdict(second.flow, first.failed || second.failed)
    decreases |inner|
  {
    if inner == [] {
      assert outer + inner == outer;
    } else {
      var last := |inner| - 1;
      assert (outer + inner)[..|outer + inner| - 1] == outer + inner[..last];
      ValidateInnerThenOuter(outer, inner[..last], ValidateOne(inner[last], f).flow);
    }
  }

  /** A deferred release reported at an exit has been released already, by the body or by a
      deferred release registered later, on every execution that leaves from there. */
  lemma ExitReportIsDefinite(slots: Slots, body: seq<Stmt>, place: Place, k: nat, m: Machine, m': Machine)
    requires Valid(body, place) && BodyFollowedTo(slots, body, place, true)
    requires Initial(slots, m) && Reaches(slots, body, m, place, m')
    requires var p := BodyPoint(slots, body, place);
      k < |p.actions| && ActionsFollowed(p.flow, p.actions[k..]) && Reported(p.actions, p.flow, k)
    ensures k < |m'.pending| && m'.pending[k] in Unwind(m', k + 1).released
  {
    var p := BodyPoint(slots, body, place);
    var names := BodySound(slots, body, place, m, m');
    var later := p.actions[k + 1..];
    forall i | 0 <= i < |later| && later[i].captured != 0
      ensures later[i].captured in names && names[later[i].captured] == m'.pending[k + 1..][i]
    {
      assert later[i] == p.actions[k + 1 + i];
    }
    forall i | 0 <= i < |later|
      ensures later[i].captured != 0 || later[i].binding !in p.flow.tracked
    {
      assert later[i] == p.actions[k..][i + 1];
    }
    assert p.actions[k..][0] == p.actions[k];
    ValidateSound(p.flow, p.next, later, names, m', k + 1);
    ValidateKeepsTracking(later, p.flow);
  }

  // ----- exactly which assignments the facts follow -----

  /** Whatever machine f describes and however the assignment runs, the facts after it describe
      the machine after it, writes through escaped addresses included. */
  ghost predicate AssignmentFollowed(slots: Slots, s: Scope, stmt: Stmt)
    requires stmt.Assign?
  {
    forall names, m, mid, m' |
      && Describes(slots, s.flow, s.next, names, m)
      && Does(slots, stmt, m, mid) && Scribbled(slots, mid, m') ::
      exists names' :: Extends(names, names') &&
        Describes(slots, Assigned(s, stmt.binding, stmt.init).flow, Assigned(s, stmt.binding, stmt.init).next, names', m')
  }

  /** The assignment can run on some machine f describes, and f tracks no escaped slot. */
  ghost predicate Runnable(slots: Slots, s: Scope, stmt: Stmt)
    requires stmt.Assign?
  {
    && (forall b | b in s.flow.tracked :: !Escaped(s.flow, b))
    && exists names, m, m' :: Describes(slots, s.flow, s.next, names, m) && Does(slots, stmt, m, m')
  }

  /** The checker's assignment step is sound exactly under the guard AssignFollowed: it must not
      take the early return for an untracked source while the target is tracked, and must not
      re-track a target whose address escaped. */
  lemma AssignmentExact(slots: Slots, s: Scope, stmt: Stmt)
    requires stmt.Assign? && Runnable(slots, s, stmt)
    ensures AssignmentFollowed(slots, s, stmt) <==> AssignFollowed(s.flow, stmt.binding, stmt.init)
  {
    var r := Assigned(s, stmt.binding, stmt.init);
    if AssignFollowed(s.flow, stmt.binding, stmt.init) {
      forall names, m, mid, m' |
        && Describes(slots, s.flow, s.next, names, m)
        && Does(slots, stmt, m, mid) && Scribbled(slots, mid, m')
        ensures exists names' :: Extends(names, names') && Describes(slots, r.flow, r.next, names', m')
      {
        var names' := AssignSound(slots, s, stmt, names, m, mid);
        AssignTyped(slots, s, stmt, m, mid);
        ScribbledSound(slots, r.flow, r.next, names', mid, m');
        ScribbledTyped(slots, r.flow, mid, m');
      }
    } else {
      var names, m, mid :| Describes(slots, s.flow, s.next, names, m) && Does(slots, stmt, m, mid);
      UnfollowedAssignment(slots, s, stmt, names, m, mid);
    }
  }

  lemma UnfollowedAssignment(slots: Slots, s: Scope, stmt: Stmt, names: Naming, m: Machine, mid: Machine)
    requires stmt.Assign? && !AssignFollowed(s.flow, stmt.binding, stmt.init)
    requires forall b | b in s.flow.tracked :: !Escaped(s.flow, b)
    requires Describes(slots, s.flow, s.next, names, m) && Does(slots, stmt, m, mid)
    ensures !AssignmentFollowed(slots, s, stmt)
  {
    var b, source := stmt.binding, DirectSource(stmt.init);
    var r := Assigned(s, b, stmt.init);
    if TrackedAllocation(s.flow, source) != 0 {
      // the re-tracked slot is written through its escaped address
      var a := s.flow.allocation[source];
      var held := m.(exposed := m.exposed + {b});
      var after := mid.(exposed := held.exposed);
      var other := Value(mid.env[b].handle + 1, mid.env[b].kind);
      var written := after.(env := after.env[b := other]);
      assert Describes(slots, s.flow, s.next, names, held);
      assert Does(slots, stmt, held, after) && Scribbled(slots, after, written);
      assert r.flow.allocation[b] == a && names[a] == mid.env[b].handle;
      assert forall names' | Extends(names, names') :: !Describes(slots, r.flow, r.next, names', written);
    } else {
      // the source holds something else than the target's old allocation
      assert source !in s.flow.tracked;
      var a := s.flow.allocation[b];
      var other := Value(names[a] + 1, m.env[source].kind);
      var held := m.(env := m.env[source := other]);
      var after := held.(env := held.env[b := other]);
      assert Describes(slots, s.flow, s.next, names, held);
      assert Does(slots, stmt, held, after) && Scribbled(slots, after, after);
      assert b in r.flow.tracked && r.flow.allocation[b] == a;
      assert forall names' | Extends(names, names') :: !Describes(slots, r.flow, r.next, names', after);
    }
  }
}
