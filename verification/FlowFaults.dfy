/** What checking reports, exactly: a body is rejected if and only if some place of it holds a fault,
    a place being any position in any nest of branches and loops. */
module FlowFaults {
  import opened Syntax
  import opened FlowFacts
  import opened FlowAnalysis
  import opened FlowGuards
  import opened FlowHistory
  import opened FlowPlaces
  import opened FlowArms
  import opened FlowClaims

  // ----- faults -----

  /** The place holds a fault: one of its statement's own; a return at which a deferred release is
      reported, among those of every scope it leaves and that it can be reached in; or the end of a
      scope that falls through at which one of that scope's is. `live` are the enclosing scopes'. */
  predicate FaultAt(slots: Slots, stmts: seq<Stmt>, s: Scope, live: seq<Action>, place: Place, depth: nat)
    requires Valid(stmts, place)
    decreases place
  {
    var here := CheckSeq(slots, stmts[..place.index], s, depth);
    match place
    case At(i) =>
      if i == |stmts| then here.open && AnyReported(here.defers, here.flow)
      else
        OwnFault(slots, stmts[i], here, depth) ||
        (stmts[i].Return? && here.open && AnyReported(live + here.defers, here.flow))
    case In(i, arm, rest) =>
      var start := ArmEntry(slots, stmts[i], here, arm, depth);
      FaultAt(slots, ArmBody(stmts[i], arm), Enter(start.flow, start.next), if here.open then live + here.defers else [],
              rest, ArmDepth(stmts[i], depth))
  }

  // ----- sequences -----

  predicate StepFails(slots: Slots, stmts: seq<Stmt>, s: Scope, depth: nat, i: nat)
    requires i < |stmts|
  {
    CheckStmt(slots, stmts[i], CheckSeq(slots, stmts[..i], s, depth).(failed := false), depth).failed
  }

  lemma {:induction false} SeqSnoc(slots: Slots, stmts: seq<Stmt>, s: Scope, depth: nat)
    requires stmts != []
    ensures var n := |stmts| - 1;
      CheckSeq(slots, stmts, s, depth) == Step(slots, stmts[n], CheckSeq(slots, stmts[..n], s, depth), depth)
    decreases |stmts|
  {
    var n := |stmts| - 1;
    if n > 0 {
      SeqSnoc(slots, stmts[1..], Step(slots, stmts[0], s, depth), depth);
      assert stmts[1..][..n - 1] == stmts[..n][1..];
    } else {
      assert stmts[1..] == [];
    }
  }

  lemma {:induction false} SeqFailsExactly(slots: Slots, stmts: seq<Stmt>, s: Scope, depth: nat)
    ensures CheckSeq(slots, stmts, s, depth).failed <==>
      s.failed || exists i | 0 <= i < |stmts| :: StepFails(slots, stmts, s, depth, i)
    decreases |stmts|
  {
    if stmts != [] {
      var n := |stmts| - 1;
      SeqSnoc(slots, stmts, s, depth);
      SeqFailsExactly(slots, stmts[..n], s, depth);
      forall i | 0 <= i < n ensures StepFails(slots, stmts, s, depth, i) == StepFails(slots, stmts[..n], s, depth, i) {
        assert stmts[..n][..i] == stmts[..i];
      }
      assert CheckSeq(slots, stmts, s, depth).failed <==>
        CheckSeq(slots, stmts[..n], s, depth).failed || StepFails(slots, stmts, s, depth, n);
      if i :| 0 <= i < n && StepFails(slots, stmts[..n], s, depth, i) {
        assert StepFails(slots, stmts, s, depth, i);
      }
      if i :| 0 <= i < |stmts| && StepFails(slots, stmts, s, depth, i) {
        assert i < n ==> StepFails(slots, stmts[..n], s, depth, i);
      }
    }
  }

  /** A failing prefix fails the whole. */
  lemma {:induction false} PrefixFails(slots: Slots, stmts: seq<Stmt>, s: Scope, i: nat, depth: nat)
    requires i <= |stmts| && CheckSeq(slots, stmts[..i], s, depth).failed
    ensures CheckSeq(slots, stmts, s, depth).failed
    decreases |stmts|
  {
    if i < |stmts| {
      var n := |stmts| - 1;
      SeqSnoc(slots, stmts, s, depth);
      assert stmts[..n][..i] == stmts[..i];
      PrefixFails(slots, stmts[..n], s, i, depth);
    } else {
      assert stmts[..i] == stmts;
    }
  }

  /** A scope still falls through exactly when none of its accepted statements terminates. */
  lemma {:induction false} OpenExactly(slots: Slots, stmts: seq<Stmt>, s: Scope, depth: nat)
    ensures CheckSeq(slots, stmts, s, depth).open <==>
      s.open && forall i | 0 <= i < |stmts| :: StepFails(slots, stmts, s, depth, i) || !Terminates(stmts[i])
    decreases |stmts|
  {
    if stmts != [] {
      var n := |stmts| - 1;
      SeqSnoc(slots, stmts, s, depth);
      OpenExactly(slots, stmts[..n], s, depth);
      forall i | 0 <= i < n ensures StepFails(slots, stmts, s, depth, i) == StepFails(slots, stmts[..n], s, depth, i) {
        assert stmts[..n][..i] == stmts[..i];
      }
      assert CheckSeq(slots, stmts, s, depth).open <==>
        CheckSeq(slots, stmts[..n], s, depth).open && (StepFails(slots, stmts, s, depth, n) || !Terminates(stmts[n]));
      if CheckSeq(slots, stmts[..n], s, depth).open {
        forall i | 0 <= i < n ensures StepFails(slots, stmts, s, depth, i) || !Terminates(stmts[i]) {
          assert StepFails(slots, stmts[..n], s, depth, i) || !Terminates(stmts[..n][i]);
        }
      } else if s.open {
        var i :| 0 <= i < n && !(StepFails(slots, stmts[..n], s, depth, i) || !Terminates(stmts[..n][i]));
        assert !(StepFails(slots, stmts, s, depth, i) || !Terminates(stmts[i]));
      }
    }
  }

  // ----- recorded returns -----

  /** The place is before a return that every enclosing scope can come to. */
  predicate Recorded(slots: Slots, stmts: seq<Stmt>, s: Scope, place: Place, depth: nat)
    requires Valid(stmts, place)
    decreases place
  {
    var here := CheckSeq(slots, stmts[..place.index], s, depth);
    here.open &&
    match place
    case At(i) => i < |stmts| && stmts[i].Return?
    case In(i, arm, rest) =>
      var start := ArmEntry(slots, stmts[i], here, arm, depth);
      Recorded(slots, ArmBody(stmts[i], arm), Enter(start.flow, start.next), rest, ArmDepth(stmts[i], depth))
  }

  /** What the return hands to this scope: the facts once the inner scopes' releases have run, and
      what this scope has registered. */
  function ReturnAt(slots: Slots, stmts: seq<Stmt>, s: Scope, place: Place, depth: nat): ReturnFlow
    requires Valid(stmts, place)
    decreases place
  {
    var here := CheckSeq(slots, stmts[..place.index], s, depth);
    match place
    case At(_) => ReturnFlow(here.flow, here.defers)
    case In(i, arm, rest) =>
      var start := ArmEntry(slots, stmts[i], here, arm, depth);
      var inner := ReturnAt(slots, ArmBody(stmts[i], arm), Enter(start.flow, start.next), rest, ArmDepth(stmts[i], depth));
      ReturnFlow(Validate(inner.actions, inner.flow).flow, here.defers)
  }

  lemma {:induction false} ValidateExitsExactly(exits: seq<ReturnFlow>, e: ReturnFlow)
    ensures e in ValidateExits(exits) <==>
      exists x | x in exits :: e == ReturnFlow(Validate(x.actions, x.flow).flow, x.actions)
  {
    if exits != [] {
      ValidateExitsExactly(exits[1..], e);
      assert forall x :: x in exits <==> x == exits[0] || x in exits[1..];
    }
  }

  lemma {:induction false} LiftExactly(exits: seq<ReturnFlow>, defers: seq<Action>, e: ReturnFlow)
    ensures e in Lift(exits, defers) <==> exists x | x in exits :: e == ReturnFlow(x.flow, defers)
  {
    if exits != [] {
      LiftExactly(exits[1..], defers, e);
      assert forall x :: x in exits <==> x == exits[0] || x in exits[1..];
    }
  }

  lemma {:induction false} SomeExitFailsExactly(exits: seq<ReturnFlow>)
    ensures SomeExitFails(exits) <==> exists x | x in exits :: AnyReported(x.actions, x.flow)
  {
    if exits != [] {
      SomeExitFailsExactly(exits[1..]);
      FailsWhenReported(exits[0].actions, exits[0].flow);
      assert forall x :: x in exits <==> x == exits[0] || x in exits[1..];
    }
  }

  /** A scope is rejected exactly when a statement of it is, when it falls through and one of its
      deferred releases is reported there, or when one is at a recorded return. */
  lemma BlockVerdict(slots: Slots, stmts: seq<Stmt>, f: Flow, n: AllocationId, depth: nat)
    ensures var s := CheckSeq(slots, stmts, Enter(f, n), depth);
      CheckBlock(slots, stmts, f, n, depth).failed <==>
        || s.failed || (s.open && AnyReported(s.defers, s.flow))
        || exists e | e in s.exits :: AnyReported(e.actions, e.flow)
  {
    var s := CheckSeq(slots, stmts, Enter(f, n), depth);
    FailsWhenReported(s.defers, s.flow);
    SomeExitFailsExactly(s.exits);
  }

  /** The return at the place hands e to this scope. */
  ghost predicate Hands(slots: Slots, stmts: seq<Stmt>, s: Scope, place: Place, depth: nat, e: ReturnFlow) {
    Valid(stmts, place) && Recorded(slots, stmts, s, place, depth) && ReturnAt(slots, stmts, s, place, depth) == e
  }

  /** An accepted sequence has recorded exactly the returns it can come to. */
  lemma {:induction false} ExitsExactly(slots: Slots, stmts: seq<Stmt>, s: Scope, depth: nat, e: ReturnFlow)
    requires !CheckSeq(slots, stmts, s, depth).failed
    ensures e in CheckSeq(slots, stmts, s, depth).exits <==>
      e in s.exits || exists place :: Hands(slots, stmts, s, place, depth, e)
    decreases stmts, 1
  {
    if stmts == [] {
      forall place ensures !Hands(slots, stmts, s, place, depth, e) { }
    } else {
      var n := |stmts| - 1;
      var here := CheckSeq(slots, stmts[..n], s, depth);
      var r := CheckStmt(slots, stmts[n], here.(failed := false), depth);
      SeqSnoc(slots, stmts, s, depth);
      ExitsExactly(slots, stmts[..n], s, depth, e);
      StmtReturnsExactly(slots, stmts[n], here.(failed := false), depth, e);
      LastHands(slots, stmts, s, depth, e);
      forall place: Place ensures place.index < n ==> Hands(slots, stmts, s, place, depth, e) == Hands(slots, stmts[..n], s, place, depth, e) {
        if place.index < n { HandsBefore(slots, stmts, s, place, depth, e); }
      }
      forall place | Hands(slots, stmts[..n], s, place, depth, e) ensures place.index < n { }
      if place :| Hands(slots, stmts[..n], s, place, depth, e) { assert Hands(slots, stmts, s, place, depth, e); }
      if place :| Hands(slots, stmts, s, place, depth, e) {
        if place.index < n {
          assert Hands(slots, stmts[..n], s, place, depth, e);
        } else {
          assert HandsLast(slots, stmts, s, depth, e);
        }
      }
    }
  }

  lemma HandsBefore(slots: Slots, stmts: seq<Stmt>, s: Scope, place: Place, depth: nat, e: ReturnFlow)
    requires place.index < |stmts| - 1
    ensures Hands(slots, stmts, s, place, depth, e) == Hands(slots, stmts[..|stmts| - 1], s, place, depth, e)
  {
    assert stmts[..|stmts| - 1][..place.index] == stmts[..place.index];
  }

  ghost predicate HandsLast(slots: Slots, stmts: seq<Stmt>, s: Scope, depth: nat, e: ReturnFlow) {
    exists place: Place :: place.index == |stmts| - 1 && Hands(slots, stmts, s, place, depth, e)
  }

  /** What the last statement adds to the recorded returns. */
  lemma {:induction false} LastHands(slots: Slots, stmts: seq<Stmt>, s: Scope, depth: nat, e: ReturnFlow)
    requires stmts != [] && !CheckSeq(slots, stmts, s, depth).failed
    ensures var n := |stmts| - 1;
      var here := CheckSeq(slots, stmts[..n], s, depth);
      HandsLast(slots, stmts, s, depth, e) <==>
        (here.open &&
         ((stmts[n].Return? && e == ReturnFlow(here.flow, here.defers)) ||
          exists arm: nat :: ReturnsFrom(slots, stmts[n], here.(failed := false), arm, depth, e)))
    decreases stmts, 0
  {
    var n := |stmts| - 1;
    var stmt, here := stmts[n], CheckSeq(slots, stmts[..n], s, depth);
    SeqSnoc(slots, stmts, s, depth);
    StmtFailsExactly(slots, stmt, here.(failed := false), depth);
    if here.open {
      if stmt.Return? && e == ReturnFlow(here.flow, here.defers) {
        assert Hands(slots, stmts, s, At(n), depth, e);
      }
      forall arm: nat | HasArm(stmt, arm)
        ensures ArmReturns(slots, stmt, here.(failed := false), arm, depth, e) <==>
          exists rest :: Hands(slots, stmts, s, In(n, arm, rest), depth, e)
      {
        assert !FailsIn(slots, stmt, here.(failed := false), arm, depth);
        ArmHands(slots, stmts, s, arm, depth, e);
      }
      if arm: nat :| ReturnsFrom(slots, stmt, here.(failed := false), arm, depth, e) {
        var rest :| Hands(slots, stmts, s, In(n, arm, rest), depth, e);
      }
      if place: Place :| place.index == n && Hands(slots, stmts, s, place, depth, e) && place.In? {
        assert Hands(slots, stmts, s, In(n, place.arm, place.rest), depth, e);
        assert ReturnsFrom(slots, stmt, here.(failed := false), place.arm, depth, e);
      }
    }
  }

  /** What a scope around the arm gets for the return y that the arm's own scope recorded. */
  function Onward(y: ReturnFlow, defers: seq<Action>): ReturnFlow {
    ReturnFlow(Validate(y.actions, y.flow).flow, defers)
  }

  lemma ArmReturnsFrom(slots: Slots, stmt: Stmt, s: Scope, arm: nat, depth: nat, e: ReturnFlow)
    requires HasArm(stmt, arm)
    ensures var start := ArmEntry(slots, stmt, s, arm, depth);
      var inner := CheckSeq(slots, ArmBody(stmt, arm), Enter(start.flow, start.next), ArmDepth(stmt, depth));
      ArmReturns(slots, stmt, s, arm, depth, e) <==> exists y | y in inner.exits :: e == Onward(y, s.defers)
  {
    var start := ArmEntry(slots, stmt, s, arm, depth);
    var inner := CheckSeq(slots, ArmBody(stmt, arm), Enter(start.flow, start.next), ArmDepth(stmt, depth));
    var exits := ValidateExits(inner.exits);
    LiftExactly(exits, s.defers, e);
    if x :| x in exits && e == ReturnFlow(x.flow, s.defers) {
      ValidateExitsExactly(inner.exits, x);
      var y :| y in inner.exits && x == ReturnFlow(Validate(y.actions, y.flow).flow, y.actions);
      assert e == Onward(y, s.defers);
    }
    if y :| y in inner.exits && e == Onward(y, s.defers) {
      var x := ReturnFlow(Validate(y.actions, y.flow).flow, y.actions);
      ValidateExitsExactly(inner.exits, x);
      assert x in exits && e == ReturnFlow(x.flow, s.defers);
    }
  }

  lemma HandsInside(slots: Slots, stmts: seq<Stmt>, s: Scope, i: nat, arm: nat, rest: Place, depth: nat, e: ReturnFlow)
    requires i < |stmts| && HasArm(stmts[i], arm)
    ensures var here := CheckSeq(slots, stmts[..i], s, depth);
      var start := ArmEntry(slots, stmts[i], here, arm, depth);
      Hands(slots, stmts, s, In(i, arm, rest), depth, e) <==>
        here.open && HandsOn(slots, ArmBody(stmts[i], arm), start, rest, ArmDepth(stmts[i], depth), here.defers, e)
  {
    var here := CheckSeq(slots, stmts[..i], s, depth);
    var start := ArmEntry(slots, stmts[i], here, arm, depth);
    var body, deeper := ArmBody(stmts[i], arm), ArmDepth(stmts[i], depth);
    if Hands(slots, stmts, s, In(i, arm, rest), depth, e) {
      var y := ReturnAt(slots, body, Enter(start.flow, start.next), rest, deeper);
      assert Hands(slots, body, Enter(start.flow, start.next), rest, deeper, y) && e == Onward(y, here.defers);
    }
  }

  ghost predicate HandsOn(slots: Slots, body: seq<Stmt>, start: Start, rest: Place, depth: nat, defers: seq<Action>,
                          e: ReturnFlow)
  {
    exists y :: e == Onward(y, defers) && Hands(slots, body, Enter(start.flow, start.next), rest, depth, y)
  }

  /** A return of the last statement's arm is one the arm's own scope recorded, its releases run. */
  lemma {:induction false} ArmHands(slots: Slots, stmts: seq<Stmt>, s: Scope, arm: nat, depth: nat, e: ReturnFlow)
    requires stmts != [] && HasArm(stmts[|stmts| - 1], arm)
    requires var here := CheckSeq(slots, stmts[..|stmts| - 1], s, depth);
      here.open && !ArmFails(slots, stmts[|stmts| - 1], here.(failed := false), arm, depth)
    ensures var n := |stmts| - 1;
      var here := CheckSeq(slots, stmts[..n], s, depth);
      ArmReturns(slots, stmts[n], here.(failed := false), arm, depth, e) <==>
        exists rest :: Hands(slots, stmts, s, In(n, arm, rest), depth, e)
    decreases stmts, 0, 0
  {
    var n := |stmts| - 1;
    var stmt, here := stmts[n], CheckSeq(slots, stmts[..n], s, depth);
    var body, deeper := ArmBody(stmt, arm), ArmDepth(stmt, depth);
    var start := ArmEntry(slots, stmt, here, arm, depth);
    assert start == ArmEntry(slots, stmt, here.(failed := false), arm, depth);
    var entered := Enter(start.flow, start.next);
    ArmReturnsFrom(slots, stmt, here.(failed := false), arm, depth, e);
    if ArmReturns(slots, stmt, here.(failed := false), arm, depth, e) {
      var y :| y in CheckSeq(slots, body, entered, deeper).exits && e == Onward(y, here.defers);
      ExitsExactly(slots, body, entered, deeper, y);
      var rest :| Hands(slots, body, entered, rest, deeper, y);
      HandsInside(slots, stmts, s, n, arm, rest, depth, e);
    }
    if rest :| Hands(slots, stmts, s, In(n, arm, rest), depth, e) {
      HandsInside(slots, stmts, s, n, arm, rest, depth, e);
      var y :| e == Onward(y, here.defers) && Hands(slots, body, entered, rest, deeper, y);
      ExitsExactly(slots, body, entered, deeper, y);
    }
  }

  // ----- the whole body -----

  /** What is reported among the inner scopes' releases is reported among all. */
  lemma MoreReported(live: seq<Action>, inner: seq<Action>, f: Flow)
    ensures AnyReported(live + inner, f) <==>
      AnyReported(inner, f) || AnyReported(live, Validate(inner, f).flow)
  {
    ValidateInnerThenOuter(live, inner, f);
    FailsWhenReported(live + inner, f);
    FailsWhenReported(inner, f);
    FailsWhenReported(live, Validate(inner, f).flow);
  }

  lemma {:induction false} FaultMonotone(slots: Slots, stmts: seq<Stmt>, s: Scope, more: seq<Action>, live: seq<Action>,
                                         place: Place, depth: nat)
    requires Valid(stmts, place) && FaultAt(slots, stmts, s, live, place, depth)
    ensures FaultAt(slots, stmts, s, more + live, place, depth)
    decreases place
  {
    var here := CheckSeq(slots, stmts[..place.index], s, depth);
    assert (more + live) + here.defers == more + (live + here.defers);
    match place
    case At(i) => MoreReported(more, live + here.defers, here.flow);
    case In(i, arm, rest) =>
      var start := ArmEntry(slots, stmts[i], here, arm, depth);
      if here.open {
        FaultMonotone(slots, ArmBody(stmts[i], arm), Enter(start.flow, start.next), more, live + here.defers, rest,
                      ArmDepth(stmts[i], depth));
      }
  }

  /** A release reported at a recorded return, in this scope or around it, is a fault at the return. */
  lemma {:induction false} RecordedFault(slots: Slots, stmts: seq<Stmt>, s: Scope, live: seq<Action>, place: Place, depth: nat)
    requires Valid(stmts, place) && Recorded(slots, stmts, s, place, depth)
    requires var e := ReturnAt(slots, stmts, s, place, depth); AnyReported(live + e.actions, e.flow)
    ensures FaultAt(slots, stmts, s, live, place, depth)
    decreases place
  {
    var here := CheckSeq(slots, stmts[..place.index], s, depth);
    if place.In? {
      var stmt := stmts[place.index];
      var start := ArmEntry(slots, stmt, here, place.arm, depth);
      var body, deeper := ArmBody(stmt, place.arm), ArmDepth(stmt, depth);
      var inner := ReturnAt(slots, body, Enter(start.flow, start.next), place.rest, deeper);
      MoreReported(live + here.defers, inner.actions, inner.flow);
      RecordedFault(slots, body, Enter(start.flow, start.next), live + here.defers, place.rest, deeper);
    }
  }

  /** A rejected scope holds a fault. */
  lemma {:induction false} FailureHasFault(slots: Slots, stmts: seq<Stmt>, f: Flow, n: AllocationId, depth: nat) returns (place: Place)
    requires CheckBlock(slots, stmts, f, n, depth).failed
    ensures Valid(stmts, place) && FaultAt(slots, stmts, Enter(f, n), [], place, depth)
    decreases stmts, 1
  {
    var entered := Enter(f, n);
    var s := CheckSeq(slots, stmts, entered, depth);
    BlockVerdict(slots, stmts, f, n, depth);
    assert stmts[..|stmts|] == stmts;
    if s.failed {
      SeqFailsExactly(slots, stmts, entered, depth);
      var i :| 0 <= i < |stmts| && StepFails(slots, stmts, entered, depth, i);
      place := StatementHasFault(slots, stmts, f, n, i, depth);
    } else if s.open && AnyReported(s.defers, s.flow) {
      place := At(|stmts|);
    } else {
      var e :| e in s.exits && AnyReported(e.actions, e.flow);
      ExitsExactly(slots, stmts, entered, depth, e);
      place :| Hands(slots, stmts, entered, place, depth, e);
      assert [] + e.actions == e.actions;
      RecordedFault(slots, stmts, entered, [], place, depth);
    }
  }

  lemma {:induction false} StatementHasFault(slots: Slots, stmts: seq<Stmt>, f: Flow, n: AllocationId, i: nat, depth: nat)
    returns (place: Place)
    requires i < |stmts| && StepFails(slots, stmts, Enter(f, n), depth, i)
    ensures Valid(stmts, place) && FaultAt(slots, stmts, Enter(f, n), [], place, depth)
    decreases stmts, 0
  {
    var stmt, here := stmts[i], CheckSeq(slots, stmts[..i], Enter(f, n), depth);
    StmtFailsExactly(slots, stmt, here.(failed := false), depth);
    OwnFaultAfresh(slots, stmt, here, depth);
    place := At(i);
    if !OwnFault(slots, stmt, here.(failed := false), depth) {
      var arm: nat :| FailsIn(slots, stmt, here.(failed := false), arm, depth);
      var start := ArmEntry(slots, stmt, here, arm, depth);
      assert start == ArmEntry(slots, stmt, here.(failed := false), arm, depth);
      var rest := FailureHasFault(slots, ArmBody(stmt, arm), start.flow, start.next, ArmDepth(stmt, depth));
      var live := if here.open then [] + here.defers else [];
      FaultMonotone(slots, ArmBody(stmt, arm), Enter(start.flow, start.next), live, [], rest, ArmDepth(stmt, depth));
      assert live + [] == live;
      place := In(i, arm, rest);
    }
  }

  /** A fault rejects the scope it is in, or lies at a recorded return where it is still to be reported
      around it. */
  lemma {:induction false} FaultFails(slots: Slots, stmts: seq<Stmt>, f: Flow, n: AllocationId, live: seq<Action>,
                                      place: Place, depth: nat)
    requires Valid(stmts, place) && FaultAt(slots, stmts, Enter(f, n), live, place, depth)
    ensures CheckBlock(slots, stmts, f, n, depth).failed ||
      (Recorded(slots, stmts, Enter(f, n), place, depth) &&
       var e := ReturnAt(slots, stmts, Enter(f, n), place, depth); AnyReported(live, Validate(e.actions, e.flow).flow))
    decreases place, 1
  {
    var entered, i := Enter(f, n), place.index;
    var here := CheckSeq(slots, stmts[..i], entered, depth);
    BlockVerdict(slots, stmts, f, n, depth);
    if i == |stmts| {
      assert stmts[..i] == stmts;
    } else if place.At? {
      if OwnFault(slots, stmts[i], here, depth) {
        OwnFaultFails(slots, stmts, entered, i, depth);
      } else {
        MoreReported(live, here.defers, here.flow);
        ReportedFails(slots, stmts, f, n, place, depth);
      }
    } else {
      InnerFaultFails(slots, stmts, f, n, live, place, depth);
    }
  }

  lemma OwnFaultFails(slots: Slots, stmts: seq<Stmt>, s: Scope, i: nat, depth: nat)
    requires i < |stmts| && OwnFault(slots, stmts[i], CheckSeq(slots, stmts[..i], s, depth), depth)
    ensures CheckSeq(slots, stmts, s, depth).failed
  {
    var here := CheckSeq(slots, stmts[..i], s, depth);
    OwnFaultAfresh(slots, stmts[i], here, depth);
    StmtFailsExactly(slots, stmts[i], here.(failed := false), depth);
    SeqFailsExactly(slots, stmts, s, depth);
    assert StepFails(slots, stmts, s, depth, i);
  }

  /** What this scope's own releases report at a recorded return rejects it. */
  lemma ReportedFails(slots: Slots, stmts: seq<Stmt>, f: Flow, n: AllocationId, place: Place, depth: nat)
    requires Valid(stmts, place) && Recorded(slots, stmts, Enter(f, n), place, depth)
    ensures var e := ReturnAt(slots, stmts, Enter(f, n), place, depth);
      AnyReported(e.actions, e.flow) ==> CheckBlock(slots, stmts, f, n, depth).failed
  {
    var e := ReturnAt(slots, stmts, Enter(f, n), place, depth);
    BlockVerdict(slots, stmts, f, n, depth);
    if !CheckSeq(slots, stmts, Enter(f, n), depth).failed {
      assert Hands(slots, stmts, Enter(f, n), place, depth, e);
      ExitsExactly(slots, stmts, Enter(f, n), depth, e);
    }
  }

  lemma {:induction false} InnerFaultFails(slots: Slots, stmts: seq<Stmt>, f: Flow, n: AllocationId, live: seq<Action>,
                                           place: Place, depth: nat)
    requires Valid(stmts, place) && place.In? && FaultAt(slots, stmts, Enter(f, n), live, place, depth)
    ensures CheckBlock(slots, stmts, f, n, depth).failed ||
      (Recorded(slots, stmts, Enter(f, n), place, depth) &&
       var e := ReturnAt(slots, stmts, Enter(f, n), place, depth); AnyReported(live, Validate(e.actions, e.flow).flow))
    decreases place, 0
  {
    var entered, i, arm, rest := Enter(f, n), place.index, place.arm, place.rest;
    var here := CheckSeq(slots, stmts[..i], entered, depth);
    var start := ArmEntry(slots, stmts[i], here, arm, depth);
    var body, deeper := ArmBody(stmts[i], arm), ArmDepth(stmts[i], depth);
    var around := if here.open then live + here.defers else [];
    FaultFails(slots, body, start.flow, start.next, around, rest, deeper);
    if CheckBlock(slots, body, start.flow, start.next, deeper).failed {
      assert start == ArmEntry(slots, stmts[i], here.(failed := false), arm, depth);
      assert FailsIn(slots, stmts[i], here.(failed := false), arm, depth);
      StmtFailsExactly(slots, stmts[i], here.(failed := false), depth);
      SeqFailsExactly(slots, stmts, entered, depth);
      assert StepFails(slots, stmts, entered, depth, i);
    } else {
      var inner := ReturnAt(slots, body, Enter(start.flow, start.next), rest, deeper);
      assert here.open;
      MoreReported(live, here.defers, Validate(inner.actions, inner.flow).flow);
      ReportedFails(slots, stmts, f, n, place, depth);
    }
  }

  /** No fault at the outermost scope goes unreported. */
  lemma FaultRejects(slots: Slots, body: seq<Stmt>, f: Flow, n: AllocationId, place: Place, depth: nat)
    requires Valid(body, place) && FaultAt(slots, body, Enter(f, n), [], place, depth)
    ensures CheckBlock(slots, body, f, n, depth).failed
  {
    FaultFails(slots, body, f, n, [], place, depth);
    forall g ensures !AnyReported([], g) { }
  }

  ghost predicate Faulty(slots: Slots, body: seq<Stmt>, f: Flow, n: AllocationId, depth: nat) {
    exists place :: Valid(body, place) && FaultAt(slots, body, Enter(f, n), [], place, depth)
  }

  /** Checking rejects a body if and only if some place of it holds a fault. */
  lemma RejectedExactly(slots: Slots, body: seq<Stmt>, f: Flow, n: AllocationId, depth: nat)
    ensures CheckBlock(slots, body, f, n, depth).failed <==> Faulty(slots, body, f, n, depth)
  {
    if CheckBlock(slots, body, f, n, depth).failed {
      var place := FailureHasFault(slots, body, f, n, depth);
    }
    if Faulty(slots, body, f, n, depth) {
      var place :| Valid(body, place) && FaultAt(slots, body, Enter(f, n), [], place, depth);
      FaultRejects(slots, body, f, n, place, depth);
    }
  }

  // ----- what is always reported -----

  /** The scopes around a place hold what PointAt collects there. */
  lemma {:induction false} UseIsFault(slots: Slots, stmts: seq<Stmt>, s: Scope, outer: seq<Action>, live: seq<Action>,
                                      place: Place, depth: nat, b: BindingId)
    requires Valid(stmts, place) && BeforeStatement(stmts, place)
    requires StatementAt(stmts, place) == Free(b) || StatementAt(stmts, place) == Deref(b)
    requires ReleasedIn(PointAt(slots, stmts, s, outer, place, depth).flow, b)
    ensures FaultAt(slots, stmts, s, live, place, depth)
    decreases place
  {
    if place.In? {
      var here := CheckSeq(slots, stmts[..place.index], s, depth);
      var start := ArmEntry(slots, stmts[place.index], here, place.arm, depth);
      UseIsFault(slots, ArmBody(stmts[place.index], place.arm), Enter(start.flow, start.next), outer + here.defers,
                 if here.open then live + here.defers else [], place.rest, ArmDepth(stmts[place.index], depth), b);
    }
  }

  /** Wherever a released slot is released again or read through, in any nest of branches and loops,
      the body is rejected; and a release or read of any other slot adds no rejection of its own. */
  lemma ReleasedUseIsReported(slots: Slots, body: seq<Stmt>, place: Place, b: BindingId)
    requires Valid(body, place) && BeforeStatement(body, place)
    requires StatementAt(body, place) == Free(b) || StatementAt(body, place) == Deref(b)
    ensures var f := BodyPoint(slots, body, place).flow;
      b in f.tracked && b in f.allocation && f.allocation[b] != 0 && f.allocation[b] in f.freed ==>
        CheckBlock(slots, body, EMPTY_FLOW, 0, 0).failed
    ensures forall s: Scope, depth | s.flow == BodyPoint(slots, body, place).flow ::
      CheckStmt(slots, StatementAt(body, place), s, depth).failed <==> s.failed || ReleasedIn(s.flow, b)
  {
    var f := BodyPoint(slots, body, place).flow;
    if ReleasedIn(f, b) {
      UseIsFault(slots, body, Enter(EMPTY_FLOW, 0), [], [], place, 0, b);
      FaultRejects(slots, body, EMPTY_FLOW, 0, place, 0);
    }
  }

  lemma {:induction false} ReturnIsFault(slots: Slots, stmts: seq<Stmt>, s: Scope, outer: seq<Action>, place: Place, depth: nat)
    requires Valid(stmts, place) && Recorded(slots, stmts, s, place, depth)
    requires var p := PointAt(slots, stmts, s, outer, place, depth); AnyReported(p.actions, p.flow)
    ensures FaultAt(slots, stmts, s, outer, place, depth)
    decreases place
  {
    if place.In? {
      var here := CheckSeq(slots, stmts[..place.index], s, depth);
      var start := ArmEntry(slots, stmts[place.index], here, place.arm, depth);
      ReturnIsFault(slots, ArmBody(stmts[place.index], place.arm), Enter(start.flow, start.next), outer + here.defers,
                    place.rest, ArmDepth(stmts[place.index], depth));
    }
  }

  /** A return that can be come to, at which some pending deferred release of any enclosing scope is
      reported, rejects the body; and so does such an end of the body. */
  lemma ExitIsReported(slots: Slots, body: seq<Stmt>, place: Place)
    requires Valid(body, place)
    requires Recorded(slots, body, Enter(EMPTY_FLOW, 0), place, 0) ||
      (place == At(|body|) && CheckSeq(slots, body, Enter(EMPTY_FLOW, 0), 0).open)
    requires var p := BodyPoint(slots, body, place); AnyReported(p.actions, p.flow)
    ensures CheckBlock(slots, body, EMPTY_FLOW, 0, 0).failed
  {
    if place == At(|body|) {
      var s := CheckSeq(slots, body, Enter(EMPTY_FLOW, 0), 0);
      assert body[..|body|] == body && [] + s.defers == s.defers;
      BlockVerdict(slots, body, EMPTY_FLOW, 0, 0);
    } else {
      ReturnIsFault(slots, body, Enter(EMPTY_FLOW, 0), [], place, 0);
      FaultRejects(slots, body, EMPTY_FLOW, 0, place, 0);
    }
  }
}
