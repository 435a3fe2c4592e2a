/** Programs on which a claim of the flow facts is false: each shows that a guard the soundness
    theorems demand cannot be dropped. */
module FlowLimits {
  import opened Syntax
  import opened FlowFacts
  import opened FlowAnalysis
  import opened FlowSemantics
  import opened FlowPlaces
  import opened FlowClaims

  const HELD: Kind := 1

  const SLOTS: Slots := map[1 := {HELD}, 2 := {HELD}, 3 := {HELD}]

  const START := Machine(map[], {}, {}, [])

  function Held(m: Machine, b: BindingId, h: Handle): Machine {
    m.(env := m.env[b := Value(h, HELD)])
  }

  /** The head of a sequence is a simple statement, and nothing is written through an escaped
      address after it. */
  lemma Run(head: Stmt, tail: seq<Stmt>, m: Machine, mid: Machine, m': Machine)
    requires Simple(head) && Exit(head) == Fell && Does(SLOTS, head, m, mid) && mid.exposed == {}
    requires ExecSeq(SLOTS, tail, mid, Outcome(Fell, m'))
    ensures ExecSeq(SLOTS, [head] + tail, m, Outcome(Fell, m'))
  {
    assert Scribbled(SLOTS, mid, mid);
    assert Exec(SLOTS, head, m, Outcome(Fell, mid));
    assert ([head] + tail)[1..] == tail;
  }

  /** The head is any statement that falls through. */
  lemma RunAny(head: Stmt, tail: seq<Stmt>, m: Machine, mid: Machine, m': Machine)
    requires Exec(SLOTS, head, m, Outcome(Fell, mid)) && ExecSeq(SLOTS, tail, mid, Outcome(Fell, m'))
    ensures ExecSeq(SLOTS, [head] + tail, m, Outcome(Fell, m'))
  {
    assert ([head] + tail)[1..] == tail;
  }

  lemma Check(head: Stmt, tail: seq<Stmt>, s: Scope)
    ensures CheckSeq(SLOTS, [head] + tail, s, 0) == CheckSeq(SLOTS, tail, Step(SLOTS, head, s, 0), 0)
  {
    assert ([head] + tail)[1..] == tail;
  }

  /** A scope that still falls through, with nothing deferred and no return. */
  function Open(f: Flow, next: AllocationId): Scope {
    Scope(f, next, [], [], false, true)
  }

  /** The facts of slots whose identities are `allocation`. */
  function Tracking(allocation: map<BindingId, AllocationId>, freed: set<AllocationId>): Flow {
    Flow(map b | b in allocation :: BLANK, allocation.Keys, allocation, freed)
  }

  // ----- an untracked source leaves the target its old identity -----

  /** Slot 2 is a parameter: its caller gave it a value, and nothing tracks it. */
  function Given(): Machine {
    Held(START, 2, 20)
  }

  const KEPT: seq<Stmt> := [Declare(1, true, Other)] + ([Free(1)] + ([Assign(1, Copy(2))] + []))

  /** A later release of slot 1 is reported, yet it would release a live value. */
  lemma UntrackedSourceMisreports() returns (m: Machine)
    ensures var body := KEPT + [Free(1)];
      && Valid(body, At(3)) && Initial(SLOTS, Given()) && Reaches(SLOTS, body, Given(), At(3), m)
      && Freed(BodyPoint(SLOTS, body, At(3)).flow, 1)
      && 1 in m.env && m.env[1].handle !in m.released
  {
    m := KeptRun();
    KeptCheck();
    assert (KEPT + [Free(1)])[..3] == KEPT;
  }

  lemma KeptRun() returns (m: Machine)
    ensures ExecSeq(SLOTS, KEPT, Given(), Outcome(Fell, m)) && 1 in m.env && m.env[1].handle !in m.released
  {
    var m1 := Held(Given(), 1, 10);
    var m2 := m1.(released := {10});
    m := Held(m2, 1, 20);
    Run(Assign(1, Copy(2)), [], m2, m, m);
    Run(Free(1), [Assign(1, Copy(2))] + [], m1, m2, m);
    Run(Declare(1, true, Other), [Free(1)] + ([Assign(1, Copy(2))] + []), Given(), m1, m);
  }

  lemma KeptCheck()
    ensures CheckSeq(SLOTS, KEPT, Enter(EMPTY_FLOW, 0), 0).flow == Tracking(map[1 := 1], {1})
  {
    var s1 := Open(Tracking(map[1 := 1], {}), 1);
    var s2 := Open(Tracking(map[1 := 1], {1}), 1);
    Check(Declare(1, true, Other), [Free(1)] + ([Assign(1, Copy(2))] + []), Enter(EMPTY_FLOW, 0));
    assert Step(SLOTS, Declare(1, true, Other), Enter(EMPTY_FLOW, 0), 0) == s1;
    Check(Free(1), [Assign(1, Copy(2))] + [], s1);
    assert Step(SLOTS, Free(1), s1, 0) == s2;
    Check(Assign(1, Copy(2)), [], s2);
    assert Step(SLOTS, Assign(1, Copy(2)), s2, 0) == s2;
  }

  // ----- a tracked source re-tracks a slot whose address is held -----

  const RETRACKED: seq<Stmt> :=
    [Declare(1, true, Other)] + ([Declare(2, true, Other)] + ([Expose(2)] + ([Assign(2, Copy(1))] + ([Free(1)] + []))))

  /** Slots 1 and 2 hold the allocation 10, and the address of slot 2 is held. */
  function Exposing(): Machine {
    Machine(map[1 := Value(10, HELD), 2 := Value(10, HELD)], {}, {2}, [])
  }

  /** Slot 2 names slot 1's allocation when that is released, but a value written through its address
      meanwhile is live; releasing that is reported. */
  lemma EscapedTargetMisreports() returns (m: Machine)
    ensures var body := RETRACKED + [Free(2)];
      && Valid(body, At(5)) && Initial(SLOTS, START) && Reaches(SLOTS, body, START, At(5), m)
      && Freed(BodyPoint(SLOTS, body, At(5)).flow, 2)
      && 2 in m.env && m.env[2].handle !in m.released
  {
    m := RetrackedRun();
    RetrackedCheck();
    assert (RETRACKED + [Free(2)])[..5] == RETRACKED;
  }

  lemma RetrackedRun() returns (m: Machine)
    ensures ExecSeq(SLOTS, RETRACKED, START, Outcome(Fell, m)) && 2 in m.env && m.env[2].handle !in m.released
  {
    var m1 := Held(START, 1, 10);
    var m2 := Held(m1, 2, 20);
    m := Written();
    ExposedRun(m2);
    Run(Declare(2, true, Other), [Expose(2)] + ([Assign(2, Copy(1))] + ([Free(1)] + [])), m1, m2, m);
    Run(Declare(1, true, Other), [Declare(2, true, Other)] + ([Expose(2)] + ([Assign(2, Copy(1))] + ([Free(1)] + []))),
        START, m1, m);
  }

  /** The release done, slot 2 written through its address. */
  function Written(): Machine {
    Machine(map[1 := Value(10, HELD), 2 := Value(30, HELD)], {10}, {2}, [])
  }

  lemma ExposedRun(m2: Machine)
    requires m2 == Held(Held(START, 1, 10), 2, 20)
    ensures ExecSeq(SLOTS, [Expose(2)] + ([Assign(2, Copy(1))] + ([Free(1)] + [])), m2, Outcome(Fell, Written()))
  {
    var m3 := m2.(exposed := {2});
    ReleasedRun();
    assert Does(SLOTS, Assign(2, Copy(1)), m3, Exposing());
    RunHeld(Assign(2, Copy(1)), [Free(1)] + [], m3, Exposing(), Written());
    assert Does(SLOTS, Expose(2), m2, m3);
    RunHeld(Expose(2), [Assign(2, Copy(1))] + ([Free(1)] + []), m2, m3, Written());
  }

  lemma ReleasedRun()
    ensures ExecSeq(SLOTS, [Free(1)] + [], Exposing(), Outcome(Fell, Written()))
  {
    var m5 := Exposing().(released := {10});
    assert Does(SLOTS, Free(1), Exposing(), m5) && Scribbled(SLOTS, m5, Written());
    RunAny(Free(1), [], Exposing(), Written(), Written());
  }

  /** The head is a simple statement, and nothing is written through the addresses held after it. */
  lemma RunHeld(head: Stmt, tail: seq<Stmt>, m: Machine, mid: Machine, m': Machine)
    requires Simple(head) && Exit(head) == Fell && Does(SLOTS, head, m, mid)
    requires forall b | b in mid.env :: Holds(SLOTS, b, mid.env[b])
    requires ExecSeq(SLOTS, tail, mid, Outcome(Fell, m'))
    ensures ExecSeq(SLOTS, [head] + tail, m, Outcome(Fell, m'))
  {
    assert Scribbled(SLOTS, mid, mid);
    RunAny(head, tail, m, mid, m');
  }

  lemma RetrackedCheck()
    ensures var f := CheckSeq(SLOTS, RETRACKED, Enter(EMPTY_FLOW, 0), 0).flow;
      2 in f.tracked && 2 in f.allocation && f.allocation[2] == 1 && 1 in f.freed
  {
    var s1 := Open(Tracking(map[1 := 1], {}), 1);
    var s2 := Open(Tracking(map[1 := 1, 2 := 2], {}), 2);
    Check(Declare(1, true, Other), [Declare(2, true, Other)] + ([Expose(2)] + ([Assign(2, Copy(1))] + ([Free(1)] + []))),
          Enter(EMPTY_FLOW, 0));
    assert Step(SLOTS, Declare(1, true, Other), Enter(EMPTY_FLOW, 0), 0) == s1;
    Check(Declare(2, true, Other), [Expose(2)] + ([Assign(2, Copy(1))] + ([Free(1)] + [])), s1);
    assert Step(SLOTS, Declare(2, true, Other), s1, 0) == s2;
    RetrackedTail(s2);
  }

  lemma RetrackedTail(s2: Scope)
    requires s2 == Open(Tracking(map[1 := 1, 2 := 2], {}), 2)
    ensures var f := CheckSeq(SLOTS, [Expose(2)] + ([Assign(2, Copy(1))] + ([Free(1)] + [])), s2, 0).flow;
      2 in f.tracked && 2 in f.allocation && f.allocation[2] == 1 && 1 in f.freed
  {
    Check(Expose(2), [Assign(2, Copy(1))] + ([Free(1)] + []), s2);
    var s3 := Step(SLOTS, Expose(2), s2, 0);
    assert s3.flow.tracked == {1} && s3.flow.allocation == map[1 := 1];
    Check(Assign(2, Copy(1)), [Free(1)] + [], s3);
    var s4 := Step(SLOTS, Assign(2, Copy(1)), s3, 0);
    assert s4.flow.tracked == {1, 2} && s4.flow.allocation == map[1 := 1, 2 := 1];
    Check(Free(1), [], s4);
  }

  // ----- a rejected compound statement is rolled back, but it still runs -----

  const EITHER := If(Opaque([]), [Free(1)] + [], [], Else([Assign(1, Other)] + []))

  const ROLLED: seq<Stmt> := [Declare(1, true, Other)] + ([Free(1)] + ([EITHER] + []))

  /** The double free inside the if is definite; the one reported after it is not. */
  lemma ReportAfterRollbackMisreports() returns (m: Machine)
    ensures var body := ROLLED + [Free(1)];
      && Valid(body, At(3)) && Reaches(SLOTS, body, START, At(3), m)
      && Freed(BodyPoint(SLOTS, body, At(3)).flow, 1)
      && 1 in m.env && m.env[1].handle !in m.released
  {
    m := RolledRun();
    RolledCheck();
    assert (ROLLED + [Free(1)])[..3] == ROLLED;
  }

  lemma RolledRun() returns (m: Machine)
    ensures ExecSeq(SLOTS, ROLLED, START, Outcome(Fell, m)) && 1 in m.env && m.env[1].handle !in m.released
  {
    var m1 := Held(START, 1, 10);
    var m2 := m1.(released := {10});
    m := Held(m2, 1, 20);
    Run(Assign(1, Other), [], m2, m, m);
    assert Decides(SLOTS, Opaque([]), m2, false, m2);
    Whole([Assign(1, Other)] + [], m2, m);
    assert ExecElse(SLOTS, EITHER, 0, m2, Outcome(Fell, m));
    assert Exec(SLOTS, EITHER, m2, Outcome(Fell, m));
    RunAny(EITHER, [], m2, m, m);
    Run(Free(1), [EITHER] + [], m1, m2, m);
    Run(Declare(1, true, Other), [Free(1)] + ([EITHER] + []), START, m1, m);
  }

  /** A sequence that registers no release runs as a block the same way. */
  lemma Whole(stmts: seq<Stmt>, m: Machine, m': Machine)
    requires ExecSeq(SLOTS, stmts, m, Outcome(Fell, m')) && m.pending == [] == m'.pending
    ensures ExecBlock(SLOTS, stmts, m, Outcome(Fell, m'))
  {
    assert Unwind(m', 0) == m' by {
      assert Unwind(m', 0).released == m'.released;
    }
  }

  lemma RolledCheck()
    ensures CheckSeq(SLOTS, ROLLED, Enter(EMPTY_FLOW, 0), 0).flow == Tracking(map[1 := 1], {1})
  {
    var s1 := Open(Tracking(map[1 := 1], {}), 1);
    var s2 := Open(Tracking(map[1 := 1], {1}), 1);
    Check(Declare(1, true, Other), [Free(1)] + ([EITHER] + []), Enter(EMPTY_FLOW, 0));
    assert Step(SLOTS, Declare(1, true, Other), Enter(EMPTY_FLOW, 0), 0) == s1;
    Check(Free(1), [EITHER] + [], s1);
    assert Step(SLOTS, Free(1), s1, 0) == s2;
    Check(EITHER, [], s2);
    Check(Free(1), [], Enter(s2.flow, 1));
    assert CheckBlock(SLOTS, EITHER.thn, s2.flow, 1, 0).failed;
    assert CheckStmt(SLOTS, EITHER, s2, 0).failed;
  }

  // ----- one pass over a loop body does not see what two iterations do -----

  const SHIFT: seq<Stmt> := [Assign(2, Copy(1))] + ([Assign(1, Other)] + [])

  const SHIFTING := While(Opaque([]), SHIFT)

  const LOOPED: seq<Stmt> :=
    [Declare(1, true, Other)] + ([Declare(2, true, Copy(1))] + ([Declare(3, true, Copy(1))] + ([SHIFTING] + ([Free(3)] + []))))

  /** Slots 2 and 3 are one allocation before the loop and after one iteration, but not after
      two; releasing slot 3 after the loop still marks slot 2 released. */
  lemma LoopMisreports() returns (m: Machine)
    ensures var body := LOOPED + [Free(2)];
      && Valid(body, At(5)) && Reaches(SLOTS, body, START, At(5), m)
      && Freed(BodyPoint(SLOTS, body, At(5)).flow, 2)
      && 2 in m.env && m.env[2].handle !in m.released
  {
    m := LoopedRun();
    LoopedCheck();
    assert (LOOPED + [Free(2)])[..5] == LOOPED;
  }

  lemma Iteration(m: Machine, h: Handle) returns (m': Machine)
    requires 1 in m.env && 2 in m.env && m.exposed == {} && m.pending == []
    requires m.env[1].kind == HELD
    ensures m' == m.(env := m.env[2 := m.env[1]][1 := Value(h, HELD)])
    ensures ExecBlock(SLOTS, SHIFT, m, Outcome(Fell, m'))
  {
    var mid := m.(env := m.env[2 := m.env[1]]);
    m' := Held(mid, 1, h);
    Run(Assign(1, Other), [], mid, m', m');
    Run(Assign(2, Copy(1)), [Assign(1, Other)] + [], m, mid, m');
    Whole(SHIFT, m, m');
  }

  lemma Stops(body: seq<Stmt>, m: Machine)
    requires m.exposed == {}
    ensures ExecLoop(SLOTS, Opaque([]), body, 0, m, Outcome(Fell, m))
  {
    assert Decides(SLOTS, Opaque([]), m, false, m);
  }

  lemma Turns(body: seq<Stmt>, n: nat, m: Machine, once: Machine, o: Outcome)
    requires m.exposed == {} && ExecBlock(SLOTS, body, m, Outcome(Fell, once))
    requires ExecLoop(SLOTS, Opaque([]), body, n, once, o)
    ensures ExecLoop(SLOTS, Opaque([]), body, n + 1, m, o)
  {
    assert Decides(SLOTS, Opaque([]), m, true, m);
  }

  lemma Twice(m: Machine, once: Machine, twice: Machine)
    requires m.exposed == once.exposed == twice.exposed == {}
    requires ExecBlock(SLOTS, SHIFT, m, Outcome(Fell, once)) && ExecBlock(SLOTS, SHIFT, once, Outcome(Fell, twice))
    ensures Exec(SLOTS, SHIFTING, m, Outcome(Fell, twice))
  {
    Stops(SHIFT, twice);
    Turns(SHIFT, 0, once, twice, Outcome(Fell, twice));
    Turns(SHIFT, 1, m, once, Outcome(Fell, twice));
  }

  /** From three slots holding one allocation. */
  lemma LoopRun(m: Machine) returns (m': Machine)
    requires m == Machine(map[1 := Value(10, HELD), 2 := Value(10, HELD), 3 := Value(10, HELD)], {}, {}, [])
    ensures ExecSeq(SLOTS, [SHIFTING] + ([Free(3)] + []), m, Outcome(Fell, m'))
    ensures 2 in m'.env && m'.env[2].handle !in m'.released
  {
    var once := Iteration(m, 20);
    var twice := Iteration(once, 30);
    Twice(m, once, twice);
    m' := twice.(released := {10});
    Run(Free(3), [], twice, m', m');
    RunAny(SHIFTING, [Free(3)] + [], m, twice, m');
  }

  lemma LoopedRun() returns (m: Machine)
    ensures ExecSeq(SLOTS, LOOPED, START, Outcome(Fell, m)) && 2 in m.env && m.env[2].handle !in m.released
  {
    var tail := [SHIFTING] + ([Free(3)] + []);
    var m1 := Held(START, 1, 10);
    var m2 := Held(m1, 2, 10);
    var m3 := Held(m2, 3, 10);
    m := LoopRun(m3);
    Run(Declare(3, true, Copy(1)), tail, m2, m3, m);
    Run(Declare(2, true, Copy(1)), [Declare(3, true, Copy(1))] + tail, m1, m2, m);
    Run(Declare(1, true, Other), [Declare(2, true, Copy(1))] + ([Declare(3, true, Copy(1))] + tail), START, m1, m);
  }

  /** One allocation in three slots. */
  function Shared(): Scope {
    Open(Tracking(map[1 := 1, 2 := 1, 3 := 1], {}), 3)
  }

  lemma LoopedCheck()
    ensures var f := CheckSeq(SLOTS, LOOPED, Enter(EMPTY_FLOW, 0), 0).flow;
      2 in f.tracked && 2 in f.allocation && f.allocation[2] == 1 && 1 in f.freed
  {
    var tail := [SHIFTING] + ([Free(3)] + []);
    DeclareThree(tail);
    JoinedCheck();
    var after := Step(SLOTS, SHIFTING, Shared(), 0);
    Check(SHIFTING, [Free(3)] + [], Shared());
    Check(Free(3), [], after);
    assert TrackedAllocation(after.flow, 3) == 1;
  }

  lemma DeclareThree(tail: seq<Stmt>)
    ensures CheckSeq(SLOTS, [Declare(1, true, Other)] + ([Declare(2, true, Copy(1))] + ([Declare(3, true, Copy(1))] + tail)),
                     Enter(EMPTY_FLOW, 0), 0)
         == CheckSeq(SLOTS, tail, Shared(), 0)
  {
    var s1 := Open(Tracking(map[1 := 1], {}), 1);
    var s2 := Open(Tracking(map[1 := 1, 2 := 1], {}), 2);
    Check(Declare(1, true, Other), [Declare(2, true, Copy(1))] + ([Declare(3, true, Copy(1))] + tail), Enter(EMPTY_FLOW, 0));
    assert Step(SLOTS, Declare(1, true, Other), Enter(EMPTY_FLOW, 0), 0) == s1;
    Check(Declare(2, true, Copy(1)), [Declare(3, true, Copy(1))] + tail, s1);
    ShareSecond(s1, s2);
    Check(Declare(3, true, Copy(1)), tail, s2);
    ShareThird(s2);
  }

  lemma ShareSecond(s1: Scope, s2: Scope)
    requires s1 == Open(Tracking(map[1 := 1], {}), 1) && s2 == Open(Tracking(map[1 := 1, 2 := 1], {}), 2)
    ensures Step(SLOTS, Declare(2, true, Copy(1)), s1, 0) == s2
  {
    assert Step(SLOTS, Declare(2, true, Copy(1)), s1, 0).flow == s2.flow;
  }

  lemma ShareThird(s2: Scope)
    requires s2 == Open(Tracking(map[1 := 1, 2 := 1], {}), 2)
    ensures Step(SLOTS, Declare(3, true, Copy(1)), s2, 0) == Shared()
  {
    assert Step(SLOTS, Declare(3, true, Copy(1)), s2, 0).flow == Shared().flow;
  }

  /** The body checked once moves only slot 1 to a new identity. */
  lemma ShiftCheck()
    ensures CheckBlock(SLOTS, SHIFT, Shared().flow, 3, 1)
         == Open(Tracking(map[1 := 4, 2 := 1, 3 := 1], {}), 4)
  {
    var e := Enter(Shared().flow, 3);
    var moved := Open(Tracking(map[1 := 4, 2 := 1, 3 := 1], {}), 4);
    assert ([Assign(2, Copy(1))] + ([Assign(1, Other)] + []))[1..] == [Assign(1, Other)];
    assert [Assign(1, Other)][1..] == [];
    assert Step(SLOTS, Assign(2, Copy(1)), e, 1).flow == e.flow;
    assert Step(SLOTS, Assign(1, Other), e, 1).flow == moved.flow;
    assert CheckSeq(SLOTS, [Assign(1, Other)], e, 1) == moved;
    assert CheckSeq(SLOTS, SHIFT, e, 1) == moved;
  }

  lemma JoinedCheck()
    ensures var f := Step(SLOTS, SHIFTING, Shared(), 0).flow;
      2 in f.tracked && 3 in f.tracked && TrackedAllocation(f, 2) == 1 && TrackedAllocation(f, 3) == 1
  {
    ShiftCheck();
    var branches := [Shared().flow, Tracking(map[1 := 4, 2 := 1, 3 := 1], {})];
    assert branches[0] == Shared().flow && branches[1] == Tracking(map[1 := 4, 2 := 1, 3 := 1], {});
    assert Agreed(branches, 2, 1) && Agreed(branches, 3, 1);
    assert CheckStmt(SLOTS, SHIFTING, Shared(), 0).flow == Merge(Shared().flow, branches);
  }

  // ----- a release registered while its binding was untracked -----

  const REPLACED := If(Opaque([]), [Assign(1, Other)] + [], [], NoElse)

  const REDIRECTED: seq<Stmt> :=
    [Declare(1, true, Other)] + ([Declare(2, true, Other)] + ([REPLACED] +
    ([DeferFree(2)] + ([DeferFree(1)] + ([Assign(1, Copy(2))] + [])))))

  /** Slot 1 is untracked when its release is registered, because the branches disagree on it;
      by the exit it names slot 2's allocation, and the exit reports slot 2's own release. */
  lemma UncapturedReleaseMisreports() returns (m: Machine)
    ensures var body := REDIRECTED + [Return];
      && Valid(body, At(6)) && Reaches(SLOTS, body, START, At(6), m) && |m.pending| == 2
      && m.pending[0] !in Unwind(m, 1).released
      && var p := BodyPoint(SLOTS, body, At(6));
         |p.actions| == 2 && Reported(p.actions, p.flow, 0)
  {
    m := RedirectedRun();
    RedirectedCheck();
    var body := REDIRECTED + [Return];
    assert body[..6] == REDIRECTED;
    var p := BodyPoint(SLOTS, body, At(6));
    UncapturedMarks(p.actions, p.flow);
  }

  /** An uncaptured release of slot 1 marks what slot 1 names at the exit. */
  lemma UncapturedMarks(actions: seq<Action>, f: Flow)
    requires actions == [Action(2, 2), Action(1, 0)] && TrackedAllocation(f, 1) == 2 && f.freed == {}
    ensures Reported(actions, f, 0)
  {
    assert actions[1..] == [Action(1, 0)];
    assert [Action(1, 0)][..0] == [];
  }

  /** Two releases registered, then slot 1 redirected to slot 2's allocation. */
  const REDIRECT: seq<Stmt> := [DeferFree(2)] + ([DeferFree(1)] + ([Assign(1, Copy(2))] + []))

  lemma RedirectRun(m: Machine) returns (m': Machine)
    requires m == Machine(map[1 := Value(10, HELD), 2 := Value(20, HELD)], {}, {}, [])
    ensures ExecSeq(SLOTS, REDIRECT, m, Outcome(Fell, m'))
    ensures m'.pending == [20, 10] && m'.released == {}
  {
    var m1 := m.(pending := m.pending + [20]);
    var m2 := m1.(pending := m1.pending + [10]);
    m' := Held(m2, 1, 20);
    Run(Assign(1, Copy(2)), [], m2, m', m');
    Run(DeferFree(1), [Assign(1, Copy(2))] + [], m1, m2, m');
    Run(DeferFree(2), [DeferFree(1)] + ([Assign(1, Copy(2))] + []), m, m1, m');
  }

  lemma SkipReplaced(m: Machine)
    requires m.exposed == {}
    ensures Exec(SLOTS, REPLACED, m, Outcome(Fell, m))
  {
    assert Decides(SLOTS, Opaque([]), m, false, m);
    assert ExecElse(SLOTS, REPLACED, 0, m, Outcome(Fell, m));
  }

  lemma RedirectedRun() returns (m: Machine)
    ensures ExecSeq(SLOTS, REDIRECTED, START, Outcome(Fell, m))
    ensures m.pending == [20, 10] && m.released == {}
  {
    var m1 := Held(START, 1, 10);
    var m2 := Held(m1, 2, 20);
    m := RedirectRun(m2);
    SkipReplaced(m2);
    RunAny(REPLACED, REDIRECT, m2, m2, m);
    Run(Declare(2, true, Other), [REPLACED] + REDIRECT, m1, m2, m);
    Run(Declare(1, true, Other), [Declare(2, true, Other)] + ([REPLACED] + REDIRECT), START, m1, m);
  }

  lemma RedirectedCheck()
    ensures var s := CheckSeq(SLOTS, REDIRECTED, Enter(EMPTY_FLOW, 0), 0);
      && s.defers == [Action(2, 2), Action(1, 0)]
      && TrackedAllocation(s.flow, 1) == 2 && s.flow.freed == {}
  {
    var s1 := Open(Tracking(map[1 := 1], {}), 1);
    var s2 := Open(Tracking(map[1 := 1, 2 := 2], {}), 2);
    Check(Declare(1, true, Other), [Declare(2, true, Other)] + ([REPLACED] + REDIRECT), Enter(EMPTY_FLOW, 0));
    assert Step(SLOTS, Declare(1, true, Other), Enter(EMPTY_FLOW, 0), 0) == s1;
    Check(Declare(2, true, Other), [REPLACED] + REDIRECT, s1);
    assert Step(SLOTS, Declare(2, true, Other), s1, 0).flow == s2.flow;
    Check(REPLACED, REDIRECT, s2);
    ReplacedCheck(s2);
    RedirectCheck(Step(SLOTS, REPLACED, s2, 0));
  }

  lemma RedirectCheck(s: Scope)
    requires s.defers == [] && s.flow.freed == {} && 1 !in s.flow.tracked && TrackedAllocation(s.flow, 2) == 2
    ensures var r := CheckSeq(SLOTS, REDIRECT, s, 0);
      && r.defers == [Action(2, 2), Action(1, 0)]
      && TrackedAllocation(r.flow, 1) == 2 && r.flow.freed == {}
  {
    Check(DeferFree(2), [DeferFree(1)] + ([Assign(1, Copy(2))] + []), s);
    var s4 := Step(SLOTS, DeferFree(2), s, 0);
    Check(DeferFree(1), [Assign(1, Copy(2))] + [], s4);
    var s5 := Step(SLOTS, DeferFree(1), s4, 0);
    assert s5.defers == [Action(2, 2), Action(1, 0)];
    Check(Assign(1, Copy(2)), [], s5);
  }

  lemma MovedCheck(f: Flow)
    requires f == Tracking(map[1 := 1, 2 := 2], {})
    ensures CheckBlock(SLOTS, REPLACED.thn, f, 2, 0) == Open(Tracking(map[1 := 3, 2 := 2], {}), 3)
  {
    Check(Assign(1, Other), [], Enter(f, 2));
    assert Step(SLOTS, Assign(1, Other), Enter(f, 2), 0).flow == Tracking(map[1 := 3, 2 := 2], {});
  }

  lemma ReplacedCheck(s: Scope)
    requires s == Open(Tracking(map[1 := 1, 2 := 2], {}), 2)
    ensures var r := Step(SLOTS, REPLACED, s, 0);
      && r.defers == [] && r.flow.freed == {}
      && 1 !in r.flow.tracked && TrackedAllocation(r.flow, 2) == 2
  {
    var moved := Tracking(map[1 := 3, 2 := 2], {});
    ReplacedStmt(s, moved);
    DisagreeOnOne(s.flow, moved);
  }

  lemma ReplacedStmt(s: Scope, moved: Flow)
    requires s == Open(Tracking(map[1 := 1, 2 := 2], {}), 2) && moved == Tracking(map[1 := 3, 2 := 2], {})
    ensures CheckStmt(SLOTS, REPLACED, s, 0) == s.(flow := Merge(s.flow, [moved, s.flow]), next := 3)
  {
    MovedCheck(s.flow);
    var f := s.flow;
    assert CondEffects(f, Opaque([])) == f && Narrowed(SLOTS, f, Opaque([]), true) == f;
    var child := CheckBlock(SLOTS, REPLACED.thn, f, 2, 0);
    var start := StartChain(SLOTS, Opaque([]), REPLACED.thn, s, child);
    ReplacedChain(s, start, child, moved);
  }

  lemma ReplacedChain(s: Scope, start: Chain, child: Scope, moved: Flow)
    requires s.exits == [] && !s.failed && s.defers == [] && child == Open(moved, 3)
    requires start == StartChain(SLOTS, Opaque([]), REPLACED.thn, s, child)
    ensures start == Chain(s.flow, 3, [moved], [], false)
    ensures CheckElse(SLOTS, NoElse, CheckElifs(SLOTS, [], start, [], 0), [], 0) == Chain(s.flow, 3, [moved, s.flow], [], false)
  {
    var thn := REPLACED.thn;
    assert thn[0] == Assign(1, Other) && thn[1..] == [];
    assert !SeqTerminates(thn[1..]) && !SeqTerminates(thn);
    assert CondEffects(s.flow, Opaque([])) == s.flow;
    assert [moved] + [s.flow] == [moved, s.flow];
  }

  lemma DisagreeOnOne(f: Flow, moved: Flow)
    requires f == Tracking(map[1 := 1, 2 := 2], {}) && moved == Tracking(map[1 := 3, 2 := 2], {})
    ensures var r := Merge(f, [moved, f]);
      r.freed == {} && 1 !in r.tracked && TrackedAllocation(r, 2) == 2
  {
    var branches := [moved, f];
    assert branches[0] == moved && branches[1] == f;
    assert CommonAllocation(branches, 1) == 0;
    assert Agreed(branches, 2, 2);
  }
}
