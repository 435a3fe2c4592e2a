/** The missing-return and termination proofs by shape hold of every execution. */
module MissingReturn {
  import opened Syntax
  import opened FlowAnalysis
  import opened FlowFacts
  import opened FlowSemantics

  /** A body has a normal path that may reach its end. */
  predicate FallsThrough(stmts: seq<Stmt>) {
    stmts != [] ==> StatementFallsThrough(stmts[0]) && FallsThrough(stmts[1..])
  }

  predicate StatementFallsThrough(stmt: Stmt) {
    match stmt
    case Return => false
    case If(_, thn, elifs, els) =>
      els.NoElse? || FallsThrough(thn) || SomeBranchFallsThrough(elifs) || FallsThrough(els.body)
    case Unsafe(region) => FallsThrough(region)
    case _ => true
  }

  predicate SomeBranchFallsThrough(elifs: seq<Branch>) {
    elifs != [] && (FallsThrough(elifs[0].body) || SomeBranchFallsThrough(elifs[1..]))
  }

  /** Every break and continue of the sequence is inside one of its loops: what checking at
      loop depth zero demands. */
  predicate NoStrayJump(stmts: seq<Stmt>) {
    stmts != [] ==> StatementHasNoStrayJump(stmts[0]) && NoStrayJump(stmts[1..])
  }

  predicate StatementHasNoStrayJump(stmt: Stmt) {
    match stmt
    case Break => false
    case Continue => false
    case If(_, thn, elifs, els) =>
      NoStrayJump(thn) && BranchesHaveNoStrayJump(elifs) && (els.Else? ==> NoStrayJump(els.body))
    case Unsafe(region) => NoStrayJump(region)
    case _ => true
  }

  predicate BranchesHaveNoStrayJump(elifs: seq<Branch>) {
    elifs != [] ==> NoStrayJump(elifs[0].body) && BranchesHaveNoStrayJump(elifs[1..])
  }

  // ----- not FallsThrough implies SeqTerminates -----

  lemma {:induction false} NotFallingTerminates(stmts: seq<Stmt>)
    requires !FallsThrough(stmts)
    ensures SeqTerminates(stmts)
  {
    if !StatementFallsThrough(stmts[0]) {
      StatementNotFallingTerminates(stmts[0]);
    } else {
      NotFallingTerminates(stmts[1..]);
    }
  }

  lemma {:induction false} StatementNotFallingTerminates(stmt: Stmt)
    requires !StatementFallsThrough(stmt)
    ensures Terminates(stmt)
  {
    match stmt
    case If(_, thn, elifs, Else(body)) =>
      NotFallingTerminates(thn);
      BranchesNotFallingTerminate(elifs);
      NotFallingTerminates(body);
    case Unsafe(region) => NotFallingTerminates(region);
    case _ =>
  }

  lemma {:induction false} BranchesNotFallingTerminate(elifs: seq<Branch>)
    requires !SomeBranchFallsThrough(elifs)
    ensures BranchesTerminate(elifs)
  {
    if elifs != [] {
      NotFallingTerminates(elifs[0].body);
      BranchesNotFallingTerminate(elifs[1..]);
    }
  }

  // ----- SeqTerminates: no execution reaches the end -----

  lemma {:induction false} TerminatesSound(slots: Slots, stmts: seq<Stmt>, m: Machine, o: Outcome)
    requires SeqTerminates(stmts) && ExecSeq(slots, stmts, m, o)
    ensures o.how != Fell
    decreases stmts, 0
  {
    var first :| Exec(slots, stmts[0], m, first) &&
      if first.how == Fell then ExecSeq(slots, stmts[1..], first.machine, o) else o == first;
    if first.how == Fell {
      if Terminates(stmts[0]) {
        StatementTerminatesSound(slots, stmts[0], m, first);
      } else {
        TerminatesSound(slots, stmts[1..], first.machine, o);
      }
    }
  }

  lemma {:induction false} BlockTerminatesSound(slots: Slots, stmts: seq<Stmt>, m: Machine, o: Outcome)
    requires SeqTerminates(stmts) && ExecBlock(slots, stmts, m, o)
    ensures o.how != Fell
    decreases stmts, 1
  {
    var inner :| ExecSeq(slots, stmts, m, inner) && |m.pending| <= |inner.machine.pending|
      && o == Outcome(inner.how, Unwind(inner.machine, |m.pending|));
    TerminatesSound(slots, stmts, m, inner);
  }

  lemma {:induction false} StatementTerminatesSound(slots: Slots, stmt: Stmt, m: Machine, o: Outcome)
    requires Terminates(stmt) && Exec(slots, stmt, m, o)
    ensures o.how != Fell
    decreases stmt, 0
  {
    match stmt
    case If(cond, thn, elifs, Else(_)) =>
      if mid :| Decides(slots, cond, m, true, mid) && ExecBlock(slots, thn, mid, o) {
        BlockTerminatesSound(slots, thn, mid, o);
      } else {
        var mid :| Decides(slots, cond, m, false, mid) && ExecElse(slots, stmt, 0, mid, o);
        ElseTerminatesSound(slots, stmt, 0, mid, o);
      }
    case Unsafe(region) => BlockTerminatesSound(slots, region, m, o);
    case _ =>
  }

  lemma {:induction false} ElseTerminatesSound(slots: Slots, stmt: Stmt, k: nat, m: Machine, o: Outcome)
    requires stmt.If? && k <= |stmt.elifs| && ExecElse(slots, stmt, k, m, o)
    requires BranchesTerminate(stmt.elifs[k..]) && stmt.els.Else? && SeqTerminates(stmt.els.body)
    ensures o.how != Fell
    decreases stmt, 0, |stmt.elifs| - k
  {
    if k == |stmt.elifs| {
      BlockTerminatesSound(slots, stmt.els.body, m, o);
    } else {
      var branch := stmt.elifs[k];
      assert stmt.elifs[k..][0] == branch && stmt.elifs[k..][1..] == stmt.elifs[k + 1..];
      if mid :| Decides(slots, branch.cond, m, true, mid) && ExecBlock(slots, branch.body, mid, o) {
        BlockTerminatesSound(slots, branch.body, mid, o);
      } else {
        var mid :| Decides(slots, branch.cond, m, false, mid) && ExecElse(slots, stmt, k + 1, mid, o);
        ElseTerminatesSound(slots, stmt, k + 1, mid, o);
      }
    }
  }

  // ----- NoStrayJump: an execution leaves a body by its end or by a return -----

  lemma {:induction false} NoStrayJumpSound(slots: Slots, stmts: seq<Stmt>, m: Machine, o: Outcome)
    requires NoStrayJump(stmts) && ExecSeq(slots, stmts, m, o)
    ensures o.how == Fell || o.how == Left
    decreases stmts, 0
  {
    if stmts != [] {
      var first :| Exec(slots, stmts[0], m, first) &&
        if first.how == Fell then ExecSeq(slots, stmts[1..], first.machine, o) else o == first;
      StatementNoStrayJumpSound(slots, stmts[0], m, first);
      if first.how == Fell {
        NoStrayJumpSound(slots, stmts[1..], first.machine, o);
      }
    }
  }

  lemma {:induction false} BlockNoStrayJumpSound(slots: Slots, stmts: seq<Stmt>, m: Machine, o: Outcome)
    requires NoStrayJump(stmts) && ExecBlock(slots, stmts, m, o)
    ensures o.how == Fell || o.how == Left
    decreases stmts, 1
  {
    var inner :| ExecSeq(slots, stmts, m, inner) && |m.pending| <= |inner.machine.pending|
      && o == Outcome(inner.how, Unwind(inner.machine, |m.pending|));
    NoStrayJumpSound(slots, stmts, m, inner);
  }

  lemma {:induction false} StatementNoStrayJumpSound(slots: Slots, stmt: Stmt, m: Machine, o: Outcome)
    requires StatementHasNoStrayJump(stmt) && Exec(slots, stmt, m, o)
    ensures o.how == Fell || o.how == Left
    decreases stmt, 0
  {
    match stmt
    case If(cond, thn, _, _) =>
      if mid :| Decides(slots, cond, m, true, mid) && ExecBlock(slots, thn, mid, o) {
        BlockNoStrayJumpSound(slots, thn, mid, o);
      } else {
        var mid :| Decides(slots, cond, m, false, mid) && ExecElse(slots, stmt, 0, mid, o);
        ElseNoStrayJumpSound(slots, stmt, 0, mid, o);
      }
    case While(guard, loop) =>
      var n: nat :| ExecLoop(slots, guard, loop, n, m, o);
      LoopCatchesJumps(slots, guard, loop, n, m, o);
    case For(each) =>
      var n: nat :| ExecLoop(slots, Opaque([]), each, n, m, o);
      LoopCatchesJumps(slots, Opaque([]), each, n, m, o);
    case Unsafe(region) => BlockNoStrayJumpSound(slots, region, m, o);
    case _ =>
  }

  lemma {:induction false} LoopCatchesJumps(slots: Slots, guard: Cond, body: seq<Stmt>, n: nat, m: Machine, o: Outcome)
    requires ExecLoop(slots, guard, body, n, m, o)
    ensures o.how == Fell || o.how == Left
    decreases n
  {
    if !exists mid :: Decides(slots, guard, m, false, mid) && o == Outcome(Fell, mid) {
      var mid, once :| Decides(slots, guard, m, true, mid) && ExecBlock(slots, body, mid, once)
        && match once.how
           case Left => o == once
           case Broke => o == Outcome(Fell, once.machine)
           case _ => ExecLoop(slots, guard, body, n - 1, once.machine, o);
      if once.how != Left && once.how != Broke {
        LoopCatchesJumps(slots, guard, body, n - 1, once.machine, o);
      }
    }
  }

  lemma {:induction false} ElseNoStrayJumpSound(slots: Slots, stmt: Stmt, k: nat, m: Machine, o: Outcome)
    requires stmt.If? && k <= |stmt.elifs| && ExecElse(slots, stmt, k, m, o)
    requires BranchesHaveNoStrayJump(stmt.elifs[k..]) && (stmt.els.Else? ==> NoStrayJump(stmt.els.body))
    ensures o.how == Fell || o.how == Left
    decreases stmt, 0, |stmt.elifs| - k
  {
    if k == |stmt.elifs| {
      if stmt.els.Else? {
        BlockNoStrayJumpSound(slots, stmt.els.body, m, o);
      }
    } else {
      var branch := stmt.elifs[k];
      assert stmt.elifs[k..][0] == branch && stmt.elifs[k..][1..] == stmt.elifs[k + 1..];
      if mid :| Decides(slots, branch.cond, m, true, mid) && ExecBlock(slots, branch.body, mid, o) {
        BlockNoStrayJumpSound(slots, branch.body, mid, o);
      } else {
        var mid :| Decides(slots, branch.cond, m, false, mid) && ExecElse(slots, stmt, k + 1, mid, o);
        ElseNoStrayJumpSound(slots, stmt, k + 1, mid, o);
      }
    }
  }

  /** A body accepted as never falling through, with its jumps inside its loops, is always left
      by a return: a function with a result never ends without one. */
  lemma NeverFallsThrough(slots: Slots, body: seq<Stmt>, m: Machine, o: Outcome)
    requires !FallsThrough(body) && NoStrayJump(body) && ExecBlock(slots, body, m, o)
    ensures o.how == Left
  {
    NotFallingTerminates(body);
    BlockTerminatesSound(slots, body, m, o);
    BlockNoStrayJumpSound(slots, body, m, o);
  }

  // ----- the checker enforces NoStrayJump -----

  /** A sequence checked at loop depth zero without a diagnostic has no stray jump. */
  lemma {:induction false} AcceptedHasNoStrayJump(slots: Slots, stmts: seq<Stmt>, s: Scope)
    requires !CheckSeq(slots, stmts, s, 0).failed
    ensures !s.failed && NoStrayJump(stmts)
    decreases stmts, 0
  {
    if stmts != [] {
      AcceptedHasNoStrayJump(slots, stmts[1..], Step(slots, stmts[0], s, 0));
      StatementAcceptedHasNoStrayJump(slots, stmts[0], s.(failed := false));
    }
  }

  lemma {:induction false} StatementAcceptedHasNoStrayJump(slots: Slots, stmt: Stmt, s: Scope)
    requires !CheckStmt(slots, stmt, s, 0).failed
    ensures StatementHasNoStrayJump(stmt)
    decreases stmt, 0
  {
    match stmt
    case If(cond, thn, elifs, els) =>
      var f := Narrowed(slots, CondEffects(s.flow, cond), cond, true);
      var start := StartChain(slots, cond, thn, s, CheckBlock(slots, thn, f, s.next, 0));
      var middle := CheckElifs(slots, elifs, start, s.defers, 0);
      if els.Else? {
        assert !CheckBlock(slots, els.body, middle.otherwise, middle.next, 0).failed;
        AcceptedHasNoStrayJump(slots, els.body, Enter(middle.otherwise, middle.next));
      }
      BranchesAcceptedHaveNoStrayJump(slots, elifs, start, s.defers);
      AcceptedHasNoStrayJump(slots, thn, Enter(f, s.next));
    case Unsafe(region) => AcceptedHasNoStrayJump(slots, region, Enter(s.flow, s.next));
    case _ =>
  }

  lemma {:induction false} BranchesAcceptedHaveNoStrayJump(slots: Slots, elifs: seq<Branch>, chain: Chain, defers: seq<Action>)
    requires !CheckElifs(slots, elifs, chain, defers, 0).failed
    ensures !chain.failed && BranchesHaveNoStrayJump(elifs)
    decreases elifs, 0
  {
    if elifs != [] {
      var next := CheckElif(slots, elifs[0], chain, defers, 0);
      BranchesAcceptedHaveNoStrayJump(slots, elifs[1..], next, defers);
      var f := CondEffects(chain.otherwise, elifs[0].cond);
      assert !CheckBlock(slots, elifs[0].body, Narrowed(slots, f, elifs[0].cond, true), chain.next, 0).failed;
      AcceptedHasNoStrayJump(slots, elifs[0].body,
                             Enter(Narrowed(slots, f, elifs[0].cond, true), chain.next));
    }
  }

  /** Together: a body checked clean at depth zero that FallsThrough refuses always returns. */
  lemma AcceptedBodyAlwaysReturns(slots: Slots, body: seq<Stmt>, f: Flow, next: AllocationId, m: Machine, o: Outcome)
    requires !CheckBlock(slots, body, f, next, 0).failed && !FallsThrough(body)
    requires ExecBlock(slots, body, m, o)
    ensures o.how == Left
  {
    AcceptedHasNoStrayJump(slots, body, Enter(f, next));
    NeverFallsThrough(slots, body, m, o);
  }

  // ----- the two proofs by shape are exact -----

  /** Some path through the statements, whatever the conditions say, ends that way. */
  predicate SeqWay(stmts: seq<Stmt>, how: How)
    decreases stmts
  {
    if stmts == [] then how == Fell
    else (StmtWay(stmts[0], Fell) && SeqWay(stmts[1..], how)) || (how != Fell && StmtWay(stmts[0], how))
  }

  predicate StmtWay(stmt: Stmt, how: How)
    decreases stmt
  {
    match stmt
    case Return => how == Left
    case Break => how == Broke
    case Continue => how == Continued
    case If(_, thn, elifs, els) =>
      SeqWay(thn, how) || BranchesWay(elifs, how) || (if els.Else? then SeqWay(els.body, how) else how == Fell)
    case While(_, loop) => how == Fell || (how == Left && SeqWay(loop, Left))
    case For(each) => how == Fell || (how == Left && SeqWay(each, Left))
    case Unsafe(region) => SeqWay(region, how)
    case _ => how == Fell
  }

  predicate BranchesWay(elifs: seq<Branch>, how: How)
    decreases elifs
  {
    elifs != [] && (SeqWay(elifs[0].body, how) || BranchesWay(elifs[1..], how))
  }

  /** A sequence terminates by shape if and only if no path comes to its end. */
  lemma {:induction false} TerminatesExactly(stmts: seq<Stmt>)
    ensures SeqTerminates(stmts) <==> !SeqWay(stmts, Fell)
    decreases stmts
  {
    if stmts != [] {
      StatementTerminatesExactly(stmts[0]);
      TerminatesExactly(stmts[1..]);
    }
  }

  lemma {:induction false} StatementTerminatesExactly(stmt: Stmt)
    ensures Terminates(stmt) <==> !StmtWay(stmt, Fell)
    decreases stmt
  {
    match stmt
    case If(_, thn, elifs, els) =>
      if els.Else? {
        TerminatesExactly(thn);
        BranchesTerminateExactly(elifs);
        TerminatesExactly(els.body);
      }
    case Unsafe(region) => TerminatesExactly(region);
    case _ =>
  }

  lemma {:induction false} BranchesTerminateExactly(elifs: seq<Branch>)
    ensures BranchesTerminate(elifs) <==> !BranchesWay(elifs, Fell)
    decreases elifs
  {
    if elifs != [] {
      TerminatesExactly(elifs[0].body);
      BranchesTerminateExactly(elifs[1..]);
    }
  }

  /** Where jumps stay inside loops, a body may fall through by shape if and only if some path comes to
      its end: an if does when it has no else or some arm does, and a loop always. */
  lemma {:induction false} FallsThroughExactly(stmts: seq<Stmt>)
    requires NoStrayJump(stmts)
    ensures FallsThrough(stmts) <==> SeqWay(stmts, Fell)
    decreases stmts
  {
    if stmts != [] {
      StatementFallsExactly(stmts[0]);
      FallsThroughExactly(stmts[1..]);
    }
  }

  lemma {:induction false} StatementFallsExactly(stmt: Stmt)
    requires StatementHasNoStrayJump(stmt)
    ensures StatementFallsThrough(stmt) <==> StmtWay(stmt, Fell)
    decreases stmt
  {
    match stmt
    case If(_, thn, elifs, els) =>
      if els.Else? {
        FallsThroughExactly(thn);
        BranchesFallExactly(elifs);
        FallsThroughExactly(els.body);
      }
    case Unsafe(region) => FallsThroughExactly(region);
    case _ =>
  }

  lemma {:induction false} BranchesFallExactly(elifs: seq<Branch>)
    requires BranchesHaveNoStrayJump(elifs)
    ensures SomeBranchFallsThrough(elifs) <==> BranchesWay(elifs, Fell)
    decreases elifs
  {
    if elifs != [] {
      FallsThroughExactly(elifs[0].body);
      BranchesFallExactly(elifs[1..]);
    }
  }

  /** Every execution follows a path. */
  lemma {:induction false} ExecHasWay(slots: Slots, stmts: seq<Stmt>, m: Machine, o: Outcome)
    requires ExecSeq(slots, stmts, m, o)
    ensures SeqWay(stmts, o.how)
    decreases stmts, 0
  {
    if stmts != [] {
      var first :| Exec(slots, stmts[0], m, first) &&
        if first.how == Fell then ExecSeq(slots, stmts[1..], first.machine, o) else o == first;
      StatementHasWay(slots, stmts[0], m, first);
      if first.how == Fell { ExecHasWay(slots, stmts[1..], first.machine, o); }
    }
  }

  lemma {:induction false} BlockHasWay(slots: Slots, stmts: seq<Stmt>, m: Machine, o: Outcome)
    requires ExecBlock(slots, stmts, m, o)
    ensures SeqWay(stmts, o.how)
    decreases stmts, 1
  {
    var inner :| ExecSeq(slots, stmts, m, inner) && |m.pending| <= |inner.machine.pending|
      && o == Outcome(inner.how, Unwind(inner.machine, |m.pending|));
    ExecHasWay(slots, stmts, m, inner);
  }

  lemma {:induction false} StatementHasWay(slots: Slots, stmt: Stmt, m: Machine, o: Outcome)
    requires Exec(slots, stmt, m, o)
    ensures StmtWay(stmt, o.how)
    decreases stmt, 0
  {
    match stmt
    case If(cond, thn, elifs, _) =>
      if mid :| Decides(slots, cond, m, true, mid) && ExecBlock(slots, thn, mid, o) {
        BlockHasWay(slots, thn, mid, o);
      } else {
        var mid :| Decides(slots, cond, m, false, mid) && ExecElse(slots, stmt, 0, mid, o);
        assert elifs[0..] == elifs;
        ElseHasWay(slots, stmt, 0, mid, o);
      }
    case While(guard, loop) =>
      var n: nat :| ExecLoop(slots, guard, loop, n, m, o);
      LoopHasWay(slots, guard, loop, n, m, o);
    case For(each) =>
      var n: nat :| ExecLoop(slots, Opaque([]), each, n, m, o);
      LoopHasWay(slots, Opaque([]), each, n, m, o);
    case Unsafe(region) => BlockHasWay(slots, region, m, o);
    case _ =>
  }

  lemma {:induction false} LoopHasWay(slots: Slots, guard: Cond, body: seq<Stmt>, n: nat, m: Machine, o: Outcome)
    requires ExecLoop(slots, guard, body, n, m, o)
    ensures o.how == Fell || (o.how == Left && SeqWay(body, Left))
    decreases body, 2, n
  {
    if !exists mid :: Decides(slots, guard, m, false, mid) && o == Outcome(Fell, mid) {
      var mid, once :| Decides(slots, guard, m, true, mid) && ExecBlock(slots, body, mid, once)
        && match once.how
           case Left => o == once
           case Broke => o == Outcome(Fell, once.machine)
           case _ => ExecLoop(slots, guard, body, n - 1, once.machine, o);
      BlockHasWay(slots, body, mid, once);
      if once.how != Left && once.how != Broke { LoopHasWay(slots, guard, body, n - 1, once.machine, o); }
    }
  }

  lemma {:induction false} ElseHasWay(slots: Slots, stmt: Stmt, k: nat, m: Machine, o: Outcome)
    requires stmt.If? && k <= |stmt.elifs| && ExecElse(slots, stmt, k, m, o)
    ensures BranchesWay(stmt.elifs[k..], o.how) || (if stmt.els.Else? then SeqWay(stmt.els.body, o.how) else o.how == Fell)
    decreases stmt, 0, |stmt.elifs| - k
  {
    if k == |stmt.elifs| {
      if stmt.els.Else? { BlockHasWay(slots, stmt.els.body, m, o); }
    } else {
      var branch := stmt.elifs[k];
      assert stmt.elifs[k..][0] == branch && stmt.elifs[k..][1..] == stmt.elifs[k + 1..];
      if mid :| Decides(slots, branch.cond, m, true, mid) && ExecBlock(slots, branch.body, mid, o) {
        BlockHasWay(slots, branch.body, mid, o);
      } else {
        var mid :| Decides(slots, branch.cond, m, false, mid) && ExecElse(slots, stmt, k + 1, mid, o);
        ElseHasWay(slots, stmt, k + 1, mid, o);
      }
    }
  }
}
