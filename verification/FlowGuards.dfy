/** When a body is within what the flow facts can follow, and the shape facts that both halves of
    the soundness proof rest on. */
module FlowGuards {
  import opened Syntax
  import opened FlowFacts
  import opened FlowAnalysis
  import opened FlowHistory
  import opened FlowSteady

  // ----- when a statement is within what the facts can follow -----

  /** An assignment from a tracked binding must not re-track an escaped slot, and one from an
      untracked binding must not leave the slot its old identity. */
  predicate AssignFollowed(f: Flow, b: BindingId, init: Init) {
    b != 0 && DirectSource(init) != 0 ==>
      if TrackedAllocation(f, DirectSource(init)) != 0 then !Escaped(f, b) else b !in f.tracked
  }

  /** A declaration names a slot nothing is known of. What an assignment does to the slot's
      identity matters to cleanup alone. */
  predicate SimpleFollowed(f: Flow, stmt: Stmt, cleanup: bool)
    requires Simple(stmt)
  {
    match stmt
    case Declare(b, _, _) =>
      NarrowedType(f, b) == NO_TYPE && (cleanup ==> b != 0 && b !in f.facts && b !in f.tracked)
    case Assign(b, init) => cleanup ==> AssignFollowed(f, b, init)
    case _ => true
  }

  /** A release registered while its binding was untracked must find it untracked at the exit,
      or the exit would charge it to whatever the binding holds by then. */
  predicate ActionsFollowed(f: Flow, actions: seq<Action>) {
    forall i | 0 <= i < |actions| :: actions[i].captured != 0 || actions[i].binding !in f.tracked
  }

  predicate SeqFollowed(slots: Slots, stmts: seq<Stmt>, s: Scope, depth: nat, cleanup: bool)
    decreases stmts, 0
  {
    stmts != [] ==>
      && StmtFollowed(slots, stmts[0], s, depth, cleanup)
      && SeqFollowed(slots, stmts[1..], Step(slots, stmts[0], s, depth), depth, cleanup)
  }

  /** `cleanup` asks for what the released identities need beyond what the narrowed types do. A
      rejected compound statement is rolled back while executions still run it, and one pass over a
      loop does not see what its iterations do: either must leave alone what the facts speak of. */
  predicate StmtFollowed(slots: Slots, stmt: Stmt, s: Scope, depth: nat, cleanup: bool)
    decreases stmt, 1
  {
    match stmt
    case If(cond, thn, elifs, els) =>
      if Rejected(slots, stmt, s, depth) then StepSteady(slots, stmt, s, depth)
      else
        var f := Narrowed(slots, CondEffects(s.flow, cond), cond, true);
        var start := StartChain(slots, cond, thn, s, CheckBlock(slots, thn, f, s.next, depth));
        && BlockFollowed(slots, thn, f, s.next, depth, cleanup)
        && ElifsFollowed(slots, elifs, start, s.defers, depth, cleanup)
        && (els.Else? ==>
              var middle := CheckElifs(slots, elifs, start, s.defers, depth);
              BlockFollowed(slots, els.body, middle.otherwise, middle.next, depth, cleanup))
    case Unsafe(region) =>
      if Rejected(slots, stmt, s, depth) then StepSteady(slots, stmt, s, depth)
      else BlockFollowed(slots, region, s.flow, s.next, depth, cleanup)
    case While(_, _) => StepSteady(slots, stmt, s, depth)
    case For(_) => StepSteady(slots, stmt, s, depth)
    case Declare(_, _, _) => SimpleFollowed(s.flow, stmt, cleanup)
    case Assign(_, _) => SimpleFollowed(s.flow, stmt, cleanup)
    case _ => true
  }

  /** Steady between the facts before the statement and those the checker goes on with. */
  predicate StepSteady(slots: Slots, stmt: Stmt, s: Scope, depth: nat) {
    Steady(s.flow, Step(slots, stmt, s, depth).flow, stmt)
  }

  predicate Rejected(slots: Slots, stmt: Stmt, s: Scope, depth: nat) {
    CheckStmt(slots, stmt, s.(failed := false), depth).failed
  }

  predicate ElifsFollowed(slots: Slots, elifs: seq<Branch>, chain: Chain, defers: seq<Action>, depth: nat, cleanup: bool)
    decreases elifs, 0
  {
    elifs != [] ==>
      var f := Narrowed(slots, CondEffects(chain.otherwise, elifs[0].cond), elifs[0].cond, true);
      && BlockFollowed(slots, elifs[0].body, f, chain.next, depth, cleanup)
      && ElifsFollowed(slots, elifs[1..], CheckElif(slots, elifs[0], chain, defers, depth), defers, depth, cleanup)
  }

  predicate BlockFollowed(slots: Slots, stmts: seq<Stmt>, f: Flow, next: AllocationId, depth: nat, cleanup: bool)
    decreases stmts, 1
  {
    var s := CheckSeq(slots, stmts, Enter(f, next), depth);
    SeqFollowed(slots, stmts, Enter(f, next), depth, cleanup) && (cleanup && s.open ==> ActionsFollowed(s.flow, s.defers))
  }

  // ----- what the cleanup claims need, the narrowing claims need less of -----

  lemma {:induction false} SeqFollowedLess(slots: Slots, stmts: seq<Stmt>, s: Scope, depth: nat)
    requires SeqFollowed(slots, stmts, s, depth, true)
    ensures SeqFollowed(slots, stmts, s, depth, false)
    decreases stmts, 0
  {
    if stmts != [] {
      StmtFollowedLess(slots, stmts[0], s, depth);
      SeqFollowedLess(slots, stmts[1..], Step(slots, stmts[0], s, depth), depth);
    }
  }

  lemma {:induction false} StmtFollowedLess(slots: Slots, stmt: Stmt, s: Scope, depth: nat)
    requires StmtFollowed(slots, stmt, s, depth, true)
    ensures StmtFollowed(slots, stmt, s, depth, false)
    decreases stmt, 1
  {
    match stmt
    case If(cond, thn, elifs, els) =>
      if !Rejected(slots, stmt, s, depth) {
        var f := Narrowed(slots, CondEffects(s.flow, cond), cond, true);
        var start := StartChain(slots, cond, thn, s, CheckBlock(slots, thn, f, s.next, depth));
        BlockFollowedLess(slots, thn, f, s.next, depth);
        ElifsFollowedLess(slots, elifs, start, s.defers, depth);
        if els.Else? {
          var middle := CheckElifs(slots, elifs, start, s.defers, depth);
          BlockFollowedLess(slots, els.body, middle.otherwise, middle.next, depth);
        }
      }
    case Unsafe(region) =>
      if !Rejected(slots, stmt, s, depth) { BlockFollowedLess(slots, region, s.flow, s.next, depth); }
    case _ =>
  }

  lemma {:induction false} ElifsFollowedLess(slots: Slots, elifs: seq<Branch>, chain: Chain, defers: seq<Action>, depth: nat)
    requires ElifsFollowed(slots, elifs, chain, defers, depth, true)
    ensures ElifsFollowed(slots, elifs, chain, defers, depth, false)
    decreases elifs, 0
  {
    if elifs != [] {
      var f := Narrowed(slots, CondEffects(chain.otherwise, elifs[0].cond), elifs[0].cond, true);
      BlockFollowedLess(slots, elifs[0].body, f, chain.next, depth);
      ElifsFollowedLess(slots, elifs[1..], CheckElif(slots, elifs[0], chain, defers, depth), defers, depth);
    }
  }

  lemma {:induction false} BlockFollowedLess(slots: Slots, stmts: seq<Stmt>, f: Flow, next: AllocationId, depth: nat)
    requires BlockFollowed(slots, stmts, f, next, depth, true)
    ensures BlockFollowed(slots, stmts, f, next, depth, false)
    decreases stmts, 1
  {
    SeqFollowedLess(slots, stmts, Enter(f, next), depth);
  }

  // ----- the shape of what statements leave, for both halves of the soundness proof -----

  lemma {:induction false} ClosedBySomething(slots: Slots, stmts: seq<Stmt>, s: Scope, depth: nat)
    requires s.open && !CheckSeq(slots, stmts, s, depth).open
    ensures SeqTerminates(stmts)
    decreases |stmts|
  {
    if stmts != [] && !Terminates(stmts[0]) {
      ClosedBySomething(slots, stmts[1..], Step(slots, stmts[0], s, depth), depth);
    }
  }

  /** What a chain accumulates stays in it. */
  ghost predicate ChainKeeps(chain: Chain, later: Chain) {
    && chain.next <= later.next
    && chain.continuing <= later.continuing
    && (chain.failed ==> later.failed)
  }

  lemma {:induction false} ElifsKeep(slots: Slots, elifs: seq<Branch>, chain: Chain, defers: seq<Action>, depth: nat)
    ensures ChainKeeps(chain, CheckElifs(slots, elifs, chain, defers, depth))
    decreases |elifs|
  {
    if elifs != [] {
      var start := Narrowed(slots, CondEffects(chain.otherwise, elifs[0].cond), elifs[0].cond, true);
      BlockDescends(slots, elifs[0].body, start, chain.next, depth);
      ElifsKeep(slots, elifs[1..], CheckElif(slots, elifs[0], chain, defers, depth), defers, depth);
    }
  }

  lemma ElseKeeps(slots: Slots, els: Else, chain: Chain, defers: seq<Action>, depth: nat)
    ensures ChainKeeps(chain, CheckElse(slots, els, chain, defers, depth))
  {
    if els.Else? { BlockDescends(slots, els.body, chain.otherwise, chain.next, depth); }
  }

  /** A rejected simple statement changed nothing that would have to be rolled back. */
  lemma SimpleStepIs(slots: Slots, stmt: Stmt, s: Scope, depth: nat)
    requires Simple(stmt)
    ensures var r := CheckSimple(stmt, s.(failed := false), depth);
      var t := Step(slots, stmt, s, depth);
      t.flow == r.flow && t.next == r.next && t.defers == r.defers
  {
  }

  /** Everything g says f said too, and g knows of every address f knew of. */
  ghost predicate Forgets(f: Flow, g: Flow) {
    && ForgetsFacts(f, g)
    && (forall b | b in g.tracked :: b in f.tracked && TrackedAllocation(g, b) == TrackedAllocation(f, b))
    && g.freed <= f.freed
  }

  ghost predicate ForgetsFacts(f: Flow, g: Flow) {
    && (forall b | NarrowedType(g, b) != NO_TYPE :: NarrowedType(g, b) == NarrowedType(f, b))
    && (forall b | Escaped(f, b) :: Escaped(g, b))
  }

  lemma {:induction false} EscapeAllForgets(f: Flow, bs: seq<BindingId>)
    ensures ForgetsFacts(f, EscapeAll(f, bs))
    decreases |bs|
  {
    if bs != [] {
      EscapeAllForgets(Escape(f, bs[0]), bs[1..]);
      assert ForgetsFacts(f, Escape(f, bs[0]));
    }
  }

  lemma JoinForgets(f: Flow, after: Flow)
    ensures ForgetsFacts(f, Merge(f, [f, after]))
  {
    var branches := [f, after];
    assert branches[0] == f;
    forall b | Escaped(f, b) ensures Escaped(Merge(f, branches), b) { assert SomeEscapes(branches, b); }
  }

  /** What a loop or a rejected statement leaves is some of what was known before: one is joined
      with the state before it, the other rolled back. */
  lemma StepForgets(slots: Slots, stmt: Stmt, s: Scope, depth: nat)
    requires stmt.While? || stmt.For? || Rejected(slots, stmt, s, depth)
    ensures var t := Step(slots, stmt, s, depth);
      Forgets(s.flow, t.flow) && t.defers == s.defers && s.next <= t.next
  {
    StmtDescends(slots, stmt, s.(failed := false), depth);
    if !Rejected(slots, stmt, s, depth) {
      var body := if stmt.While? then stmt.loop else stmt.each;
      var f := if stmt.While? then CondEffects(s.flow, stmt.guard) else s.flow;
      var start := if stmt.While? then Narrowed(slots, f, stmt.guard, true) else s.flow;
      if stmt.While? && stmt.guard.Opaque? { EscapeAllForgets(s.flow, stmt.guard.exposes); }
      JoinForgets(f, CheckBlock(slots, body, start, s.next, depth + 1).flow);
      LoopJoinOnlyForgets(slots, stmt, s.(failed := false), depth);
    }
  }

  lemma IfStepIs(slots: Slots, stmt: Stmt, s: Scope, depth: nat)
    requires stmt.If? && !IfChain(slots, stmt, s.(failed := false), depth).failed
    ensures var before := s.(failed := false);
      var r := Rejoin(before, CondEffects(s.flow, stmt.cond), IfChain(slots, stmt, before, depth));
      var t := Step(slots, stmt, s, depth);
      t.flow == r.flow && t.next == r.next && t.defers == s.defers
  {
  }

  lemma {:induction false} ValidateKeepsTracking(actions: seq<Action>, f: Flow)
    ensures var g := Validate(actions, f).flow;
      g.tracked == f.tracked && g.allocation == f.allocation && g.facts == f.facts
    decreases |actions|
  {
    if actions != [] {
      ValidateKeepsTracking(actions[..|actions| - 1], ValidateOne(actions[|actions| - 1], f).flow);
    }
  }
}
