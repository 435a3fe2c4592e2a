/** The statement checker as it runs: scopes holding a shared mutable state, clones handed to
    branches, and a join written back into the state the branches were cloned from. Every
    method is proved equal to the function of the same name in FlowAnalysis. */
module FlowChecker {
  import opened Syntax
  import opened FlowFacts
  import opened FlowState
  import opened FlowAnalysis

  lemma LiftOne(done: seq<ReturnFlow>, flows: seq<ReturnFlow>, defers: seq<Action>)
    requires flows != []
    ensures done + Lift(flows, defers) == (done + [ReturnFlow(flows[0].flow, defers)]) + Lift(flows[1..], defers)
  {
  }

  class Names {
    var flow: FlowState
    var defers: seq<Action>
    var returnFlows: seq<ReturnFlow>

    constructor (flow: FlowState)
      ensures this.flow == flow && defers == [] && returnFlows == []
    {
      this.flow, defers, returnFlows := flow, [], [];
    }

    function View(failed: bool, open: bool): Scope
      reads this, flow, flow.nextAlloc
    {
      Scope(flow.View(), flow.nextAlloc.value, defers, returnFlows, failed, open)
    }

    method RecordReturnFlow()
      modifies this`returnFlows
      ensures returnFlows == old(returnFlows) + [ReturnFlow(flow.View(), defers)]
    {
      returnFlows := returnFlows + [ReturnFlow(flow.View(), defers)];
    }

    method RecordChildReturnFlows(flows: seq<ReturnFlow>)
      modifies this`returnFlows
      ensures returnFlows == old(returnFlows) + Lift(flows, defers)
    {
      for i := 0 to |flows|
        invariant returnFlows + Lift(flows[i..], defers) == old(returnFlows) + Lift(flows, defers)
      {
        var lifted := ReturnFlow(flows[i].flow, defers);
        LiftOne(returnFlows, flows[i..], defers);
        assert flows[i..][1..] == flows[i + 1..];
        returnFlows := returnFlows + [lifted];
      }
    }
  }

  method CheckTrackedFree(binding: BindingId, state: FlowState) returns (failed: bool)
    modifies state
    ensures Verdict(state.View(), failed) == ValidateOne(Action(binding, 0), old(state.View()))
    ensures state.nextAlloc == old(state.nextAlloc)
  {
    if binding !in state.tracked {
      return false;
    }
    var known := state.IsFreed(binding);
    if known {
      return true;
    }
    state.Mark(binding);
    failed := false;
  }

  method CheckTrackedFreeAlloc(alloc: AllocationId, state: FlowState) returns (failed: bool)
    requires alloc != 0
    modifies state
    ensures Verdict(state.View(), failed) == ValidateOne(Action(0, alloc), old(state.View()))
    ensures state.nextAlloc == old(state.nextAlloc)
  {
    if alloc in state.freedAlloc {
      return true;
    }
    state.MarkAlloc(alloc);
    failed := false;
  }

  method ValidateActions(actions: seq<Action>, state: FlowState) returns (failed: bool)
    modifies state
    ensures Verdict(state.View(), failed) == Validate(actions, old(state.View()))
    ensures state.nextAlloc == old(state.nextAlloc)
  {
    failed := false;
    var index := |actions|;
    assert actions[..index] == actions;
    while index > 0
      invariant 0 <= index <= |actions| && state.nextAlloc == old(state.nextAlloc)
      invariant var rest := Validate(actions[..index], state.View());
        Verdict(rest.flow, failed || rest.failed) == Validate(actions, old(state.View()))
    {
      index := index - 1;
      var action := actions[index];
      assert actions[..index + 1][..index] == actions[..index];
      var bad: bool;
      if action.captured != 0 {
        bad := CheckTrackedFreeAlloc(action.captured, state);
      } else {
        bad := CheckTrackedFree(action.binding, state);
      }
      failed := failed || bad;
    }
  }

  method ValidateDeferredActions(names: Names, normal: bool) returns (failed: bool)
    modifies names`returnFlows, names.flow
    ensures names.flow.nextAlloc == old(names.flow.nextAlloc)
    ensures forall bad, open | open == normal ::
      names.View(bad || failed, open) == Close(old(names.View(bad, open)))
  {
    failed := false;
    if normal {
      failed := ValidateActions(names.defers, names.flow);
    }
    var exits, bad := ValidateReturnFlows(names.returnFlows);
    failed := failed || bad;
    names.returnFlows := exits;
  }

  /** Every recorded return validates its own list, on a state of its own. */
  method ValidateReturnFlows(exits: seq<ReturnFlow>) returns (done: seq<ReturnFlow>, failed: bool)
    ensures done == ValidateExits(exits) && failed == SomeExitFails(exits)
  {
    failed, done := false, [];
    for i := 0 to |exits|
      invariant done + ValidateExits(exits[i..]) == ValidateExits(exits)
      invariant (failed || SomeExitFails(exits[i..])) == SomeExitFails(exits)
    {
      var entry := exits[i];
      var state := new FlowState();
      state.Restore(entry.flow);
      var bad := ValidateActions(entry.actions, state);
      failed := failed || bad;
      assert exits[i..][0] == entry && exits[i..][1..] == exits[i + 1..];
      ghost var before := done;
      done := done + [ReturnFlow(state.View(), entry.actions)];
      assert before + ValidateExits(exits[i..]) == done + ValidateExits(exits[i + 1..]);
    }
  }

  // ----- facts about the functions the drivers below are compared with -----

  predicate IsPrefix(a: seq<ReturnFlow>, b: seq<ReturnFlow>) {
    |a| <= |b| && b[..|a|] == a
  }

  lemma ElifsKeepExits(slots: Slots, elifs: seq<Branch>, chain: Chain, defers: seq<Action>, depth: nat)
    ensures IsPrefix(chain.exits, CheckElifs(slots, elifs, chain, defers, depth).exits)
    decreases |elifs|
  {
    if elifs != [] {
      ElifsKeepExits(slots, elifs[1..], CheckElif(slots, elifs[0], chain, defers, depth), defers, depth);
    }
  }

  /** A statement only adds to the recorded returns, and one that fails registers no action. */
  lemma StmtKeepsExits(slots: Slots, stmt: Stmt, s: Scope, depth: nat)
    ensures IsPrefix(s.exits, CheckStmt(slots, stmt, s, depth).exits)
    ensures !s.failed && CheckStmt(slots, stmt, s, depth).failed ==>
      CheckStmt(slots, stmt, s, depth).defers == s.defers
  {
    if stmt.If? { IfKeepsExits(slots, stmt, s, depth); }
  }

  lemma IfKeepsExits(slots: Slots, stmt: Stmt, s: Scope, depth: nat)
    requires stmt.If?
    ensures IsPrefix(s.exits, CheckStmt(slots, stmt, s, depth).exits)
    ensures CheckStmt(slots, stmt, s, depth).defers == s.defers
  {
    var start := StartChain(slots, stmt.cond, stmt.thn, s,
      CheckBlock(slots, stmt.thn, Narrowed(slots, CondEffects(s.flow, stmt.cond), stmt.cond, true), s.next, depth));
    ElifsKeepExits(slots, stmt.elifs, start, s.defers, depth);
  }

  lemma TerminatesSnoc(stmts: seq<Stmt>, stmt: Stmt)
    ensures SeqTerminates(stmts + [stmt]) == (SeqTerminates(stmts) || Terminates(stmt))
  {
    if stmts != [] {
      assert (stmts + [stmt])[1..] == stmts[1..] + [stmt];
      TerminatesSnoc(stmts[1..], stmt);
    }
  }

  // ----- the drivers -----

  /** Checks one lexical sequence in the scope `names`, whose flow it updates in place. */
  method CheckStatements(slots: Slots, stmts: seq<Stmt>, names: Names, depth: nat) returns (failed: bool)
    requires names.defers == [] && names.returnFlows == []
    modifies names, names.flow, names.flow.nextAlloc
    ensures names.flow.nextAlloc == old(names.flow.nextAlloc)
    ensures failed || names.flow == old(names.flow)
    ensures names.flow == old(names.flow) || fresh(names.flow)
    ensures old(names.flow).nextAlloc == old(names.flow.nextAlloc)
    ensures var r := CheckBlock(slots, stmts, old(names.flow.View()), old(names.flow.nextAlloc.value), depth);
      names.View(failed, r.open) == r
    decreases stmts, 1
  {
    failed := false;
    var reachable := true;
    var checked: seq<Stmt> := [];
    ghost var s := Enter(names.flow.View(), names.flow.nextAlloc.value);
    ghost var entry := s;
    for i := 0 to |stmts|
      invariant names.flow.nextAlloc == old(names.flow.nextAlloc)
      invariant failed || names.flow == old(names.flow)
      invariant names.flow == old(names.flow) || fresh(names.flow)
      invariant old(names.flow).nextAlloc == old(names.flow.nextAlloc)
      invariant names.View(failed, reachable) == s
      invariant reachable == !SeqTerminates(checked)
      invariant CheckSeq(slots, stmts[i..], s, depth) == CheckSeq(slots, stmts, entry, depth)
    {
      assert stmts[i..][0] == stmts[i] && stmts[i..][1..] == stmts[i + 1..];
      s := Step(slots, stmts[i], s, depth);
      var bad := CheckListed(slots, stmts[i], names, depth, reachable, failed);
      if bad {
        failed := true;
        continue;
      }
      TerminatesSnoc(checked, stmts[i]);
      checked := checked + [stmts[i]];
      if reachable && Terminates(stmts[i]) {
        reachable := false;
      }
    }
    var late := ValidateDeferredActions(names, !SeqTerminates(checked));
    failed := failed || late;
  }

  /** Checks one statement of a sequence. A statement with a diagnostic is undone by putting
      back the snapshot taken before it. */
  method CheckListed(slots: Slots, stmt: Stmt, names: Names, depth: nat, reachable: bool, ghost failed: bool)
    returns (bad: bool)
    modifies names, names.flow, names.flow.nextAlloc
    ensures names.flow.nextAlloc == old(names.flow.nextAlloc)
    ensures bad || names.flow == old(names.flow)
    ensures names.flow == old(names.flow) || fresh(names.flow)
    ensures old(names.flow).nextAlloc == old(names.flow.nextAlloc)
    ensures names.View(failed || bad, reachable && (bad || !Terminates(stmt)))
         == Step(slots, stmt, old(names.View(failed, reachable)), depth)
    decreases stmt, 2
  {
    ghost var s := names.View(false, reachable);
    var count := |names.returnFlows|;
    var snapshot := names.flow.Clone();
    StmtKeepsExits(slots, stmt, s, depth);
    ghost var r := CheckStmt(slots, stmt, s, depth);
    bad := CheckStatement(slots, stmt, names, depth, reachable);
    UndoOrRecord(stmt, names, reachable, bad, count, snapshot, s.(failed := failed), r);
  }

  /** Puts back the snapshot of a statement with a diagnostic, and records the return of a reachable
      one without. */
  method UndoOrRecord(stmt: Stmt, names: Names, reachable: bool, bad: bool, count: nat, snapshot: FlowState,
                      ghost before: Scope, ghost r: Scope)
    requires Agrees(names, bad, reachable, r, before.defers, before.exits) && IsPrefix(before.exits, r.exits)
    requires before.flow == snapshot.View() && count == |before.exits| && before.open == reachable
    requires snapshot.nextAlloc == names.flow.nextAlloc
    modifies names
    ensures names.flow == if bad then snapshot else old(names.flow)
    ensures names.View(before.failed || bad, reachable && (bad || !Terminates(stmt))) == Settle(stmt, before, r)
  {
    if bad {
      names.returnFlows := names.returnFlows[..count];
      names.flow := snapshot;
    } else if reachable {
      if stmt.Return? {
        names.RecordReturnFlow();
      }
    } else {
      names.returnFlows := names.returnFlows[..count];
    }
  }

  /** What a rejected statement leaves for the caller's rollback, and an accepted one leaves
      behind. */
  ghost predicate Agrees(names: Names, failed: bool, open: bool, r: Scope, defers: seq<Action>, exits: seq<ReturnFlow>)
    reads names, names.flow, names.flow.nextAlloc
  {
    && failed == r.failed
    && names.flow.nextAlloc.value == r.next
    && (!failed ==> names.View(false, open) == r)
    && (failed ==> names.defers == defers && IsPrefix(exits, names.returnFlows))
  }

  method CheckStatement(slots: Slots, stmt: Stmt, names: Names, depth: nat, ghost open: bool) returns (failed: bool)
    modifies names, names.flow, names.flow.nextAlloc
    ensures names.flow == old(names.flow) && names.flow.nextAlloc == old(names.flow.nextAlloc)
    ensures Agrees(names, failed, open, CheckStmt(slots, stmt, old(names.View(false, open)), depth),
                   old(names.defers), old(names.returnFlows))
    decreases stmt, 1
  {
    match stmt
    case If(_, _, _, _) =>
      failed := CheckIfStatement(slots, stmt, names, depth, open);
    case While(_, _) =>
      failed := CheckWhileStatement(slots, stmt, names, depth, open);
    case For(each) =>
      failed := CheckLoop(slots, each, names, depth, NoNarrowing, false, open);
    case Unsafe(_) =>
      failed := CheckUnsafeStatement(slots, stmt, names, depth, open);
    case _ =>
      failed := CheckSimpleStatement(stmt, names, depth, open);
  }

  /** The type a read of the binding has in this state. */
  method ReadOperand(slots: Slots, b: BindingId, state: FlowState) returns (t: Type)
    ensures t == ReadType(slots, state.View(), b)
  {
    var narrowed, known := state.GetNarrowedType(b);
    if known {
      return narrowed;
    }
    return if b in slots then slots[b] else NO_TYPE;
  }

  /** What a condition's test proves about its operand, and whether the test is rejected. */
  method TestCondition(slots: Slots, cond: Cond, state: FlowState) returns (rejected: bool, fact: Narrowing)
    ensures rejected == CondRejected(slots, state.View(), cond)
    ensures fact == CondNarrowing(slots, state.View(), cond)
  {
    match cond
    case Opaque(_) => return false, NoNarrowing;
    case NilTest(b, equal) =>
      var t := ReadOperand(slots, b, state);
      rejected := !IsUnion(t) || NIL !in t;
      if b == 0 || (b in state.facts && state.facts[b].escaped) || rejected {
        return rejected, NoNarrowing;
      }
      return rejected, if equal then Narrowing(b, {NIL}, t - {NIL}) else Narrowing(b, t - {NIL}, {NIL});
    case MemberTest(b, member) =>
      var t := ReadOperand(slots, b, state);
      var escaped := b in state.facts && state.facts[b].escaped;
      rejected := member == NIL || !IsUnion(t) || escaped || member !in t || (|t| == 2 && NIL in t);
      if b == 0 || escaped || !IsUnion(t) || member !in t {
        return rejected, NoNarrowing;
      }
      return rejected, Narrowing(b, {member}, t - {member});
  }

  method CheckWhileStatement(slots: Slots, stmt: Stmt, names: Names, depth: nat, ghost open: bool) returns (failed: bool)
    requires stmt.While?
    modifies names`returnFlows, names.flow, names.flow.nextAlloc
    ensures names.flow.nextAlloc == old(names.flow.nextAlloc)
    ensures Agrees(names, failed, open, CheckStmt(slots, stmt, old(names.View(false, open)), depth),
                   old(names.defers), old(names.returnFlows))
    decreases stmt, 0
  {
    ExposeAll(stmt.guard, names.flow);
    var rejected, fact := TestCondition(slots, stmt.guard, names.flow);
    failed := CheckLoop(slots, stmt.loop, names, depth, fact, rejected, open);
  }

  method CheckUnsafeStatement(slots: Slots, stmt: Stmt, names: Names, depth: nat, ghost open: bool) returns (failed: bool)
    requires stmt.Unsafe?
    modifies names`returnFlows, names.flow, names.flow.nextAlloc
    ensures names.flow.nextAlloc == old(names.flow.nextAlloc)
    ensures Agrees(names, failed, open, CheckStmt(slots, stmt, old(names.View(false, open)), depth),
                   old(names.defers), old(names.returnFlows))
    decreases stmt, 0
  {
    var scope := new Names(names.flow);
    ghost var counter := names.flow.nextAlloc;
    failed := CheckStatements(slots, stmt.region, scope, depth);
    if !failed {
      names.RecordChildReturnFlows(scope.returnFlows);
    }
  }

  method CheckSimpleStatement(stmt: Stmt, names: Names, depth: nat, ghost open: bool) returns (failed: bool)
    requires Simple(stmt)
    modifies names`defers, names.flow, names.flow.nextAlloc
    ensures names.flow.nextAlloc == old(names.flow.nextAlloc)
    ensures Agrees(names, failed, open, CheckSimple(stmt, old(names.View(false, open)), depth),
                   old(names.defers), old(names.returnFlows))
  {
    failed := false;
    match stmt
    case Declare(b, trackable, init) =>
      if trackable {
        names.flow.Track(b);
        if DirectSource(init) != 0 {
          names.flow.Alias(DirectSource(init), b);
        }
      }
    case Assign(b, init) =>
      if b != 0 {
        names.flow.Invalidate(b);
        if DirectSource(init) != 0 {
          names.flow.Alias(DirectSource(init), b);
        } else {
          names.flow.Clear(b);
        }
      }
    case Free(b) =>
      failed := CheckTrackedFree(b, names.flow);
    case Deref(b) =>
      failed := names.flow.IsFreed(b);
    case Expose(b) =>
      names.flow.EscapeBinding(b);
    case DeferFree(b) =>
      names.defers := names.defers + [Action(b, TrackedAllocation(names.flow.View(), b))];
    case Return =>
    case Break =>
      failed := depth == 0;
    case Continue =>
      failed := depth == 0;
  }

  /** The writable addresses an opaque condition takes. */
  method ExposeAll(cond: Cond, state: FlowState)
    modifies state
    ensures state.View() == CondEffects(old(state.View()), cond)
    ensures state.nextAlloc == old(state.nextAlloc)
  {
    if cond.Opaque? {
      for i := 0 to |cond.exposes|
        invariant state.nextAlloc == old(state.nextAlloc)
        invariant EscapeAll(state.View(), cond.exposes[i..]) == EscapeAll(old(state.View()), cond.exposes)
      {
        assert cond.exposes[i..][1..] == cond.exposes[i + 1..];
        state.EscapeBinding(cond.exposes[i]);
      }
    }
  }

  /** A body checked once on a clone and merged with the zero-iteration path. */
  method CheckLoop(slots: Slots, body: seq<Stmt>, names: Names, depth: nat, fact: Narrowing, rejected: bool,
                   ghost open: bool)
    returns (failed: bool)
    modifies names`returnFlows, names.flow, names.flow.nextAlloc
    ensures names.flow.nextAlloc == old(names.flow.nextAlloc)
    ensures var f := old(names.flow.View());
      var start := if rejected || fact.NoNarrowing? then f else Narrow(f, fact.binding, fact.typ);
      var child := CheckBlock(slots, body, start, old(names.flow.nextAlloc.value), depth + 1);
      Agrees(names, failed, open, Iterated(old(names.View(false, open)), f, rejected, child),
             old(names.defers), old(names.returnFlows))
    decreases body, 2
  {
    var state := names.flow.Clone();
    if !rejected && fact.Narrowing? {
      state.SetNarrowed(fact.binding, fact.typ);
    }
    var scope := new Names(state);
    var bad := CheckStatements(slots, body, scope, depth + 1);
    if !bad {
      names.RecordChildReturnFlows(scope.returnFlows);
      JoinIteration(names.flow, state);
    }
    failed := rejected || bad;
  }

  /** The loop join: the state before the loop against the state one iteration left. */
  method JoinIteration(flow: FlowState, after: FlowState)
    requires flow != after && flow.nextAlloc == after.nextAlloc
    modifies flow
    ensures flow.View() == Merge(old(flow.View()), [old(flow.View()), after.View()])
    ensures flow.nextAlloc == old(flow.nextAlloc) && flow.nextAlloc.value == old(flow.nextAlloc.value)
  {
    var before := flow.Clone();
    assert Views([before, after]) == [old(flow.View()), after.View()];
    flow.MergeBranches([before, after]);
  }

  ghost predicate Sharing(states: seq<FlowState>, counter: Counter)
    reads states
  {
    forall i | 0 <= i < |states| :: states[i].nextAlloc == counter
  }

  /** Checks one body of an if chain on its own clone; a clean body that does not terminate
      continues past the chain. */
  method CheckBranch(slots: Slots, body: seq<Stmt>, names: Names, state: FlowState, depth: nat,
                     continuing: seq<FlowState>, failed: bool, ghost chain: Chain)
    returns (continuing': seq<FlowState>, failed': bool)
    requires state != names.flow && state !in continuing && names.flow !in continuing
    requires state.nextAlloc == names.flow.nextAlloc && Sharing(continuing, names.flow.nextAlloc)
    requires failed == chain.failed && Views(continuing) == chain.continuing
    requires names.flow.nextAlloc.value == chain.next
    requires names.returnFlows == chain.exits
    modifies names`returnFlows, state, names.flow.nextAlloc
    ensures names.flow.nextAlloc == old(names.flow.nextAlloc)
    ensures continuing' == continuing || continuing' == continuing + [state]
    ensures Sharing(continuing', names.flow.nextAlloc)
    ensures var next := AddBranch(chain, body, names.defers,
                                  CheckBlock(slots, body, old(state.View()), chain.next, depth));
      && failed' == next.failed && Views(continuing') == next.continuing
      && names.flow.nextAlloc.value == next.next && names.returnFlows == next.exits
    decreases body, 2
  {
    var scope := new Names(state);
    var bad := CheckStatements(slots, body, scope, depth);
    continuing', failed' := continuing, failed || bad;
    assert Views(continuing) == chain.continuing;
    if !bad {
      names.RecordChildReturnFlows(scope.returnFlows);
      if !SeqTerminates(body) {
        continuing' := continuing + [state];
      }
    }
  }

  /** The states of the two sides of a condition: the side where it holds on a state of its own, the
      other on the state itself unless it is narrowed. */
  method SplitOn(slots: Slots, cond: Cond, state: FlowState) returns (rejected: bool, inside: FlowState, otherwise: FlowState)
    ensures fresh(inside) && inside != otherwise && (otherwise == state || fresh(otherwise))
    ensures inside.nextAlloc == state.nextAlloc == otherwise.nextAlloc
    ensures rejected == CondRejected(slots, state.View(), cond)
    ensures inside.View() == Narrowed(slots, state.View(), cond, true)
    ensures otherwise.View() == Narrowed(slots, state.View(), cond, false)
  {
    var fact;
    rejected, fact := TestCondition(slots, cond, state);
    otherwise := state;
    inside := state.Clone();
    if !rejected && fact.Narrowing? {
      inside.SetNarrowed(fact.binding, fact.typ);
      otherwise := state.Clone();
      otherwise.SetNarrowed(fact.binding, fact.other);
    }
  }

  /** One elseif: `state` carries the path where every earlier condition was false, and the
      body is checked on a clone of it. */
  method CheckElseIf(slots: Slots, branch: Branch, names: Names, state: FlowState, depth: nat,
                     continuing: seq<FlowState>, failed: bool, ghost chain: Chain)
    returns (otherwise: FlowState, continuing': seq<FlowState>, failed': bool)
    requires state != names.flow && state !in continuing && names.flow !in continuing
    requires state.nextAlloc == names.flow.nextAlloc && Sharing(continuing, names.flow.nextAlloc)
    requires failed == chain.failed && Views(continuing) == chain.continuing
    requires names.flow.nextAlloc.value == chain.next
    requires names.returnFlows == chain.exits && state.View() == chain.otherwise
    modifies names`returnFlows, state, names.flow.nextAlloc
    ensures names.flow.nextAlloc == old(names.flow.nextAlloc)
    ensures otherwise == state || fresh(otherwise)
    ensures otherwise !in continuing' && otherwise.nextAlloc == names.flow.nextAlloc
    ensures forall c | c in continuing' :: c in continuing || fresh(c)
    ensures Sharing(continuing', names.flow.nextAlloc)
    ensures var next := CheckElif(slots, branch, chain, names.defers, depth);
      && otherwise.View() == next.otherwise
      && failed' == next.failed && Views(continuing') == next.continuing
      && names.flow.nextAlloc.value == next.next && names.returnFlows == next.exits
    decreases branch, 1
  {
    ExposeAll(branch.cond, state);
    var rejected, inside;
    rejected, inside, otherwise := SplitOn(slots, branch.cond, state);
    ghost var turned := chain.(otherwise := otherwise.View(), failed := chain.failed || rejected);
    assert Views(continuing) == chain.continuing;
    continuing', failed' :=
      CheckBranch(slots, branch.body, names, inside, depth, continuing, failed || rejected, turned);
  }

  method CheckElseIfs(slots: Slots, elifs: seq<Branch>, names: Names, state: FlowState, depth: nat,
                      continuing: seq<FlowState>, failed: bool, ghost chain: Chain)
    returns (otherwise: FlowState, continuing': seq<FlowState>, failed': bool)
    requires state != names.flow && state !in continuing && names.flow !in continuing
    requires state.nextAlloc == names.flow.nextAlloc && Sharing(continuing, names.flow.nextAlloc)
    requires failed == chain.failed && Views(continuing) == chain.continuing
    requires names.flow.nextAlloc.value == chain.next
    requires names.returnFlows == chain.exits && state.View() == chain.otherwise
    modifies names`returnFlows, state, names.flow.nextAlloc
    ensures names.flow.nextAlloc == old(names.flow.nextAlloc)
    ensures otherwise == state || fresh(otherwise)
    ensures otherwise !in continuing' && otherwise.nextAlloc == names.flow.nextAlloc
    ensures forall c | c in continuing' :: c in continuing || fresh(c)
    ensures Sharing(continuing', names.flow.nextAlloc)
    ensures var last := CheckElifs(slots, elifs, chain, names.defers, depth);
      && otherwise.View() == last.otherwise
      && failed' == last.failed && Views(continuing') == last.continuing
      && names.flow.nextAlloc.value == last.next && names.returnFlows == last.exits
    decreases elifs, 2
  {
    otherwise, continuing', failed' := state, continuing, failed;
    ghost var current := chain;
    for i := 0 to |elifs|
      invariant names.flow.nextAlloc == old(names.flow.nextAlloc)
      invariant names.flow != otherwise && names.flow !in continuing'
      invariant otherwise == state || fresh(otherwise)
      invariant otherwise !in continuing' && otherwise.nextAlloc == names.flow.nextAlloc
      invariant forall c | c in continuing' :: c in continuing || fresh(c)
      invariant Sharing(continuing', names.flow.nextAlloc)
      invariant otherwise.View() == current.otherwise && Views(continuing') == current.continuing
      invariant failed' == current.failed && names.flow.nextAlloc.value == current.next
      invariant names.returnFlows == current.exits
      invariant CheckElifs(slots, elifs[i..], current, names.defers, depth)
             == CheckElifs(slots, elifs, chain, names.defers, depth)
    {
      assert elifs[i..][0] == elifs[i] && elifs[i..][1..] == elifs[i + 1..];
      otherwise, continuing', failed' :=
        CheckElseIf(slots, elifs[i], names, otherwise, depth, continuing', failed', current);
      current := CheckElif(slots, elifs[i], current, names.defers, depth);
    }
  }

  /** The states of the two sides of an if's condition, each a clone. */
  method BothSides(slots: Slots, cond: Cond, state: FlowState) returns (rejected: bool, inside: FlowState, otherwise: FlowState)
    ensures fresh(inside) && fresh(otherwise) && inside != otherwise
    ensures inside.nextAlloc == state.nextAlloc == otherwise.nextAlloc
    ensures rejected == CondRejected(slots, state.View(), cond)
    ensures inside.View() == Narrowed(slots, state.View(), cond, true)
    ensures otherwise.View() == Narrowed(slots, state.View(), cond, false)
  {
    var fact;
    rejected, fact := TestCondition(slots, cond, state);
    inside := state.Clone();
    otherwise := state.Clone();
    if !rejected && fact.Narrowing? {
      inside.SetNarrowed(fact.binding, fact.typ);
      otherwise.SetNarrowed(fact.binding, fact.other);
    }
  }

  /** The then body on one clone; the other clone carries the failed test onward. */
  method CheckThen(slots: Slots, cond: Cond, thn: seq<Stmt>, names: Names, depth: nat, ghost open: bool)
    returns (otherwise: FlowState, continuing: seq<FlowState>, failed: bool)
    modifies names`returnFlows, names.flow, names.flow.nextAlloc
    ensures names.flow.nextAlloc == old(names.flow.nextAlloc)
    ensures names.flow.View() == CondEffects(old(names.flow.View()), cond)
    ensures fresh(otherwise) && otherwise.nextAlloc == names.flow.nextAlloc
    ensures otherwise !in continuing && (forall c | c in continuing :: fresh(c))
    ensures Sharing(continuing, names.flow.nextAlloc)
    ensures var s := old(names.View(false, open));
      var f := Narrowed(slots, CondEffects(s.flow, cond), cond, true);
      var start := StartChain(slots, cond, thn, s, CheckBlock(slots, thn, f, s.next, depth));
      && otherwise.View() == start.otherwise
      && failed == start.failed && Views(continuing) == start.continuing
      && names.flow.nextAlloc.value == start.next && names.returnFlows == start.exits
    decreases thn, 3
  {
    ghost var s := names.View(false, open);
    ExposeAll(cond, names.flow);
    var rejected, thenState;
    rejected, thenState, otherwise := BothSides(slots, cond, names.flow);
    ghost var initial := Chain(otherwise.View(), s.next, [], s.exits, rejected);
    continuing, failed := CheckBranch(slots, thn, names, thenState, depth, [], rejected, initial);
  }

  method CheckElseBody(slots: Slots, els: Else, names: Names, state: FlowState, depth: nat,
                       continuing: seq<FlowState>, failed: bool, ghost chain: Chain)
    returns (continuing': seq<FlowState>, failed': bool)
    requires state != names.flow && state !in continuing && names.flow !in continuing
    requires state.nextAlloc == names.flow.nextAlloc && Sharing(continuing, names.flow.nextAlloc)
    requires failed == chain.failed && Views(continuing) == chain.continuing
    requires names.flow.nextAlloc.value == chain.next
    requires names.returnFlows == chain.exits && state.View() == chain.otherwise
    modifies names`returnFlows, state, names.flow.nextAlloc
    ensures names.flow.nextAlloc == old(names.flow.nextAlloc)
    ensures forall c | c in continuing' :: c in continuing || c == state
    ensures Sharing(continuing', names.flow.nextAlloc)
    ensures var last := CheckElse(slots, els, chain, names.defers, depth);
      && failed' == last.failed && Views(continuing') == last.continuing
      && names.flow.nextAlloc.value == last.next && names.returnFlows == last.exits
    decreases els, 3
  {
    match els
    case NoElse =>
      continuing', failed' := continuing + [state], failed;
    case Else(body) =>
      continuing', failed' := CheckBranch(slots, body, names, state, depth, continuing, failed, chain);
  }

  method JoinBranches(state: FlowState, continuing: seq<FlowState>)
    requires state !in continuing && Sharing(continuing, state.nextAlloc)
    modifies state
    ensures state.nextAlloc == old(state.nextAlloc)
    ensures var views := old(Views(continuing));
      state.View() == if |views| == 0 then old(state.View())
                      else if |views| == 1 then views[0]
                      else Merge(old(state.View()), views)
  {
    if |continuing| == 1 {
      state.Adopt(continuing[0]);
    } else if |continuing| > 1 {
      state.MergeBranches(continuing);
    }
  }

  method CheckIfStatement(slots: Slots, stmt: Stmt, names: Names, depth: nat, ghost open: bool) returns (failed: bool)
    requires stmt.If?
    modifies names`returnFlows, names.flow, names.flow.nextAlloc
    ensures names.flow.nextAlloc == old(names.flow.nextAlloc)
    ensures Agrees(names, failed, open, CheckStmt(slots, stmt, old(names.View(false, open)), depth),
                   old(names.defers), old(names.returnFlows))
    decreases stmt, 0
  {
    ghost var s := names.View(false, open);
    StmtKeepsExits(slots, stmt, s, depth);
    var otherwise, continuing, bad := CheckThen(slots, stmt.cond, stmt.thn, names, depth, open);
    ghost var f := Narrowed(slots, CondEffects(s.flow, stmt.cond), stmt.cond, true);
    ghost var start := StartChain(slots, stmt.cond, stmt.thn, s, CheckBlock(slots, stmt.thn, f, s.next, depth));
    otherwise, continuing, bad :=
      CheckElseIfs(slots, stmt.elifs, names, otherwise, depth, continuing, bad, start);
    ghost var middle := CheckElifs(slots, stmt.elifs, start, s.defers, depth);
    continuing, bad := CheckElseBody(slots, stmt.els, names, otherwise, depth, continuing, bad, middle);
    JoinBranches(names.flow, continuing);
    failed := bad;
  }
}
