/** What checking keeps: statements that do not mention a slot leave all that is known of it, through
    branches, joins, loops and rollbacks. So a release is remembered until the slot is used again. */
module FlowUntouched {
  import opened Syntax
  import opened FlowFacts
  import opened FlowAnalysis
  import opened FlowHistory
  import opened FlowGuards
  import opened FlowPlaces
  import opened FlowArms
  import opened FlowFaults
  import opened FlowNarrowing
  import opened FlowClaims

  // ----- statements that do not mention a slot -----

  predicate CondSpares(b: BindingId, cond: Cond) {
    match cond
    case Opaque(exposes) => b !in exposes
    case NilTest(operand, _) => operand != b
    case MemberTest(operand, _) => operand != b
  }

  /** The statement neither declares, assigns, exposes nor tests b; it may release or read it. */
  predicate Spares(b: BindingId, stmt: Stmt) {
    match stmt
    case Declare(c, _, _) => c != b
    case Assign(c, _) => c != b
    case Expose(c) => c != b
    case If(cond, thn, elifs, els) =>
      CondSpares(b, cond) && AllSpare(b, thn) && BranchesSpare(b, elifs) && (els.Else? ==> AllSpare(b, els.body))
    case While(guard, loop) => CondSpares(b, guard) && AllSpare(b, loop)
    case For(each) => AllSpare(b, each)
    case Unsafe(region) => AllSpare(b, region)
    case _ => true
  }

  predicate AllSpare(b: BindingId, stmts: seq<Stmt>) {
    stmts != [] ==> Spares(b, stmts[0]) && AllSpare(b, stmts[1..])
  }

  predicate BranchesSpare(b: BindingId, elifs: seq<Branch>) {
    elifs != [] ==> CondSpares(b, elifs[0].cond) && AllSpare(b, elifs[0].body) && BranchesSpare(b, elifs[1..])
  }

  /** The facts agree on all there is to know of b but its allocation's release. */
  predicate SameOf(b: BindingId, f: Flow, g: Flow) {
    && (b in f.facts <==> b in g.facts) && (Escaped(f, b) <==> Escaped(g, b)) && NarrowedType(f, b) == NarrowedType(g, b)
    && (b in f.tracked <==> b in g.tracked) && TrackedAllocation(f, b) == TrackedAllocation(g, b)
  }

  /** A tracked slot has a fact, has not escaped, and has an identity: how a declaration leaves it. */
  predicate Firm(f: Flow, b: BindingId) {
    b in f.tracked ==> b in f.facts && !Escaped(f, b) && TrackedAllocation(f, b) != 0
  }

  // ----- one step -----

  lemma {:induction false} EscapeAllSpares(b: BindingId, f: Flow, bs: seq<BindingId>)
    requires b !in bs
    ensures SameOf(b, f, EscapeAll(f, bs))
    decreases |bs|
  {
    if bs != [] {
      assert SameOf(b, f, Escape(f, bs[0]));
      EscapeAllSpares(b, Escape(f, bs[0]), bs[1..]);
    }
  }

  lemma CondKeeps(slots: Slots, b: BindingId, f: Flow, cond: Cond, verdict: bool)
    requires CondSpares(b, cond)
    ensures SameOf(b, f, CondEffects(f, cond)) && SameOf(b, f, Narrowed(slots, CondEffects(f, cond), cond, verdict))
  {
    if cond.Opaque? { EscapeAllSpares(b, f, cond.exposes); }
  }

  lemma SimpleKeeps(b: BindingId, stmt: Stmt, s: Scope, depth: nat)
    requires Simple(stmt) && Spares(b, stmt)
    ensures SameOf(b, s.flow, CheckSimple(stmt, s, depth).flow)
  {
  }

  lemma MergeKeeps(b: BindingId, parent: Flow, branches: seq<Flow>)
    requires |branches| > 0 && Firm(parent, b) && forall i | 0 <= i < |branches| :: SameOf(b, parent, branches[i])
    ensures SameOf(b, parent, Merge(parent, branches))
  {
    var joined := Merge(parent, branches);
    assert SameOf(b, parent, branches[0]);
    assert SomeEscapes(branches, b) <==> Escaped(parent, b) by {
      assert Escaped(branches[0], b) <==> Escaped(parent, b);
    }
    if b in parent.tracked {
      assert Agreed(branches, b, TrackedAllocation(parent, b));
    }
    if b in parent.facts && !Escaped(parent, b) {
      forall i | 0 <= i < |branches| ensures b in branches[i].facts && branches[i].facts[b].typ == parent.facts[b].typ {
        assert SameOf(b, parent, branches[i]);
      }
    }
  }

  lemma CloseKeeps(b: BindingId, s: Scope)
    ensures SameOf(b, s.flow, Close(s).flow)
  {
    ValidateKeepsTracking(s.defers, s.flow);
  }

  // ----- whole statements -----

  lemma {:induction false} BlockKeeps(slots: Slots, b: BindingId, stmts: seq<Stmt>, f: Flow, n: AllocationId, depth: nat)
    requires AllSpare(b, stmts) && Firm(f, b)
    ensures SameOf(b, f, CheckBlock(slots, stmts, f, n, depth).flow)
    decreases stmts, 1
  {
    SeqKeeps(slots, b, stmts, Enter(f, n), depth);
    CloseKeeps(b, CheckSeq(slots, stmts, Enter(f, n), depth));
  }

  /** Over any statements that spare b, what is known of b stays. */
  lemma {:induction false} SeqKeeps(slots: Slots, b: BindingId, stmts: seq<Stmt>, s: Scope, depth: nat)
    requires AllSpare(b, stmts) && Firm(s.flow, b)
    ensures SameOf(b, s.flow, CheckSeq(slots, stmts, s, depth).flow)
    decreases stmts, 0
  {
    if stmts != [] {
      StmtKeeps(slots, b, stmts[0], s.(failed := false), depth);
      SeqKeeps(slots, b, stmts[1..], Step(slots, stmts[0], s, depth), depth);
    }
  }

  lemma {:induction false} StmtKeeps(slots: Slots, b: BindingId, stmt: Stmt, s: Scope, depth: nat)
    requires Spares(b, stmt) && Firm(s.flow, b)
    ensures SameOf(b, s.flow, CheckStmt(slots, stmt, s, depth).flow)
    decreases stmt, 2
  {
    match stmt
    case If(_, _, _, _) => IfKeeps(slots, b, stmt, s, depth);
    case While(guard, loop) => LoopKeeps(slots, b, guard, loop, s, depth);
    case For(each) => LoopKeeps(slots, b, Opaque([]), each, s, depth);
    case Unsafe(region) => BlockKeeps(slots, b, region, s.flow, s.next, depth);
    case _ => SimpleKeeps(b, stmt, s, depth);
  }

  lemma {:induction false} LoopKeeps(slots: Slots, b: BindingId, guard: Cond, body: seq<Stmt>, s: Scope, depth: nat)
    requires CondSpares(b, guard) && AllSpare(b, body) && Firm(s.flow, b)
    ensures var f := CondEffects(s.flow, guard);
      var child := CheckBlock(slots, body, Narrowed(slots, f, guard, true), s.next, depth + 1);
      SameOf(b, s.flow, f) && SameOf(b, s.flow, Merge(f, [f, child.flow]))
    decreases body, 2
  {
    var f := CondEffects(s.flow, guard);
    var start := Narrowed(slots, f, guard, true);
    CondKeeps(slots, b, s.flow, guard, true);
    BlockKeeps(slots, b, body, start, s.next, depth + 1);
    var both := [f, CheckBlock(slots, body, start, s.next, depth + 1).flow];
    forall i | 0 <= i < |both| ensures SameOf(b, f, both[i]) { }
    MergeKeeps(b, f, both);
  }

  /** Every side of the chain so far knows of b what the state before it did. */
  predicate ChainSame(b: BindingId, f: Flow, chain: Chain) {
    SameOf(b, f, chain.otherwise) && forall i | 0 <= i < |chain.continuing| :: SameOf(b, f, chain.continuing[i])
  }

  lemma {:induction false} IfKeeps(slots: Slots, b: BindingId, stmt: Stmt, s: Scope, depth: nat)
    requires stmt.If? && Spares(b, stmt) && Firm(s.flow, b)
    ensures SameOf(b, s.flow, CheckStmt(slots, stmt, s, depth).flow)
    decreases stmt, 1
  {
    var f := CondEffects(s.flow, stmt.cond);
    var inside := Narrowed(slots, f, stmt.cond, true);
    CondKeeps(slots, b, s.flow, stmt.cond, true);
    CondKeeps(slots, b, s.flow, stmt.cond, false);
    BlockKeeps(slots, b, stmt.thn, inside, s.next, depth);
    var start := StartChain(slots, stmt.cond, stmt.thn, s, CheckBlock(slots, stmt.thn, inside, s.next, depth));
    var middle := CheckElifs(slots, stmt.elifs, start, s.defers, depth);
    ElifsKeepSame(slots, b, f, stmt.elifs, start, s.defers, depth);
    if stmt.els.Else? { BlockKeeps(slots, b, stmt.els.body, middle.otherwise, middle.next, depth); }
    RejoinKeeps(b, s, f, CheckElse(slots, stmt.els, middle, s.defers, depth));
  }

  lemma RejoinKeeps(b: BindingId, s: Scope, f: Flow, chain: Chain)
    requires SameOf(b, s.flow, f) && Firm(s.flow, b) && ChainSame(b, f, chain)
    ensures SameOf(b, s.flow, Rejoin(s, f, chain).flow)
  {
    if |chain.continuing| >= 2 { MergeKeeps(b, f, chain.continuing); }
  }

  lemma {:induction false} ElifsKeepSame(slots: Slots, b: BindingId, f: Flow, elifs: seq<Branch>, chain: Chain,
                                         defers: seq<Action>, depth: nat)
    requires BranchesSpare(b, elifs) && Firm(f, b) && ChainSame(b, f, chain)
    ensures ChainSame(b, f, CheckElifs(slots, elifs, chain, defers, depth))
    decreases elifs, 2
  {
    if elifs != [] {
      var inside := Narrowed(slots, CondEffects(chain.otherwise, elifs[0].cond), elifs[0].cond, true);
      CondKeeps(slots, b, chain.otherwise, elifs[0].cond, true);
      CondKeeps(slots, b, chain.otherwise, elifs[0].cond, false);
      BlockKeeps(slots, b, elifs[0].body, inside, chain.next, depth);
      ElifsKeepSame(slots, b, f, elifs[1..], CheckElif(slots, elifs[0], chain, defers, depth), defers, depth);
    }
  }

  // ----- a release is remembered -----

  lemma {:induction false} SeqAppend(slots: Slots, before: seq<Stmt>, after: seq<Stmt>, s: Scope, depth: nat)
    ensures CheckSeq(slots, before + after, s, depth) == CheckSeq(slots, after, CheckSeq(slots, before, s, depth), depth)
    decreases |before|
  {
    if before == [] {
      assert before + after == after;
    } else {
      assert (before + after)[1..] == before[1..] + after;
      SeqAppend(slots, before[1..], after, Step(slots, before[0], s, depth), depth);
    }
  }

  lemma ReleaseRemembered(slots: Slots, b: BindingId, stmts: seq<Stmt>, s: Scope, depth: nat)
    requires AllSpare(b, stmts) && Firm(s.flow, b) && ReleasedIn(s.flow, b)
    ensures ReleasedIn(CheckSeq(slots, stmts, s, depth).flow, b)
  {
    SeqKeeps(slots, b, stmts, s, depth);
    SeqGrows(slots, stmts, s, depth);
  }

  lemma {:induction false} SeqGrows(slots: Slots, stmts: seq<Stmt>, s: Scope, depth: nat)
    ensures s.flow.freed <= CheckSeq(slots, stmts, s, depth).flow.freed
    decreases |stmts|
  {
    if stmts != [] {
      StmtDescends(slots, stmts[0], s.(failed := false), depth);
      SeqGrows(slots, stmts[1..], Step(slots, stmts[0], s, depth), depth);
    }
  }

  /** A sequence that comes to a use of a released slot is rejected, whatever follows. */
  lemma UseRejects(slots: Slots, before: seq<Stmt>, use: Stmt, after: seq<Stmt>, s: Scope, depth: nat, b: BindingId)
    requires (use == Free(b) || use == Deref(b)) && ReleasedIn(CheckSeq(slots, before, s, depth).flow, b)
    ensures CheckSeq(slots, before + [use] + after, s, depth).failed
  {
    var all := before + [use] + after;
    assert all[..|before|] == before && all[|before|] == use;
    OwnFaultFails(slots, all, s, |before|, depth);
  }

  /** x and y are tracked names of one allocation. */
  predicate Together(f: Flow, x: BindingId, y: BindingId) {
    x in f.tracked && y in f.tracked && Firm(f, x) && Firm(f, y) && TrackedAllocation(f, x) == TrackedAllocation(f, y)
  }

  /** An allocation released under one name, then released or read under another with nothing in
      between that declares, assigns, exposes or tests that: reported, through any branches and loops. */
  lemma NamedUseIsReported(slots: Slots, before: seq<Stmt>, x: BindingId, mid: seq<Stmt>, use: Stmt, after: seq<Stmt>,
                           f: Flow, n: AllocationId, depth: nat, y: BindingId)
    requires use == Free(y) || use == Deref(y)
    requires Together(CheckSeq(slots, before, Enter(f, n), depth).flow, x, y) && AllSpare(y, mid)
    ensures CheckBlock(slots, before + [Free(x)] + mid + [use] + after, f, n, depth).failed
  {
    var entered := Enter(f, n);
    var here := CheckSeq(slots, before, entered, depth);
    if ReleasedIn(here.flow, x) {
      UseRejects(slots, before, Free(x), mid + [use] + after, entered, depth, x);
      assert before + [Free(x)] + (mid + [use] + after) == before + [Free(x)] + mid + [use] + after;
    } else {
      var released := Step(slots, Free(x), here, depth);
      SeqAppend(slots, before, [Free(x)], entered, depth);
      assert CheckSeq(slots, [Free(x)], here, depth) == released by { assert [Free(x)][1..] == []; }
      SimpleStepIs(slots, Free(x), here, depth);
      assert ReleasedIn(released.flow, y) && Firm(released.flow, y);
      SeqAppend(slots, before + [Free(x)], mid, entered, depth);
      ReleaseRemembered(slots, y, mid, released, depth);
      UseRejects(slots, before + [Free(x)] + mid, use, after, entered, depth, y);
    }
  }

  /** A tracked slot released, then released or read again. */
  lemma SecondUseIsReported(slots: Slots, before: seq<Stmt>, mid: seq<Stmt>, use: Stmt, after: seq<Stmt>, f: Flow,
                            n: AllocationId, depth: nat, b: BindingId)
    requires use == Free(b) || use == Deref(b)
    requires var here := CheckSeq(slots, before, Enter(f, n), depth).flow; b in here.tracked && Firm(here, b)
    requires AllSpare(b, mid)
    ensures CheckBlock(slots, before + [Free(b)] + mid + [use] + after, f, n, depth).failed
  {
    NamedUseIsReported(slots, before, b, mid, use, after, f, n, depth, b);
  }

  /** The facts after one more statement of a sequence. */
  lemma OneMore(slots: Slots, before: seq<Stmt>, stmt: Stmt, s: Scope, depth: nat)
    ensures CheckSeq(slots, before + [stmt], s, depth) == Step(slots, stmt, CheckSeq(slots, before, s, depth), depth)
  {
    SeqAppend(slots, before, [stmt], s, depth);
    assert [stmt][1..] == [];
  }

  /** A pointer copied into another slot, released under either name, and used under either. */
  lemma CopiedUseIsReported(slots: Slots, before: seq<Stmt>, target: BindingId, source: BindingId, mid: seq<Stmt>,
                            x: BindingId, later: seq<Stmt>, use: Stmt, after: seq<Stmt>, f: Flow, n: AllocationId,
                            depth: nat, y: BindingId)
    requires x in {target, source} && y in {target, source} && (use == Free(y) || use == Deref(y))
    requires target != 0 && source != 0 && target != source
    requires var here := CheckSeq(slots, before, Enter(f, n), depth).flow;
      source in here.tracked && Firm(here, source) && target in here.facts && !Escaped(here, target)
    requires AllSpare(target, mid) && AllSpare(source, mid) && AllSpare(y, later)
    ensures CheckBlock(slots, before + [Assign(target, Copy(source))] + mid + [Free(x)] + later + [use] + after, f, n, depth).failed
  {
    var entered, copy := Enter(f, n), Assign(target, Copy(source));
    var here := CheckSeq(slots, before, entered, depth);
    var copied := Step(slots, copy, here, depth);
    OneMore(slots, before, copy, entered, depth);
    SimpleStepIs(slots, copy, here, depth);
    assert Together(copied.flow, target, source);
    SeqAppend(slots, before + [copy], mid, entered, depth);
    SeqKeeps(slots, target, mid, copied, depth);
    SeqKeeps(slots, source, mid, copied, depth);
    NamedUseIsReported(slots, before + [copy] + mid, x, later, use, after, f, n, depth, y);
  }

  /** A slot given a new value is tracked anew: released and used again, it is reported. */
  lemma ReassignedUseIsReported(slots: Slots, before: seq<Stmt>, mid: seq<Stmt>, later: seq<Stmt>, use: Stmt,
                                after: seq<Stmt>, f: Flow, n: AllocationId, depth: nat, b: BindingId)
    requires b != 0 && (use == Free(b) || use == Deref(b)) && AllSpare(b, mid) && AllSpare(b, later)
    requires var here := CheckSeq(slots, before, Enter(f, n), depth).flow; b in here.tracked && Firm(here, b)
    ensures CheckBlock(slots, before + [Assign(b, Other)] + mid + [Free(b)] + later + [use] + after, f, n, depth).failed
  {
    var entered := Enter(f, n);
    var here := CheckSeq(slots, before, entered, depth);
    OneMore(slots, before, Assign(b, Other), entered, depth);
    SimpleStepIs(slots, Assign(b, Other), here, depth);
    SeqAppend(slots, before + [Assign(b, Other)], mid, entered, depth);
    SeqKeeps(slots, b, mid, Step(slots, Assign(b, Other), here, depth), depth);
    SecondUseIsReported(slots, before + [Assign(b, Other)] + mid, later, use, after, f, n, depth, b);
  }

  /** From its declaration on: a pointer declared, released, and used again. */
  lemma DoubleUseIsReported(slots: Slots, before: seq<Stmt>, init: Init, mid: seq<Stmt>, later: seq<Stmt>, use: Stmt,
                            after: seq<Stmt>, f: Flow, n: AllocationId, depth: nat, b: BindingId)
    requires b != 0 && (use == Free(b) || use == Deref(b)) && AllSpare(b, mid) && AllSpare(b, later)
    requires var here := CheckSeq(slots, before, Enter(f, n), depth).flow; b !in here.facts && b !in here.tracked
    ensures CheckBlock(slots, before + [Declare(b, true, init)] + mid + [Free(b)] + later + [use] + after, f, n, depth).failed
  {
    var entered, declare := Enter(f, n), Declare(b, true, init);
    var here := CheckSeq(slots, before, entered, depth);
    var declared := Step(slots, declare, here, depth);
    SeqAppend(slots, before, [declare], entered, depth);
    assert CheckSeq(slots, [declare], here, depth) == declared by { assert [declare][1..] == []; }
    SimpleStepIs(slots, declare, here, depth);
    assert b in declared.flow.tracked && Firm(declared.flow, b);
    SeqAppend(slots, before + [declare], mid, entered, depth);
    SeqKeeps(slots, b, mid, declared, depth);
    SecondUseIsReported(slots, before + [declare] + mid, later, use, after, f, n, depth, b);
  }

  // ----- and so is a deferred one -----

  lemma {:induction false} SeqKeepsDefers(slots: Slots, stmts: seq<Stmt>, s: Scope, depth: nat)
    ensures s.defers <= CheckSeq(slots, stmts, s, depth).defers
    decreases |stmts|
  {
    if stmts != [] {
      if stmts[0].DeferFree? {
        SimpleStepIs(slots, stmts[0], s, depth);
      } else {
        StmtKeepsDefers(slots, stmts[0], s.(failed := false), depth);
      }
      SeqKeepsDefers(slots, stmts[1..], Step(slots, stmts[0], s, depth), depth);
    }
  }

  /** An exit fails over a captured identity that is in the history or captured twice. */
  lemma {:induction false} ExitFails(actions: seq<Action>, f: Flow, i: nat)
    requires i < |actions| && actions[i].captured != 0
    requires actions[i].captured in f.freed || exists j | i < j < |actions| :: actions[j].captured == actions[i].captured
    ensures Validate(actions, f).failed
    decreases |actions|
  {
    var last := |actions| - 1;
    if i < last {
      var g := ValidateOne(actions[last], f).flow;
      if j :| i < j < |actions| && actions[j].captured == actions[i].captured {
        assert j < last ==> actions[..last][j].captured == actions[i].captured;
      }
      ExitFails(actions[..last], g, i);
    }
  }

  /** A deferred release of a tracked slot, followed by another release of it, at once or deferred, with
      nothing in between that declares, assigns, exposes or tests it: reported where the scope ends. */
  lemma SecondReleaseIsReported(slots: Slots, before: seq<Stmt>, mid: seq<Stmt>, again: Stmt, after: seq<Stmt>, f: Flow,
                                n: AllocationId, depth: nat, b: BindingId)
    requires again == Free(b) || again == DeferFree(b)
    requires var here := CheckSeq(slots, before, Enter(f, n), depth).flow; b in here.tracked && Firm(here, b)
    requires AllSpare(b, mid)
    requires CheckSeq(slots, before + [DeferFree(b)] + mid + [again] + after, Enter(f, n), depth).open
    ensures CheckBlock(slots, before + [DeferFree(b)] + mid + [again] + after, f, n, depth).failed
  {
    var entered, all := Enter(f, n), before + [DeferFree(b)] + mid + [again] + after;
    var here := CheckSeq(slots, before, entered, depth);
    var registered := Step(slots, DeferFree(b), here, depth);
    var a := TrackedAllocation(here.flow, b);
    SeqAppend(slots, before, [DeferFree(b)], entered, depth);
    assert CheckSeq(slots, [DeferFree(b)], here, depth) == registered by { assert [DeferFree(b)][1..] == []; }
    SimpleStepIs(slots, DeferFree(b), here, depth);
    assert registered.flow == here.flow && registered.defers == here.defers + [Action(b, a)];
    SeqAppend(slots, before + [DeferFree(b)], mid, entered, depth);
    SeqKeeps(slots, b, mid, registered, depth);
    SeqKeepsDefers(slots, mid, registered, depth);
    AgainIsReported(slots, before + [DeferFree(b)] + mid, again, after, entered, depth, b, |here.defers|);
    var end := CheckSeq(slots, all, entered, depth);
    BlockVerdict(slots, all, f, n, depth);
    if !end.failed { FailsWhenReported(end.defers, end.flow); }
  }

  lemma AgainIsReported(slots: Slots, before: seq<Stmt>, again: Stmt, after: seq<Stmt>, s: Scope, depth: nat, b: BindingId, i: nat)
    requires again == Free(b) || again == DeferFree(b)
    requires var here := CheckSeq(slots, before, s, depth);
      i < |here.defers| && here.defers[i].captured == TrackedAllocation(here.flow, b) != 0
    ensures var end := CheckSeq(slots, before + [again] + after, s, depth);
      end.failed || Validate(end.defers, end.flow).failed
  {
    var here := CheckSeq(slots, before, s, depth);
    var next := Step(slots, again, here, depth);
    var end := CheckSeq(slots, before + [again] + after, s, depth);
    SeqAppend(slots, before, [again], s, depth);
    assert CheckSeq(slots, [again], here, depth) == next by { assert [again][1..] == []; }
    SeqAppend(slots, before + [again], after, s, depth);
    SimpleStepIs(slots, again, here, depth);
    SeqKeepsDefers(slots, after, next, depth);
    SeqGrows(slots, after, next, depth);
    if again == Free(b) {
      if ReleasedIn(here.flow, b) {
        UseRejects(slots, before, again, after, s, depth, b);
      } else {
        assert TrackedAllocation(here.flow, b) in next.flow.freed;
        ExitFails(end.defers, end.flow, i);
      }
    } else {
      assert next.defers[|here.defers|].captured == here.defers[i].captured;
      assert end.defers[|here.defers|] == next.defers[|here.defers|] && end.defers[i] == here.defers[i];
      ExitFails(end.defers, end.flow, i);
    }
  }

  // ----- a scope's deferred releases are done after it -----

  /** Past a scope that falls through, what its deferred releases captured is in the history. */
  lemma {:induction false} ExitReleases(actions: seq<Action>, f: Flow, i: nat)
    requires i < |actions| && actions[i].captured != 0 && !Validate(actions, f).failed
    ensures actions[i].captured in Validate(actions, f).flow.freed && f.freed <= Validate(actions, f).flow.freed
    decreases |actions|
  {
    var last := |actions| - 1;
    var g := ValidateOne(actions[last], f).flow;
    ExitGrows(actions[..last], g);
    if i < last { ExitReleases(actions[..last], g, i); }
  }

  lemma {:induction false} ExitGrows(actions: seq<Action>, f: Flow)
    ensures f.freed <= Validate(actions, f).flow.freed
    decreases |actions|
  {
    if actions != [] {
      var last := |actions| - 1;
      ExitGrows(actions[..last], ValidateOne(actions[last], f).flow);
    }
  }

  /** A slot whose release a nested scope defers, used after that scope: reported. */
  lemma UseAfterScopeIsReported(slots: Slots, before: seq<Stmt>, first: seq<Stmt>, second: seq<Stmt>, mid: seq<Stmt>,
                                use: Stmt, after: seq<Stmt>, f: Flow, n: AllocationId, depth: nat, b: BindingId)
    requires (use == Free(b) || use == Deref(b)) && AllSpare(b, first) && AllSpare(b, second) && AllSpare(b, mid)
    requires var here := CheckSeq(slots, before, Enter(f, n), depth);
      b in here.flow.tracked && Firm(here.flow, b) &&
      CheckSeq(slots, first + [DeferFree(b)] + second, Enter(here.flow, here.next), depth).open
    ensures CheckBlock(slots, before + [Unsafe(first + [DeferFree(b)] + second)] + mid + [use] + after, f, n, depth).failed
  {
    var entered, inner := Enter(f, n), first + [DeferFree(b)] + second;
    var here := CheckSeq(slots, before, entered, depth);
    var all := before + [Unsafe(inner)] + mid + [use] + after;
    if CheckBlock(slots, inner, here.flow, here.next, depth).failed {
      assert all[..|before|] == before && all[|before|] == Unsafe(inner);
      assert StepFails(slots, all, entered, depth, |before|);
      SeqFailsExactly(slots, all, entered, depth);
    } else {
      ScopeReleases(slots, first, second, here.flow, here.next, depth, b);
      OneMore(slots, before, Unsafe(inner), entered, depth);
      var left := Step(slots, Unsafe(inner), here, depth);
      assert left.flow == CheckBlock(slots, inner, here.flow, here.next, depth).flow;
      SeqAppend(slots, before + [Unsafe(inner)], mid, entered, depth);
      ReleaseRemembered(slots, b, mid, left, depth);
      UseRejects(slots, before + [Unsafe(inner)] + mid, use, after, entered, depth, b);
    }
  }

  lemma ScopeReleases(slots: Slots, first: seq<Stmt>, second: seq<Stmt>, f: Flow, n: AllocationId, depth: nat, b: BindingId)
    requires b in f.tracked && Firm(f, b) && AllSpare(b, first) && AllSpare(b, second)
    requires CheckSeq(slots, first + [DeferFree(b)] + second, Enter(f, n), depth).open
    requires !CheckBlock(slots, first + [DeferFree(b)] + second, f, n, depth).failed
    ensures var g := CheckBlock(slots, first + [DeferFree(b)] + second, f, n, depth).flow; ReleasedIn(g, b) && Firm(g, b)
  {
    var entered, inner := Enter(f, n), first + [DeferFree(b)] + second;
    var here := CheckSeq(slots, first, entered, depth);
    var registered := Step(slots, DeferFree(b), here, depth);
    var end := CheckSeq(slots, inner, entered, depth);
    SeqKeeps(slots, b, first, entered, depth);
    OneMore(slots, first, DeferFree(b), entered, depth);
    SimpleStepIs(slots, DeferFree(b), here, depth);
    SeqAppend(slots, first + [DeferFree(b)], second, entered, depth);
    SeqKeeps(slots, b, second, registered, depth);
    SeqKeepsDefers(slots, second, registered, depth);
    var i := |here.defers|;
    assert end.defers[i] == registered.defers[i] == Action(b, TrackedAllocation(f, b));
    ExitReleases(end.defers, end.flow, i);
    CloseKeeps(b, end);
  }

  // ----- what a guard clause establishes -----

  /** After an if whose body never comes to its end and that has no else, the tested slot holds exactly
      the kinds for which the condition fails. */
  lemma GuardClauseNarrows(slots: Slots, cond: Cond, thn: seq<Stmt>, s: Scope, depth: nat)
    requires !cond.Opaque? && cond.operand != 0 && !Escaped(s.flow, cond.operand) && SeqTerminates(thn)
    requires !CheckStmt(slots, If(cond, thn, [], NoElse), s.(failed := false), depth).failed
    ensures var g := Step(slots, If(cond, thn, [], NoElse), s, depth).flow;
      forall k :: k in NarrowedType(g, cond.operand) <==>
        k in ReadType(slots, s.flow, cond.operand) && Possible(slots, cond, k, false)
  {
    var stmt, before := If(cond, thn, [], NoElse), s.(failed := false);
    var f := Narrowed(slots, CondEffects(s.flow, cond), cond, true);
    var start := StartChain(slots, cond, thn, before, CheckBlock(slots, thn, f, s.next, depth));
    assert CheckElifs(slots, [], start, s.defers, depth) == start;
    IfStepIs(slots, stmt, s, depth);
    assert IfChain(slots, stmt, before, depth).continuing == [Narrowed(slots, s.flow, cond, false)];
    NarrowingExact(slots, s.flow, cond, false);
  }

  /** Inside the body of an if or a while, the tested slot holds exactly the kinds for which the test
      succeeds; inside an else directly after it, those for which it fails. */
  lemma BodyNarrows(slots: Slots, stmts: seq<Stmt>, s: Scope, outer: seq<Action>, i: nat, depth: nat)
    requires i < |stmts| && (stmts[i].If? || stmts[i].While?)
    requires var cond := if stmts[i].If? then stmts[i].cond else stmts[i].guard;
      var f := CheckSeq(slots, stmts[..i], s, depth).flow;
      !cond.Opaque? && cond.operand != 0 && !Escaped(f, cond.operand) && !CondRejected(slots, f, cond)
    ensures var cond := if stmts[i].If? then stmts[i].cond else stmts[i].guard;
      var f := CheckSeq(slots, stmts[..i], s, depth).flow;
      && (forall k :: k in NarrowedType(PointAt(slots, stmts, s, outer, In(i, 0, At(0)), depth).flow, cond.operand) <==>
            k in ReadType(slots, f, cond.operand) && Possible(slots, cond, k, true))
      && (stmts[i].If? && stmts[i].elifs == [] && stmts[i].els.Else? ==>
            forall k :: k in NarrowedType(PointAt(slots, stmts, s, outer, In(i, 1, At(0)), depth).flow, cond.operand) <==>
              k in ReadType(slots, f, cond.operand) && Possible(slots, cond, k, false))
  {
    var cond := if stmts[i].If? then stmts[i].cond else stmts[i].guard;
    var here := CheckSeq(slots, stmts[..i], s, depth);
    NarrowingExact(slots, here.flow, cond, true);
    NarrowingExact(slots, here.flow, cond, false);
    assert ArmBody(stmts[i], 0)[..0] == [];
    if stmts[i].If? && stmts[i].elifs == [] && stmts[i].els.Else? {
      assert ArmBody(stmts[i], 1)[..0] == [];
      assert ArmEntry(slots, stmts[i], here, 1, depth).flow == Narrowed(slots, here.flow, cond, false);
    }
  }
}
