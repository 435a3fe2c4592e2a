/** What checking can never do to the facts it started from: forget a release, revive an
    escaped slot, or mint an identity some other state already holds. */
module FlowHistory {
  import opened Syntax
  import opened FlowFacts
  import opened FlowAnalysis

  /** g keeps every fact key, every escape and every release of f. */
  predicate Grows(f: Flow, g: Flow) {
    && f.facts.Keys <= g.facts.Keys
    && f.freed <= g.freed
    && forall b | b in f.facts && f.facts[b].escaped :: Escaped(g, b)
  }

  /** The identity a occurs in f. */
  predicate Names(f: Flow, a: AllocationId) {
    a in f.freed || a in f.allocation.Values
  }

  /** a occurs in f, or was minted between the counter values `from` and `to`. */
  predicate Known(f: Flow, from: AllocationId, a: AllocationId, to: AllocationId) {
    a == 0 || Names(f, a) || from < a <= to
  }

  ghost predicate Descends(f: Flow, from: AllocationId, g: Flow, to: AllocationId) {
    && Grows(f, g)
    && from <= to
    && forall a | Names(g, a) :: Known(f, from, a, to)
  }

  ghost predicate ActionsKnown(f: Flow, from: AllocationId, actions: seq<Action>, to: AllocationId) {
    forall i | 0 <= i < |actions| :: Known(f, from, actions[i].captured, to)
  }

  ghost predicate ChainDescends(f: Flow, from: AllocationId, chain: Chain) {
    && Descends(f, from, chain.otherwise, chain.next)
    && forall i | 0 <= i < |chain.continuing| :: Descends(f, from, chain.continuing[i], chain.next)
  }

  lemma DescendsTransitive(f: Flow, n: AllocationId, g: Flow, m: AllocationId, h: Flow, k: AllocationId)
    requires Descends(f, n, g, m) && Descends(g, m, h, k)
    ensures Descends(f, n, h, k)
  {
    forall a | Names(h, a)
      ensures Known(f, n, a, k)
    {
      assert Known(g, m, a, k);
      if Names(g, a) { assert Known(f, n, a, m); }
    }
  }

  lemma DescendsLater(f: Flow, n: AllocationId, g: Flow, m: AllocationId, k: AllocationId)
    requires Descends(f, n, g, m) && m <= k
    ensures Descends(f, n, g, k)
  {
    forall a | Names(g, a)
      ensures Known(f, n, a, k)
    {
      assert Known(f, n, a, m);
    }
  }

  // ----- one operation at a time -----

  lemma {:induction false} EscapeAllDescends(f: Flow, bs: seq<BindingId>, n: AllocationId)
    ensures Descends(f, n, EscapeAll(f, bs), n)
    decreases |bs|
  {
    if bs != [] {
      EscapeAllDescends(Escape(f, bs[0]), bs[1..], n);
      DescendsTransitive(f, n, Escape(f, bs[0]), n, EscapeAll(f, bs), n);
    }
  }

  lemma NarrowedDescends(slots: Slots, f: Flow, cond: Cond, verdict: bool, n: AllocationId)
    ensures Descends(f, n, Narrowed(slots, f, cond, verdict), n)
  {
  }

  /** The flow a branch of a condition starts from. */
  lemma BranchDescends(slots: Slots, f: Flow, cond: Cond, verdict: bool, n: AllocationId)
    ensures Descends(f, n, Narrowed(slots, CondEffects(f, cond), cond, verdict), n)
    ensures Descends(f, n, CondEffects(f, cond), n)
  {
    if cond.Opaque? { EscapeAllDescends(f, cond.exposes, n); }
    NarrowedDescends(slots, CondEffects(f, cond), cond, verdict, n);
    DescendsTransitive(f, n, CondEffects(f, cond), n, Narrowed(slots, CondEffects(f, cond), cond, verdict), n);
  }

  lemma {:induction false} ValidateDescends(f: Flow, n: AllocationId, actions: seq<Action>, g: Flow, m: AllocationId)
    requires Descends(f, n, g, m) && ActionsKnown(f, n, actions, m)
    ensures Descends(f, n, Validate(actions, g).flow, m)
  {
    if actions != [] {
      var action := actions[|actions| - 1];
      var next := ValidateOne(action, g).flow;
      forall a | Names(next, a)
        ensures Known(f, n, a, m)
      {
        assert Names(g, a) || a == action.captured;
        if !Names(g, a) { assert Known(f, n, actions[|actions| - 1].captured, m); }
      }
      assert Descends(f, n, next, m);
      ValidateDescends(f, n, actions[..|actions| - 1], next, m);
    }
  }

  lemma SimpleDescends(stmt: Stmt, s: Scope, depth: nat)
    requires Simple(stmt)
    ensures Descends(s.flow, s.next, CheckSimple(stmt, s, depth).flow, CheckSimple(stmt, s, depth).next)
  {
  }

  lemma MergeDescends(f: Flow, n: AllocationId, parent: Flow, branches: seq<Flow>, m: AllocationId)
    requires |branches| > 0 && Descends(f, n, parent, m)
    requires forall i | 0 <= i < |branches| :: Descends(f, n, branches[i], m)
    ensures Descends(f, n, Merge(parent, branches), m)
  {
    var joined := Merge(parent, branches);
    forall b | b in f.facts && f.facts[b].escaped
      ensures Escaped(joined, b)
    {
      assert Grows(f, branches[0]) && Escaped(branches[0], b);
    }
    forall a | a in f.freed
      ensures a in joined.freed
    {
      forall i | 0 <= i < |branches| ensures a in branches[i].freed { assert Grows(f, branches[i]); }
    }
    forall a | Names(joined, a)
      ensures Known(f, n, a, m)
    {
      if a in joined.freed {
        assert Names(branches[0], a);
      } else {
        var b :| b in joined.allocation && joined.allocation[b] == a;
        if b in parent.tracked {
          assert a == branches[0].allocation[b] && Names(branches[0], a);
        } else {
          assert Names(parent, a);
        }
      }
    }
  }

  // ----- whole statements -----

  /** What every scope reached from flow f at counter n satisfies. */
  ghost predicate ScopeDescends(f: Flow, n: AllocationId, s: Scope) {
    Descends(f, n, s.flow, s.next) && ActionsKnown(f, n, s.defers, s.next)
  }

  lemma ActionsStayKnown(f: Flow, n: AllocationId, actions: seq<Action>, m: AllocationId, k: AllocationId)
    requires ActionsKnown(f, n, actions, m) && m <= k
    ensures ActionsKnown(f, n, actions, k)
  {
    forall i | 0 <= i < |actions|
      ensures Known(f, n, actions[i].captured, k)
    {
      assert Known(f, n, actions[i].captured, m);
    }
  }

  lemma {:induction false} BlockDescends(slots: Slots, stmts: seq<Stmt>, f: Flow, n: AllocationId, depth: nat)
    ensures var r := CheckBlock(slots, stmts, f, n, depth); Descends(f, n, r.flow, r.next)
    decreases stmts, 1
  {
    var s := CheckSeq(slots, stmts, Enter(f, n), depth);
    SeqDescends(slots, stmts, f, n, Enter(f, n), depth);
    if s.open { ValidateDescends(f, n, s.defers, s.flow, s.next); }
  }

  lemma {:induction false} SeqDescends(slots: Slots, stmts: seq<Stmt>, f: Flow, n: AllocationId, s: Scope, depth: nat)
    requires ScopeDescends(f, n, s)
    ensures ScopeDescends(f, n, CheckSeq(slots, stmts, s, depth))
    decreases stmts, 0
  {
    if stmts != [] {
      StepDescends(slots, stmts[0], f, n, s, depth);
      SeqDescends(slots, stmts[1..], f, n, Step(slots, stmts[0], s, depth), depth);
    }
  }

  lemma {:induction false} StepDescends(slots: Slots, stmt: Stmt, f: Flow, n: AllocationId, s: Scope, depth: nat)
    requires ScopeDescends(f, n, s)
    ensures ScopeDescends(f, n, Step(slots, stmt, s, depth))
    decreases stmt, 2
  {
    var before := s.(failed := false);
    var r := CheckStmt(slots, stmt, before, depth);
    StmtDescends(slots, stmt, before, depth);
    DescendsTransitive(f, n, s.flow, s.next, r.flow, r.next);
    DescendsLater(f, n, s.flow, s.next, r.next);
    ActionsStayKnown(f, n, s.defers, s.next, r.next);
    if stmt.DeferFree? {
      var a := TrackedAllocation(s.flow, stmt.binding);
      assert a != 0 ==> Names(s.flow, a);
      assert r.defers == s.defers + [Action(stmt.binding, a)];
    } else {
      StmtKeepsDefers(slots, stmt, before, depth);
    }
  }

  lemma StmtKeepsDefers(slots: Slots, stmt: Stmt, s: Scope, depth: nat)
    requires !stmt.DeferFree?
    ensures CheckStmt(slots, stmt, s, depth).defers == s.defers
  {
  }

  lemma {:induction false} StmtDescends(slots: Slots, stmt: Stmt, s: Scope, depth: nat)
    ensures var r := CheckStmt(slots, stmt, s, depth); Descends(s.flow, s.next, r.flow, r.next)
    decreases stmt, 1
  {
    match stmt
    case If(_, _, _, _) => IfDescends(slots, stmt, s, depth);
    case While(guard, loop) =>
      var f := CondEffects(s.flow, guard);
      BranchDescends(slots, s.flow, guard, true, s.next);
      LoopDescends(slots, loop, s.flow, f, Narrowed(slots, f, guard, true), s.next, depth);
    case For(each) =>
      LoopDescends(slots, each, s.flow, s.flow, s.flow, s.next, depth);
    case Unsafe(region) => BlockDescends(slots, region, s.flow, s.next, depth);
    case _ => SimpleDescends(stmt, s, depth);
  }

  lemma {:induction false} LoopDescends(slots: Slots, body: seq<Stmt>, base: Flow, f: Flow, start: Flow, n: AllocationId, depth: nat)
    requires Descends(base, n, f, n) && Descends(base, n, start, n)
    ensures var child := CheckBlock(slots, body, start, n, depth + 1);
      Descends(base, n, Merge(f, [f, child.flow]), child.next) && Descends(base, n, f, child.next)
    decreases body, 2
  {
    var child := CheckBlock(slots, body, start, n, depth + 1);
    BlockDescends(slots, body, start, n, depth + 1);
    DescendsTransitive(base, n, start, n, child.flow, child.next);
    DescendsLater(base, n, f, n, child.next);
    MergeDescends(base, n, f, [f, child.flow], child.next);
  }

  lemma AddBranchDescends(f: Flow, n: AllocationId, chain: Chain, body: seq<Stmt>, defers: seq<Action>, child: Scope)
    requires ChainDescends(f, n, chain) && Descends(f, n, child.flow, child.next) && chain.next <= child.next
    ensures ChainDescends(f, n, AddBranch(chain, body, defers, child))
  {
    var next := AddBranch(chain, body, defers, child);
    DescendsLater(f, n, chain.otherwise, chain.next, next.next);
    forall i | 0 <= i < |next.continuing|
      ensures Descends(f, n, next.continuing[i], next.next)
    {
      if i < |chain.continuing| { DescendsLater(f, n, chain.continuing[i], chain.next, next.next); }
    }
  }

  lemma {:induction false} ElifsDescend(slots: Slots, elifs: seq<Branch>, f: Flow, n: AllocationId, chain: Chain,
                                        defers: seq<Action>, depth: nat)
    requires ChainDescends(f, n, chain)
    ensures ChainDescends(f, n, CheckElifs(slots, elifs, chain, defers, depth))
    decreases elifs, 0
  {
    if elifs != [] {
      ElifDescends(slots, elifs[0], f, n, chain, defers, depth);
      ElifsDescend(slots, elifs[1..], f, n, CheckElif(slots, elifs[0], chain, defers, depth), defers, depth);
    }
  }

  lemma {:induction false} ElifDescends(slots: Slots, branch: Branch, f: Flow, n: AllocationId, chain: Chain,
                                        defers: seq<Action>, depth: nat)
    requires ChainDescends(f, n, chain)
    ensures ChainDescends(f, n, CheckElif(slots, branch, chain, defers, depth))
    decreases branch, 0
  {
    var effects := CondEffects(chain.otherwise, branch.cond);
    var start, stay := Narrowed(slots, effects, branch.cond, true), Narrowed(slots, effects, branch.cond, false);
    var child := CheckBlock(slots, branch.body, start, chain.next, depth);
    BranchDescends(slots, chain.otherwise, branch.cond, true, chain.next);
    BranchDescends(slots, chain.otherwise, branch.cond, false, chain.next);
    DescendsTransitive(f, n, chain.otherwise, chain.next, start, chain.next);
    DescendsTransitive(f, n, chain.otherwise, chain.next, stay, chain.next);
    BlockDescends(slots, branch.body, start, chain.next, depth);
    DescendsTransitive(f, n, start, chain.next, child.flow, child.next);
    var turned := chain.(otherwise := stay, failed := chain.failed || CondRejected(slots, effects, branch.cond));
    AddBranchDescends(f, n, turned, branch.body, defers, child);
  }

  lemma {:induction false} ElseDescends(slots: Slots, els: Else, f: Flow, n: AllocationId, chain: Chain,
                                        defers: seq<Action>, depth: nat)
    requires ChainDescends(f, n, chain)
    ensures ChainDescends(f, n, CheckElse(slots, els, chain, defers, depth))
    decreases els, 0
  {
    if els.Else? {
      var child := CheckBlock(slots, els.body, chain.otherwise, chain.next, depth);
      BlockDescends(slots, els.body, chain.otherwise, chain.next, depth);
      DescendsTransitive(f, n, chain.otherwise, chain.next, child.flow, child.next);
      AddBranchDescends(f, n, chain, els.body, defers, child);
    }
  }

  /** The chain an if ends with, before its branches are rejoined. */
  function IfChain(slots: Slots, stmt: Stmt, s: Scope, depth: nat): Chain
    requires stmt.If?
  {
    var f := Narrowed(slots, CondEffects(s.flow, stmt.cond), stmt.cond, true);
    var start := StartChain(slots, stmt.cond, stmt.thn, s, CheckBlock(slots, stmt.thn, f, s.next, depth));
    CheckElse(slots, stmt.els, CheckElifs(slots, stmt.elifs, start, s.defers, depth), s.defers, depth)
  }

  lemma {:induction false} StartDescends(slots: Slots, stmt: Stmt, s: Scope, depth: nat)
    requires stmt.If?
    ensures var effects := CondEffects(s.flow, stmt.cond);
      var child := CheckBlock(slots, stmt.thn, Narrowed(slots, effects, stmt.cond, true), s.next, depth);
      ChainDescends(effects, s.next, StartChain(slots, stmt.cond, stmt.thn, s, child))
    decreases stmt.thn, 2
  {
    var effects := CondEffects(s.flow, stmt.cond);
    var start, stay := Narrowed(slots, effects, stmt.cond, true), Narrowed(slots, effects, stmt.cond, false);
    var child := CheckBlock(slots, stmt.thn, start, s.next, depth);
    NarrowedDescends(slots, effects, stmt.cond, true, s.next);
    NarrowedDescends(slots, effects, stmt.cond, false, s.next);
    BlockDescends(slots, stmt.thn, start, s.next, depth);
    DescendsTransitive(effects, s.next, start, s.next, child.flow, child.next);
    AddBranchDescends(effects, s.next, Chain(stay, s.next, [], s.exits, CondRejected(slots, effects, stmt.cond)),
                      stmt.thn, s.defers, child);
  }

  lemma {:induction false} IfDescends(slots: Slots, stmt: Stmt, s: Scope, depth: nat)
    requires stmt.If?
    ensures ChainDescends(CondEffects(s.flow, stmt.cond), s.next, IfChain(slots, stmt, s, depth))
    ensures var r := CheckStmt(slots, stmt, s, depth); Descends(s.flow, s.next, r.flow, r.next)
    decreases stmt, 0
  {
    var effects := CondEffects(s.flow, stmt.cond);
    var f := Narrowed(slots, effects, stmt.cond, true);
    var start := StartChain(slots, stmt.cond, stmt.thn, s, CheckBlock(slots, stmt.thn, f, s.next, depth));
    var middle := CheckElifs(slots, stmt.elifs, start, s.defers, depth);
    StartDescends(slots, stmt, s, depth);
    ElifsDescend(slots, stmt.elifs, effects, s.next, start, s.defers, depth);
    ElseDescends(slots, stmt.els, effects, s.next, middle, s.defers, depth);
    var r := CheckStmt(slots, stmt, s, depth);
    BranchDescends(slots, s.flow, stmt.cond, true, s.next);
    RejoinDescends(s, effects, IfChain(slots, stmt, s, depth));
    DescendsTransitive(s.flow, s.next, effects, s.next, r.flow, r.next);
  }

  lemma RejoinDescends(s: Scope, effects: Flow, chain: Chain)
    requires ChainDescends(effects, s.next, chain)
    ensures var r := Rejoin(s, effects, chain); Descends(effects, s.next, r.flow, r.next)
  {
    assert Descends(effects, s.next, effects, chain.next);
    if |chain.continuing| >= 2 {
      MergeDescends(effects, s.next, effects, chain.continuing, chain.next);
    }
  }

  // ----- the claims -----

  /** Every identity of f was minted at or before counter value n. */
  ghost predicate Bounded(f: Flow, n: AllocationId) {
    forall a: AllocationId | Names(f, a) :: a <= n
  }

  /** Along any path through any statements, joins included, an identity once released stays
      released, an escaped slot stays escaped, and the counter only moves forward past every
      identity that is in use. */
  lemma HistoryIsMonotone(slots: Slots, stmts: seq<Stmt>, f: Flow, n: AllocationId, depth: nat)
    requires Bounded(f, n)
    ensures var r := CheckBlock(slots, stmts, f, n, depth);
      && f.freed <= r.flow.freed
      && (forall b | Escaped(f, b) :: Escaped(r.flow, b))
      && n <= r.next && Bounded(r.flow, r.next)
  {
    var r := CheckBlock(slots, stmts, f, n, depth);
    BlockDescends(slots, stmts, f, n, depth);
    forall b | Escaped(f, b) ensures Escaped(r.flow, b) { }
    forall a: AllocationId | Names(r.flow, a) ensures a <= r.next { assert Known(f, n, a, r.next); }
  }

  /** Two siblings cloned from one state, checked in either order of counters the shared counter can
      give them, with anything checked in between: an identity both know was minted before they
      split. */
  lemma SiblingsShareOnlyTheirPast(slots: Slots, f: Flow, n: AllocationId, left: Flow, right: Flow,
                                   first: seq<Stmt>, second: seq<Stmt>, k: AllocationId, depth: nat, a: AllocationId)
    requires Bounded(f, n) && Descends(f, n, left, n) && Descends(f, n, right, n)
    requires CheckBlock(slots, first, left, n, depth).next <= k
    requires Names(CheckBlock(slots, first, left, n, depth).flow, a)
    requires Names(CheckBlock(slots, second, right, k, depth).flow, a)
    ensures a == 0 || Names(f, a)
  {
    var l := CheckBlock(slots, first, left, n, depth);
    var r := CheckBlock(slots, second, right, k, depth);
    BlockDescends(slots, first, left, n, depth);
    BlockDescends(slots, second, right, k, depth);
    assert Known(left, n, a, l.next) && Known(right, k, a, r.next);
    if a != 0 {
      assert Names(left, a) ==> Known(f, n, a, n);
      assert Names(right, a) ==> Known(f, n, a, n);
    }
  }

  /** The branches of a chain so far: the side where every test failed minted nothing, and what two
      of the flows that continue have in common they have from the base. */
  ghost predicate Apart(base: Flow, n: AllocationId, chain: Chain) {
    && ChainDescends(base, n, chain)
    && (forall a | Names(chain.otherwise, a) :: a == 0 || Names(base, a))
    && (forall i, j, a | 0 <= i < j < |chain.continuing| && Names(chain.continuing[i], a) && Names(chain.continuing[j], a) ::
          a == 0 || Names(base, a))
  }

  /** One more branch, checked from the counter where the chain stands, stays apart. */
  lemma ApartBranch(base: Flow, n: AllocationId, chain: Chain, body: seq<Stmt>, defers: seq<Action>, start: Flow, child: Scope)
    requires Apart(base, n, chain) && Descends(start, chain.next, child.flow, child.next)
    requires forall a | Names(start, a) :: a == 0 || Names(base, a)
    requires Descends(base, n, child.flow, child.next) && chain.next <= child.next
    requires Bounded(base, n)
    ensures Apart(base, n, AddBranch(chain, body, defers, child))
  {
    var later := AddBranch(chain, body, defers, child);
    AddBranchDescends(base, n, chain, body, defers, child);
    forall i, j, a | 0 <= i < j < |later.continuing| && Names(later.continuing[i], a) && Names(later.continuing[j], a)
      ensures a == 0 || Names(base, a)
    {
      if j == |chain.continuing| {
        assert Known(base, n, a, chain.next) by { assert Descends(base, n, chain.continuing[i], chain.next); }
        assert Known(start, chain.next, a, child.next);
      }
    }
  }

  lemma {:induction false} ApartElifs(slots: Slots, elifs: seq<Branch>, base: Flow, n: AllocationId, chain: Chain,
                                      defers: seq<Action>, depth: nat)
    requires Apart(base, n, chain) && Bounded(base, n)
    ensures Apart(base, n, CheckElifs(slots, elifs, chain, defers, depth))
    decreases |elifs|
  {
    if elifs != [] {
      ApartElif(slots, elifs[0], base, n, chain, defers, depth);
      ApartElifs(slots, elifs[1..], base, n, CheckElif(slots, elifs[0], chain, defers, depth), defers, depth);
    }
  }

  lemma ApartElif(slots: Slots, branch: Branch, base: Flow, n: AllocationId, chain: Chain, defers: seq<Action>, depth: nat)
    requires Apart(base, n, chain) && Bounded(base, n)
    ensures Apart(base, n, CheckElif(slots, branch, chain, defers, depth))
  {
    var effects := CondEffects(chain.otherwise, branch.cond);
    var start, stay := Narrowed(slots, effects, branch.cond, true), Narrowed(slots, effects, branch.cond, false);
    var child := CheckBlock(slots, branch.body, start, chain.next, depth);
    var turned := chain.(otherwise := stay, failed := chain.failed || CondRejected(slots, effects, branch.cond));
    BranchMintsNothing(slots, base, chain.otherwise, branch.cond, true);
    BranchMintsNothing(slots, base, chain.otherwise, branch.cond, false);
    BranchDescends(slots, chain.otherwise, branch.cond, true, chain.next);
    BranchDescends(slots, chain.otherwise, branch.cond, false, chain.next);
    DescendsTransitive(base, n, chain.otherwise, chain.next, start, chain.next);
    DescendsTransitive(base, n, chain.otherwise, chain.next, stay, chain.next);
    BlockDescends(slots, branch.body, start, chain.next, depth);
    DescendsTransitive(base, n, start, chain.next, child.flow, child.next);
    ApartBranch(base, n, turned, branch.body, defers, start, child);
  }

  lemma BranchMintsNothing(slots: Slots, base: Flow, f: Flow, cond: Cond, verdict: bool)
    requires forall a | Names(f, a) :: a == 0 || Names(base, a)
    ensures forall a | Names(Narrowed(slots, CondEffects(f, cond), cond, verdict), a) :: a == 0 || Names(base, a)
  {
    BranchDescends(slots, f, cond, verdict, 0);
    forall a | Names(Narrowed(slots, CondEffects(f, cond), cond, verdict), a) ensures a == 0 || Names(base, a) {
      assert Known(f, 0, a, 0);
    }
  }

  lemma ApartElse(slots: Slots, els: Else, base: Flow, n: AllocationId, chain: Chain, defers: seq<Action>, depth: nat)
    requires Apart(base, n, chain) && Bounded(base, n)
    ensures Apart(base, n, CheckElse(slots, els, chain, defers, depth))
  {
    if els.Else? {
      var child := CheckBlock(slots, els.body, chain.otherwise, chain.next, depth);
      BlockDescends(slots, els.body, chain.otherwise, chain.next, depth);
      DescendsTransitive(base, n, chain.otherwise, chain.next, child.flow, child.next);
      ApartBranch(base, n, chain, els.body, defers, chain.otherwise, child);
    }
  }

  /** Any two flows that continue past one if chain, however many branches lie between them: an
      identity both know was minted before the chain. */
  lemma ContinuingShareOnlyThePast(slots: Slots, stmt: Stmt, s: Scope, depth: nat, i: nat, j: nat, a: AllocationId)
    requires stmt.If? && Bounded(s.flow, s.next)
    requires var chain := IfChain(slots, stmt, s, depth);
      i < j < |chain.continuing| && Names(chain.continuing[i], a) && Names(chain.continuing[j], a)
    ensures a == 0 || Names(s.flow, a)
  {
    var base := CondEffects(s.flow, stmt.cond);
    var f := Narrowed(slots, base, stmt.cond, true);
    var child := CheckBlock(slots, stmt.thn, f, s.next, depth);
    var start := StartChain(slots, stmt.cond, stmt.thn, s, child);
    BranchDescends(slots, s.flow, stmt.cond, true, s.next);
    forall b: AllocationId | Names(base, b) ensures b == 0 || Names(s.flow, b) {
      assert Known(s.flow, s.next, b, s.next);
    }
    assert Bounded(base, s.next);
    StartDescends(slots, stmt, s, depth);
    assert Apart(base, s.next, start);
    ApartElifs(slots, stmt.elifs, base, s.next, start, s.defers, depth);
    ApartElse(slots, stmt.els, base, s.next, CheckElifs(slots, stmt.elifs, start, s.defers, depth), s.defers, depth);
  }

  /** After a loop the released identities are those before it, and tracking only shrank. */
  lemma LoopJoinOnlyForgets(slots: Slots, stmt: Stmt, s: Scope, depth: nat)
    requires stmt.While? || stmt.For?
    ensures var r := CheckStmt(slots, stmt, s, depth).flow;
      && r.freed == s.flow.freed
      && r.tracked <= s.flow.tracked
      && (forall b | b in r.tracked :: TrackedAllocation(r, b) == TrackedAllocation(s.flow, b))
  {
    var body := if stmt.While? then stmt.loop else stmt.each;
    var f := if stmt.While? then CondEffects(s.flow, stmt.guard) else s.flow;
    var start := if stmt.While? then Narrowed(slots, f, stmt.guard, true) else s.flow;
    var child := CheckBlock(slots, body, start, s.next, depth + 1);
    CondKeepsCleanup(slots, s.flow, if stmt.While? then stmt.guard else Opaque([]));
    BlockDescends(slots, body, start, s.next, depth + 1);
    var joined := Merge(f, [f, child.flow]);
    assert [f, child.flow][0] == f && [f, child.flow][1] == child.flow;
    assert joined.freed == f.freed;
  }

  /** A condition releases nothing and re-tracks nothing. */
  lemma CondKeepsCleanup(slots: Slots, f: Flow, cond: Cond)
    ensures var g := CondEffects(f, cond);
      && g.freed == f.freed && g.tracked <= f.tracked
      && (forall b | b in g.tracked :: TrackedAllocation(g, b) == TrackedAllocation(f, b))
    ensures Narrowed(slots, CondEffects(f, cond), cond, true).freed == f.freed
  {
    if cond.Opaque? { EscapeAllKeepsCleanup(f, cond.exposes); }
  }

  lemma {:induction false} EscapeAllKeepsCleanup(f: Flow, bs: seq<BindingId>)
    ensures var g := EscapeAll(f, bs);
      && g.freed == f.freed && g.tracked <= f.tracked
      && (forall b | b in g.tracked :: TrackedAllocation(g, b) == TrackedAllocation(f, b))
    decreases |bs|
  {
    if bs != [] { EscapeAllKeepsCleanup(Escape(f, bs[0]), bs[1..]); }
  }
}
