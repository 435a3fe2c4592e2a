/** The cleanup half of soundness: what the facts say of identities holds on every execution. */
module FlowSoundness {
  import opened Syntax
  import opened FlowFacts
  import opened FlowAnalysis
  import opened FlowSemantics
  import opened FlowHistory
  import opened FlowGuards
  import opened FlowSteady
  import opened MissingReturn

  /** Which value each minted identity names, once and for all, on one execution. */
  type Naming = map<AllocationId, Handle>

  ghost predicate Extends(names: Naming, names': Naming) {
    forall a | a in names :: a in names' && names'[a] == names[a]
  }

  /** The cleanup facts of f are true of machine m, under a naming of the identities minted so
      far: tracked slots hold what their identities name, freed identities name released values, and
      an exposed slot is not tracked. */
  ghost predicate Owned(f: Flow, next: AllocationId, names: Naming, m: Machine) {
    && (forall a | a in names :: 0 < a <= next)
    && (forall b | b in f.tracked ::
          && b in m.env && b in f.allocation && f.allocation[b] in names
          && names[f.allocation[b]] == m.env[b].handle)
    && (forall a | a in f.freed :: a in names && names[a] in m.released)
    && (forall b | b in m.exposed :: Escaped(f, b) && b !in f.tracked)
  }

  /** The deferred releases a machine still has to run are the ones the actions stand for. */
  ghost predicate Awaits(names: Naming, actions: seq<Action>, handles: seq<Handle>) {
    && |actions| == |handles|
    && forall i | 0 <= i < |actions| && actions[i].captured != 0 ::
         actions[i].captured in names && names[actions[i].captured] == handles[i]
  }

  // ----- one step at a time -----

  lemma ScribbledSound(slots: Slots, f: Flow, n: AllocationId, names: Naming, m: Machine, m': Machine)
    requires Owned(f, n, names, m) && Scribbled(slots, m, m')
    ensures Owned(f, n, names, m')
  {
  }

  lemma OwnedLater(f: Flow, n: AllocationId, k: AllocationId, names: Naming, m: Machine)
    requires Owned(f, n, names, m) && n <= k
    ensures Owned(f, k, names, m)
  {
  }

  lemma AwaitsLater(names: Naming, names': Naming, actions: seq<Action>, handles: seq<Handle>)
    requires Awaits(names, actions, handles) && Extends(names, names')
    ensures Awaits(names', actions, handles)
  {
  }

  lemma DeclareSound(slots: Slots, s: Scope, stmt: Stmt, names: Naming, m: Machine, m': Machine)
    returns (names': Naming)
    requires stmt.Declare? && SimpleFollowed(s.flow, stmt, true)
    requires Owned(s.flow, s.next, names, m) && Does(slots, stmt, m, m')
    ensures Extends(names, names')
    ensures var r := Declared(s, stmt.binding, stmt.trackable, stmt.init);
      Owned(r.flow, r.next, names', m')
  {
    var b := stmt.binding;
    names' := if stmt.trackable then names[s.next + 1 := m'.env[b].handle] else names;
  }

  /** A pointer copied from a tracked binding makes the target another name of its identity. */
  lemma AliasSound(slots: Slots, f: Flow, n: AllocationId, b: BindingId, source: BindingId,
                   names: Naming, m: Machine, m': Machine)
    requires b != 0 && source != 0 && AssignFollowed(f, b, Copy(source))
    requires Owned(f, n, names, m) && Does(slots, Assign(b, Copy(source)), m, m')
    ensures Owned(AliasFreed(InvalidateNarrowing(f, b), source, b), n, names, m')
  {
    var g := AliasFreed(InvalidateNarrowing(f, b), source, b);
    assert TrackedAllocation(InvalidateNarrowing(f, b), source) == TrackedAllocation(f, source);
    forall c | c in g.tracked
      ensures c in m'.env && c in g.allocation && g.allocation[c] in names
           && names[g.allocation[c]] == m'.env[c].handle
    {
      if c == b { assert source in f.tracked ==> f.allocation[source] in names; }
    }
  }

  /** Any other value gets an identity of its own. */
  lemma ClearSound(slots: Slots, f: Flow, n: AllocationId, b: BindingId,
                   names: Naming, m: Machine, m': Machine) returns (names': Naming)
    requires b != 0
    requires Owned(f, n, names, m) && Does(slots, Assign(b, Other), m, m')
    ensures Extends(names, names')
    ensures Owned(ClearFreed(InvalidateNarrowing(f, b), b, n), n + (if b in f.tracked then 1 else 0),
                      names', m')
  {
    names' := if b in f.tracked then names[n + 1 := m'.env[b].handle] else names;
  }

  lemma AssignSound(slots: Slots, s: Scope, stmt: Stmt, names: Naming, m: Machine, m': Machine)
    returns (names': Naming)
    requires stmt.Assign? && SimpleFollowed(s.flow, stmt, true)
    requires Owned(s.flow, s.next, names, m) && Does(slots, stmt, m, m')
    ensures Extends(names, names')
    ensures var r := Assigned(s, stmt.binding, stmt.init); Owned(r.flow, r.next, names', m')
  {
    var b, source := stmt.binding, DirectSource(stmt.init);
    names' := names;
    if b != 0 && source != 0 {
      assert stmt.init == Copy(source);
      AliasSound(slots, s.flow, s.next, b, source, names, m, m');
    } else if b != 0 {
      assert Does(slots, Assign(b, Other), m, m');
      names' := ClearSound(slots, s.flow, s.next, b, names, m, m');
    }
  }

  lemma SimpleSound(slots: Slots, s: Scope, stmt: Stmt, depth: nat, names: Naming, m: Machine, m': Machine)
    returns (names': Naming)
    requires Simple(stmt) && SimpleFollowed(s.flow, stmt, true)
    requires Owned(s.flow, s.next, names, m) && Does(slots, stmt, m, m')
    ensures Extends(names, names')
    ensures var r := CheckSimple(stmt, s, depth); Owned(r.flow, r.next, names', m')
  {
    names' := names;
    match stmt
    case Declare(_, _, _) => names' := DeclareSound(slots, s, stmt, names, m, m');
    case Assign(_, _) => names' := AssignSound(slots, s, stmt, names, m, m');
    case _ =>
  }

  // ----- conditions, exits and joins -----

  lemma {:induction false} EscapeAllSound(f: Flow, n: AllocationId, bs: seq<BindingId>, names: Naming, m: Machine)
    requires Owned(f, n, names, m)
    ensures Owned(EscapeAll(f, bs), n, names, m.(exposed := m.exposed + set i | 0 <= i < |bs| :: bs[i]))
    decreases |bs|
  {
    var all := set i | 0 <= i < |bs| :: bs[i];
    if bs == [] {
      assert m.exposed + all == m.exposed;
    } else {
      var mid := m.(exposed := m.exposed + {bs[0]});
      assert Owned(Escape(f, bs[0]), n, names, mid);
      EscapeAllSound(Escape(f, bs[0]), n, bs[1..], names, mid);
      var rest := set i | 0 <= i < |bs[1..]| :: bs[1..][i];
      forall b ensures b in all <==> b == bs[0] || b in rest {
        if b in all && b != bs[0] {
          var i :| 0 <= i < |bs| && bs[i] == b;
          assert bs[1..][i - 1] == b;
        }
        if b in rest {
          var i :| 0 <= i < |bs[1..]| && bs[1..][i] == b;
          assert bs[i + 1] == b;
        }
      }
      assert mid.exposed + rest == m.exposed + all;
    }
  }

  /** Whichever way a condition goes, the flow of that side describes the machine. */
  lemma CondSound(slots: Slots, f: Flow, n: AllocationId, cond: Cond, verdict: bool, names: Naming, m: Machine, m': Machine)
    requires Owned(f, n, names, m) && Decides(slots, cond, m, verdict, m')
    ensures Owned(Narrowed(slots, CondEffects(f, cond), cond, verdict), n, names, m')
  {
    if cond.Opaque? {
      EscapeAllSound(f, n, cond.exposes, names, m);
      var exposing := m.(exposed := m.exposed + set i | 0 <= i < |cond.exposes| :: cond.exposes[i]);
      ScribbledSound(slots, CondEffects(f, cond), n, names, exposing, m');
    }
  }

  /** Running one deferred release. */
  lemma LastActionSound(f: Flow, n: AllocationId, action: Action, names: Naming, m: Machine,
                        handle: Handle, mid: Machine)
    requires Owned(f, n, names, m) && ActionsFollowed(f, [action])
    requires action.captured != 0 ==> action.captured in names && names[action.captured] == handle
    requires mid.env == m.env && mid.exposed == m.exposed && mid.released == m.released + {handle}
    ensures Owned(ValidateOne(action, f).flow, n, names, mid)
    ensures ValidateOne(action, f).flow.tracked == f.tracked
  {
    var a := [action][0];
  }

  lemma {:induction false} ValidateSound(f: Flow, n: AllocationId, actions: seq<Action>, names: Naming,
                                         m: Machine, base: nat)
    requires Owned(f, n, names, m) && ActionsFollowed(f, actions)
    requires |m.pending| == base + |actions| && Awaits(names, actions, m.pending[base..])
    ensures Owned(Validate(actions, f).flow, n, names, Unwind(m, base))
    decreases |actions|
  {
    if actions == [] {
      assert Unwind(m, base) == m by {
        assert m.pending[..base] == m.pending;
        assert Unwind(m, base).released == m.released;
      }
    } else {
      var k := |actions| - 1;
      var handle := m.pending[base + k];
      var mid := m.(released := m.released + {handle}, pending := m.pending[..base + k]);
      var g := ValidateOne(actions[k], f).flow;
      assert m.pending[base..][k] == handle;
      LastActionSound(f, n, actions[k], names, m, handle, mid);
      assert forall i | 0 <= i < k :: mid.pending[base..][i] == m.pending[base..][i];
      ValidateSound(g, n, actions[..k], names, mid, base);
      UnwindLast(m, base);
    }
  }

  lemma UnwindLast(m: Machine, base: nat)
    requires base < |m.pending|
    ensures var last := |m.pending| - 1;
      Unwind(m, base) == Unwind(m.(released := m.released + {m.pending[last]}, pending := m.pending[..last]), base)
  {
    var last := |m.pending| - 1;
    var some := set i | base <= i < last :: m.pending[..last][i];
    var all := set i | base <= i < |m.pending| :: m.pending[i];
    forall h ensures h in all <==> h in some || h == m.pending[last] {
      if h in some {
        var i :| base <= i < last && m.pending[..last][i] == h;
        assert m.pending[i] == h;
      }
      if h in all && h != m.pending[last] {
        var i :| base <= i < |m.pending| && m.pending[i] == h;
        assert m.pending[..last][i] == h;
      }
    }
    assert m.released + all == m.released + {m.pending[last]} + some;
    assert m.pending[..last][..base] == m.pending[..base];
  }

  /** A machine one branch describes is described by the join. */
  lemma MergeSound(parent: Flow, branches: seq<Flow>, k: nat, n: AllocationId, names: Naming, m: Machine)
    requires k < |branches| && Owned(branches[k], n, names, m)
    ensures Owned(Merge(parent, branches), n, names, m)
  {
    var joined := Merge(parent, branches);
    forall b | b in joined.tracked
      ensures b in branches[k].tracked && b in joined.allocation && joined.allocation[b] == branches[k].allocation[b]
    {
      var a := CommonAllocation(branches, b);
      assert TrackedAllocation(branches[k], b) == a != 0;
    }
    forall b | b in m.exposed
      ensures Escaped(joined, b) && b !in joined.tracked
    {
      assert Escaped(branches[k], b);
      assert SomeEscapes(branches, b);
    }
  }

  // ----- whole statements -----

  /** The machine a scope describes, with the scope's registered releases pending above base. */
  ghost predicate ScopeOwned(s: Scope, names: Naming, m: Machine, base: nat) {
    && Owned(s.flow, s.next, names, m)
    && |m.pending| == base + |s.defers|
    && Awaits(names, s.defers, m.pending[base..])
  }

  lemma {:induction false} BlockSound(slots: Slots, stmts: seq<Stmt>, f: Flow, n: AllocationId, depth: nat,
                                      names: Naming, m: Machine, o: Outcome) returns (names': Naming)
    requires Owned(f, n, names, m) && BlockFollowed(slots, stmts, f, n, depth, true)
    requires ExecBlock(slots, stmts, m, o) && o.how == Fell
    ensures Extends(names, names') && o.machine.pending == m.pending
    ensures var r := CheckBlock(slots, stmts, f, n, depth); Owned(r.flow, r.next, names', o.machine)
    decreases stmts, 1
  {
    var base := |m.pending|;
    var inner :| ExecSeq(slots, stmts, m, inner) && base <= |inner.machine.pending|
      && o == Outcome(inner.how, Unwind(inner.machine, base));
    names' := SeqSound(slots, stmts, Enter(f, n), depth, names, m, base, inner);
    var s := CheckSeq(slots, stmts, Enter(f, n), depth);
    if !s.open {
      ClosedBySomething(slots, stmts, Enter(f, n), depth);
      TerminatesSound(slots, stmts, m, inner);
    }
    ValidateSound(s.flow, s.next, s.defers, names', inner.machine, base);
  }

  lemma {:induction false} SeqSound(slots: Slots, stmts: seq<Stmt>, s: Scope, depth: nat, names: Naming, m: Machine,
                                    base: nat, o: Outcome) returns (names': Naming)
    requires ScopeOwned(s, names, m, base) && SeqFollowed(slots, stmts, s, depth, true)
    requires ExecSeq(slots, stmts, m, o) && o.how == Fell
    ensures Extends(names, names')
    ensures ScopeOwned(CheckSeq(slots, stmts, s, depth), names', o.machine, base)
    ensures o.machine.pending[..base] == m.pending[..base]
    decreases stmts, 0
  {
    names' := names;
    if stmts != [] {
      var first :| Exec(slots, stmts[0], m, first) &&
        if first.how == Fell then ExecSeq(slots, stmts[1..], first.machine, o) else o == first;
      names' := StepSound(slots, stmts[0], s, depth, names, m, base, first);
      names' := SeqSound(slots, stmts[1..], Step(slots, stmts[0], s, depth), depth, names', first.machine, base, o);
    }
  }

  lemma {:induction false} StepSound(slots: Slots, stmt: Stmt, s: Scope, depth: nat, names: Naming, m: Machine,
                                     base: nat, o: Outcome) returns (names': Naming)
    requires ScopeOwned(s, names, m, base) && StmtFollowed(slots, stmt, s, depth, true)
    requires Exec(slots, stmt, m, o) && o.how == Fell
    ensures Extends(names, names')
    ensures ScopeOwned(Step(slots, stmt, s, depth), names', o.machine, base)
    ensures o.machine.pending[..base] == m.pending[..base]
    decreases stmt, 3
  {
    if Simple(stmt) {
      names' := SimpleStepSound(slots, stmt, s, depth, names, m, base, o);
    } else if stmt.While? || stmt.For? || Rejected(slots, stmt, s, depth) {
      names' := names;
      SteadyStepSound(slots, stmt, s, depth, names, m, base, o);
    } else if stmt.If? {
      names' := IfSound(slots, stmt, s, depth, names, m, base, o);
    } else {
      names' := BlockSound(slots, stmt.region, s.flow, s.next, depth, names, m, o);
      AwaitsLater(names, names', s.defers, m.pending[base..]);
    }
  }

  /** A loop, or a rejected statement, that leaves alone what the facts speak of. */
  lemma SteadyStepSound(slots: Slots, stmt: Stmt, s: Scope, depth: nat, names: Naming, m: Machine,
                        base: nat, o: Outcome)
    requires !Simple(stmt) && StepSteady(slots, stmt, s, depth)
    requires stmt.While? || stmt.For? || Rejected(slots, stmt, s, depth)
    requires ScopeOwned(s, names, m, base) && Exec(slots, stmt, m, o)
    ensures ScopeOwned(Step(slots, stmt, s, depth), names, o.machine, base)
    ensures o.machine.pending == m.pending
  {
    var t := Step(slots, stmt, s, depth);
    SteadyDrifts(slots, s.flow, t.flow, stmt, m, o);
    StepForgets(slots, stmt, s, depth);
    DriftedOwned(slots, s.flow, t.flow, s.next, names, m, o.machine);
    OwnedLater(t.flow, s.next, t.next, names, o.machine);
  }

  lemma DriftedOwned(slots: Slots, f: Flow, g: Flow, n: AllocationId, names: Naming, m: Machine, m': Machine)
    requires Owned(f, n, names, m) && Drifted(slots, f, g, m, m') && Forgets(f, g)
    ensures Owned(g, n, names, m')
  {
    forall b | b in g.tracked
      ensures b in m'.env && b in g.allocation && g.allocation[b] in names
           && names[g.allocation[b]] == m'.env[b].handle
    {
      assert b in f.tracked && !Unmentioned(f, b) && TrackedAllocation(f, b) == f.allocation[b] != 0;
    }
  }

  lemma SimpleStepSound(slots: Slots, stmt: Stmt, s: Scope, depth: nat, names: Naming, m: Machine,
                        base: nat, o: Outcome) returns (names': Naming)
    requires Simple(stmt) && SimpleFollowed(s.flow, stmt, true)
    requires ScopeOwned(s, names, m, base)
    requires Exec(slots, stmt, m, o) && o.how == Fell
    ensures Extends(names, names')
    ensures ScopeOwned(Step(slots, stmt, s, depth), names', o.machine, base)
    ensures o.machine.pending[..base] == m.pending[..base]
  {
    var mid :| Does(slots, stmt, m, mid) && Scribbled(slots, mid, o.machine);
    var before := s.(failed := false);
    names' := SimpleSound(slots, before, stmt, depth, names, m, mid);
    var r := CheckSimple(stmt, before, depth);
    ScribbledSound(slots, r.flow, r.next, names', mid, o.machine);
    SimpleAwaits(slots, before, stmt, depth, names, names', m, mid, base);
    SimpleStepIs(slots, stmt, s, depth);
  }

  /** A deferred release joins both lists at the end; no other simple statement changes them. */
  lemma SimpleAwaits(slots: Slots, s: Scope, stmt: Stmt, depth: nat, names: Naming, names': Naming,
                     m: Machine, mid: Machine, base: nat)
    requires Simple(stmt) && ScopeOwned(s, names, m, base)
    requires Does(slots, stmt, m, mid) && Extends(names, names')
    ensures |mid.pending| == base + |CheckSimple(stmt, s, depth).defers|
    ensures Awaits(names', CheckSimple(stmt, s, depth).defers, mid.pending[base..])
    ensures mid.pending[..base] == m.pending[..base]
  {
    AwaitsLater(names, names', s.defers, m.pending[base..]);
    if stmt.DeferFree? {
      assert mid.pending[base..] == m.pending[base..] + [m.env[stmt.binding].handle];
    }
  }

  lemma {:induction false} IfSound(slots: Slots, stmt: Stmt, s: Scope, depth: nat, names: Naming, m: Machine,
                                   base: nat, o: Outcome) returns (names': Naming)
    requires stmt.If? && !Rejected(slots, stmt, s, depth)
    requires ScopeOwned(s, names, m, base) && StmtFollowed(slots, stmt, s, depth, true)
    requires Exec(slots, stmt, m, o) && o.how == Fell
    ensures Extends(names, names') && o.machine.pending == m.pending
    ensures ScopeOwned(Step(slots, stmt, s, depth), names', o.machine, base)
    decreases stmt, 2
  {
    var before := s.(failed := false);
    var chain := IfChain(slots, stmt, before, depth);
    var j;
    names', j := ChainSound(slots, stmt, before, depth, names, m, o);
    RejoinSound(before, CondEffects(s.flow, stmt.cond), chain, j, names', o.machine);
    AwaitsLater(names, names', s.defers, m.pending[base..]);
    IfStepIs(slots, stmt, s, depth);
  }

  /** A machine some continuing flow describes is described by the state after the chain. */
  lemma RejoinSound(s: Scope, f: Flow, chain: Chain, j: nat, names: Naming, m: Machine)
    requires j < |chain.continuing| && Owned(chain.continuing[j], chain.next, names, m)
    ensures Owned(Rejoin(s, f, chain).flow, chain.next, names, m)
  {
    if |chain.continuing| > 1 {
      MergeSound(f, chain.continuing, j, chain.next, names, m);
    }
  }

  /** The execution leaves the chain through one of the flows that continue past it. */
  lemma {:induction false} ChainSound(slots: Slots, stmt: Stmt, s: Scope, depth: nat, names: Naming, m: Machine,
                                      o: Outcome) returns (names': Naming, j: nat)
    requires stmt.If? && !s.failed && !Rejected(slots, stmt, s, depth) && StmtFollowed(slots, stmt, s, depth, true)
    requires Owned(s.flow, s.next, names, m)
    requires Exec(slots, stmt, m, o) && o.how == Fell
    ensures Extends(names, names') && o.machine.pending == m.pending
    ensures var chain := IfChain(slots, stmt, s, depth);
      j < |chain.continuing| && Owned(chain.continuing[j], chain.next, names', o.machine)
    decreases stmt, 1
  {
    var If(cond, thn, elifs, els) := stmt;
    var f := Narrowed(slots, CondEffects(s.flow, cond), cond, true);
    var child := CheckBlock(slots, thn, f, s.next, depth);
    var start := StartChain(slots, cond, thn, s, child);
    var middle := CheckElifs(slots, elifs, start, s.defers, depth);
    ElifsKeep(slots, elifs, start, s.defers, depth);
    ElseKeeps(slots, els, middle, s.defers, depth);
    BlockDescends(slots, thn, f, s.next, depth);
    if mid :| Decides(slots, cond, m, true, mid) && ExecBlock(slots, thn, mid, o) {
      CondSound(slots, s.flow, s.next, cond, true, names, m, mid);
      if SeqTerminates(thn) { BlockTerminatesSound(slots, thn, mid, o); }
      names' := BlockSound(slots, thn, f, s.next, depth, names, mid, o);
      j := 0;
      OwnedLater(child.flow, child.next, IfChain(slots, stmt, s, depth).next, names', o.machine);
    } else {
      var mid :| Decides(slots, cond, m, false, mid) && ExecElse(slots, stmt, 0, mid, o);
      CondSound(slots, s.flow, s.next, cond, false, names, m, mid);
      OwnedLater(start.otherwise, s.next, start.next, names, mid);
      assert elifs[0..] == elifs;
      names', j := ElseSound(slots, stmt, 0, start, s.defers, depth, names, mid, o);
    }
  }

  lemma {:induction false} ElseSound(slots: Slots, stmt: Stmt, k: nat, chain: Chain, defers: seq<Action>, depth: nat,
                                     names: Naming, m: Machine, o: Outcome) returns (names': Naming, j: nat)
    requires stmt.If? && k <= |stmt.elifs| && ElifsFollowed(slots, stmt.elifs[k..], chain, defers, depth, true)
    requires var middle := CheckElifs(slots, stmt.elifs[k..], chain, defers, depth);
      && !CheckElse(slots, stmt.els, middle, defers, depth).failed
      && (stmt.els.Else? ==> BlockFollowed(slots, stmt.els.body, middle.otherwise, middle.next, depth, true))
    requires Owned(chain.otherwise, chain.next, names, m)
    requires ExecElse(slots, stmt, k, m, o) && o.how == Fell
    ensures Extends(names, names') && o.machine.pending == m.pending
    ensures var last := CheckElse(slots, stmt.els, CheckElifs(slots, stmt.elifs[k..], chain, defers, depth), defers, depth);
      j < |last.continuing| && Owned(last.continuing[j], last.next, names', o.machine)
    decreases stmt, 0, |stmt.elifs| - k + 1
  {
    if k == |stmt.elifs| {
      names', j := LastElseSound(slots, stmt, chain, defers, depth, names, m, o);
    } else {
      var branch := stmt.elifs[k];
      assert stmt.elifs[k..][0] == branch && stmt.elifs[k..][1..] == stmt.elifs[k + 1..];
      if mid :| Decides(slots, branch.cond, m, true, mid) && ExecBlock(slots, branch.body, mid, o) {
        names', j := ElifTakenSound(slots, stmt, k, chain, defers, depth, names, m, mid, o);
      } else {
        var next := CheckElif(slots, branch, chain, defers, depth);
        var f := Narrowed(slots, CondEffects(chain.otherwise, branch.cond), branch.cond, true);
        BlockDescends(slots, branch.body, f, chain.next, depth);
        var mid :| Decides(slots, branch.cond, m, false, mid) && ExecElse(slots, stmt, k + 1, mid, o);
        CondSound(slots, chain.otherwise, chain.next, branch.cond, false, names, m, mid);
        OwnedLater(next.otherwise, chain.next, next.next, names, mid);
        names', j := ElseSound(slots, stmt, k + 1, next, defers, depth, names, mid, o);
      }
    }
  }

  /** Elseif k is taken: its body's flow is one of those that continue. */
  lemma {:induction false} ElifTakenSound(slots: Slots, stmt: Stmt, k: nat, chain: Chain, defers: seq<Action>, depth: nat,
                                          names: Naming, m: Machine, mid: Machine, o: Outcome)
    returns (names': Naming, j: nat)
    requires stmt.If? && k < |stmt.elifs| && ElifsFollowed(slots, stmt.elifs[k..], chain, defers, depth, true)
    requires var middle := CheckElifs(slots, stmt.elifs[k..], chain, defers, depth);
      !CheckElse(slots, stmt.els, middle, defers, depth).failed
    requires Owned(chain.otherwise, chain.next, names, m)
    requires Decides(slots, stmt.elifs[k].cond, m, true, mid)
    requires ExecBlock(slots, stmt.elifs[k].body, mid, o) && o.how == Fell
    ensures Extends(names, names') && o.machine.pending == m.pending
    ensures var last := CheckElse(slots, stmt.els, CheckElifs(slots, stmt.elifs[k..], chain, defers, depth), defers, depth);
      j < |last.continuing| && Owned(last.continuing[j], last.next, names', o.machine)
    decreases stmt, 0, |stmt.elifs| - k
  {
    var branch := stmt.elifs[k];
    assert stmt.elifs[k..][0] == branch && stmt.elifs[k..][1..] == stmt.elifs[k + 1..];
    var f := Narrowed(slots, CondEffects(chain.otherwise, branch.cond), branch.cond, true);
    var child := CheckBlock(slots, branch.body, f, chain.next, depth);
    var next := CheckElif(slots, branch, chain, defers, depth);
    var middle := CheckElifs(slots, stmt.elifs[k + 1..], next, defers, depth);
    ElifsKeep(slots, stmt.elifs[k + 1..], next, defers, depth);
    ElseKeeps(slots, stmt.els, middle, defers, depth);
    CondSound(slots, chain.otherwise, chain.next, branch.cond, true, names, m, mid);
    if SeqTerminates(branch.body) { BlockTerminatesSound(slots, branch.body, mid, o); }
    names' := BlockSound(slots, branch.body, f, chain.next, depth, names, mid, o);
    j := |chain.continuing|;
    var last := CheckElse(slots, stmt.els, middle, defers, depth);
    assert next.continuing[j] == child.flow;
    OwnedLater(child.flow, child.next, last.next, names', o.machine);
  }

  lemma {:induction false} LastElseSound(slots: Slots, stmt: Stmt, chain: Chain, defers: seq<Action>, depth: nat,
                                         names: Naming, m: Machine, o: Outcome) returns (names': Naming, j: nat)
    requires stmt.If? && !CheckElse(slots, stmt.els, chain, defers, depth).failed
    requires stmt.els.Else? ==> BlockFollowed(slots, stmt.els.body, chain.otherwise, chain.next, depth, true)
    requires Owned(chain.otherwise, chain.next, names, m)
    requires ExecElse(slots, stmt, |stmt.elifs|, m, o) && o.how == Fell
    ensures Extends(names, names') && o.machine.pending == m.pending
    ensures var last := CheckElse(slots, stmt.els, chain, defers, depth);
      j < |last.continuing| && Owned(last.continuing[j], last.next, names', o.machine)
    decreases stmt, 0, 0
  {
    names', j := names, |chain.continuing|;
    if stmt.els.Else? {
      var body := stmt.els.body;
      var child := CheckBlock(slots, body, chain.otherwise, chain.next, depth);
      if SeqTerminates(body) { BlockTerminatesSound(slots, body, m, o); }
      names' := BlockSound(slots, body, chain.otherwise, chain.next, depth, names, m, o);
    }
  }
}
