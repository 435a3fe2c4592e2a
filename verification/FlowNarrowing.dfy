/** The narrowing half of soundness: a narrowed type holds of the value on every execution. Nothing
    here depends on identities, so nothing here asks how an assignment or a deferred release treats
    them. */
module FlowNarrowing {
  import opened Finite
  import opened Syntax
  import opened FlowFacts
  import opened FlowAnalysis
  import opened FlowSemantics
  import opened FlowHistory
  import opened FlowGuards
  import opened FlowSteady
  import opened FlowPlaces
  import opened MissingReturn

  /** The type facts of f are true of machine m: slots hold values of their declared types, narrowed
      slots of their narrowed ones, and an exposed slot is known to have escaped. */
  ghost predicate Typed(slots: Slots, f: Flow, m: Machine) {
    && (forall b | b in m.env :: Holds(slots, b, m.env[b]))
    && (forall b | NarrowedType(f, b) != NO_TYPE :: b in m.env && m.env[b].kind in NarrowedType(f, b))
    && (forall b | b in m.exposed :: Escaped(f, b))
  }

  // ----- one step at a time -----

  lemma ScribbledTyped(slots: Slots, f: Flow, m: Machine, m': Machine)
    requires Typed(slots, f, m) && Scribbled(slots, m, m')
    ensures Typed(slots, f, m')
  {
  }

  /** Only the facts matter. */
  lemma SameFactsTyped(slots: Slots, f: Flow, g: Flow, m: Machine, m': Machine)
    requires Typed(slots, f, m) && g.facts == f.facts && m'.env == m.env && m'.exposed == m.exposed
    ensures Typed(slots, g, m')
  {
    assert forall b :: NarrowedType(g, b) == NarrowedType(f, b) && Escaped(g, b) == Escaped(f, b);
  }

  lemma DeclareTyped(slots: Slots, s: Scope, stmt: Stmt, m: Machine, m': Machine)
    requires stmt.Declare? && NarrowedType(s.flow, stmt.binding) == NO_TYPE
    requires Typed(slots, s.flow, m) && Does(slots, stmt, m, m')
    ensures Typed(slots, Declared(s, stmt.binding, stmt.trackable, stmt.init).flow, m')
  {
    var g := Declared(s, stmt.binding, stmt.trackable, stmt.init).flow;
    assert forall b :: NarrowedType(g, b) == NarrowedType(s.flow, b) && Escaped(g, b) == Escaped(s.flow, b);
  }

  lemma AssignTyped(slots: Slots, s: Scope, stmt: Stmt, m: Machine, m': Machine)
    requires stmt.Assign? && Typed(slots, s.flow, m) && Does(slots, stmt, m, m')
    ensures Typed(slots, Assigned(s, stmt.binding, stmt.init).flow, m')
  {
    var b, g := stmt.binding, Assigned(s, stmt.binding, stmt.init).flow;
    if b != 0 {
      assert g.facts == InvalidateNarrowing(s.flow, b).facts;
      assert NarrowedType(g, b) == NO_TYPE;
      assert forall c | c != b :: NarrowedType(g, c) == NarrowedType(s.flow, c);
    }
  }

  lemma SimpleTyped(slots: Slots, s: Scope, stmt: Stmt, depth: nat, m: Machine, m': Machine)
    requires Simple(stmt) && SimpleFollowed(s.flow, stmt, false)
    requires Typed(slots, s.flow, m) && Does(slots, stmt, m, m')
    ensures Typed(slots, CheckSimple(stmt, s, depth).flow, m')
  {
    if stmt.Declare? {
      DeclareTyped(slots, s, stmt, m, m');
    } else if stmt.Assign? {
      AssignTyped(slots, s, stmt, m, m');
    } else if stmt.Expose? {
      EscapeTyped(slots, s.flow, stmt.binding, m);
    } else {
      SameFactsTyped(slots, s.flow, CheckSimple(stmt, s, depth).flow, m, m');
    }
  }

  lemma EscapeTyped(slots: Slots, f: Flow, b: BindingId, m: Machine)
    requires Typed(slots, f, m)
    ensures Typed(slots, Escape(f, b), m.(exposed := m.exposed + {b}))
  {
    assert forall c | c != b :: NarrowedType(Escape(f, b), c) == NarrowedType(f, c);
  }

  lemma {:induction false} EscapeAllTyped(slots: Slots, f: Flow, bs: seq<BindingId>, m: Machine, more: set<BindingId>)
    requires Typed(slots, f, m) && forall b | b in more :: b in bs
    ensures Typed(slots, EscapeAll(f, bs), m.(exposed := m.exposed + more))
    decreases |bs|
  {
    if bs == [] {
      assert m.exposed + more == m.exposed;
    } else {
      var mid := m.(exposed := m.exposed + {bs[0]});
      EscapeTyped(slots, f, bs[0], m);
      EscapeAllTyped(slots, Escape(f, bs[0]), bs[1..], mid, more - {bs[0]});
      var all := mid.(exposed := mid.exposed + (more - {bs[0]}));
      assert m.exposed + more <= all.exposed;
    }
  }

  /** Whichever way a condition goes, the flow of that side is true of the machine. */
  lemma CondTyped(slots: Slots, f: Flow, cond: Cond, verdict: bool, m: Machine, m': Machine)
    requires Typed(slots, f, m) && Decides(slots, cond, m, verdict, m')
    ensures Typed(slots, Narrowed(slots, CondEffects(f, cond), cond, verdict), m')
  {
    if cond.Opaque? {
      var more := set i | 0 <= i < |cond.exposes| :: cond.exposes[i];
      EscapeAllTyped(slots, f, cond.exposes, m, more);
      ScribbledTyped(slots, CondEffects(f, cond), m.(exposed := m.exposed + more), m');
    } else {
      var b, g := cond.operand, Narrowed(slots, f, cond, verdict);
      assert m.env[b].kind in ReadType(slots, f, b);
      assert forall c | c != b :: NarrowedType(g, c) == NarrowedType(f, c) && Escaped(g, c) == Escaped(f, c);
      assert Escaped(g, b) == Escaped(f, b);
    }
  }

  /** Some machine whose operand holds a value of kind k decides the test that way. */
  ghost predicate Possible(slots: Slots, cond: Cond, k: Kind, verdict: bool)
    requires !cond.Opaque?
  {
    exists m: Machine, m': Machine :: cond.operand in m.env && m.env[cond.operand].kind == k && Decides(slots, cond, m, verdict, m')
  }

  lemma PossibleExactly(slots: Slots, cond: Cond, k: Kind, verdict: bool)
    requires !cond.Opaque?
    ensures Possible(slots, cond, k, verdict) <==>
      verdict == if cond.NilTest? then (k == NIL) == cond.equal else k == cond.member
  {
    var m := Machine(map[cond.operand := Value(0, k)], {}, {}, []);
    if verdict == if cond.NilTest? then (k == NIL) == cond.equal else k == cond.member {
      assert Decides(slots, cond, m, verdict, m);
    }
  }

  /** An accepted test narrows, on either side, to exactly the kinds that can take that side, and
      touches nothing else. */
  lemma NarrowingExact(slots: Slots, f: Flow, cond: Cond, verdict: bool)
    requires !cond.Opaque? && !CondRejected(slots, f, cond) && cond.operand != 0 && !Escaped(f, cond.operand)
    ensures var g := Narrowed(slots, f, cond, verdict);
      && (forall k :: k in NarrowedType(g, cond.operand) <==>
            k in ReadType(slots, f, cond.operand) && Possible(slots, cond, k, verdict))
      && (forall c | c != cond.operand :: NarrowedType(g, c) == NarrowedType(f, c) && Escaped(g, c) == Escaped(f, c))
      && g.tracked == f.tracked && g.allocation == f.allocation && g.freed == f.freed
  {
    forall k ensures Possible(slots, cond, k, verdict) <==>
      verdict == if cond.NilTest? then (k == NIL) == cond.equal else k == cond.member
    {
      PossibleExactly(slots, cond, k, verdict);
    }
  }

  /** A second accepted test of the same slot narrows what the first one left. */
  lemma NarrowingComposes(slots: Slots, f: Flow, first: Cond, one: bool, second: Cond, two: bool)
    requires !first.Opaque? && !second.Opaque? && first.operand == second.operand != 0 && !Escaped(f, first.operand)
    requires !CondRejected(slots, f, first) && !CondRejected(slots, Narrowed(slots, f, first, one), second)
    ensures var h := Narrowed(slots, Narrowed(slots, f, first, one), second, two);
      forall k :: k in NarrowedType(h, first.operand) <==>
        k in ReadType(slots, f, first.operand) && Possible(slots, first, k, one) && Possible(slots, second, k, two)
  {
    var g := Narrowed(slots, f, first, one);
    NarrowingExact(slots, f, first, one);
    NarrowingExact(slots, g, second, two);
    SomeKindLeft(slots, f, first, one);
  }

  lemma SomeKindLeft(slots: Slots, f: Flow, cond: Cond, verdict: bool)
    requires !cond.Opaque? && !CondRejected(slots, f, cond) && cond.operand != 0 && !Escaped(f, cond.operand)
    ensures NarrowedType(Narrowed(slots, f, cond, verdict), cond.operand) != NO_TYPE
  {
    var t := ReadType(slots, f, cond.operand);
    var k := if cond.NilTest? then NIL else cond.member;
    assert |t - {k}| == |t| - 1;
  }

  /** A test is refused exactly when the values its operand can hold leave only one way for it to go,
      or, for a member, when nil, an escaped slot or a plain nullable is tested. */
  lemma TestRejectedExactly(slots: Slots, f: Flow, cond: Cond)
    requires !cond.Opaque?
    ensures var t := ReadType(slots, f, cond.operand);
      CondRejected(slots, f, cond) <==>
        || (forall k | k in t :: !Possible(slots, cond, k, true)) || (forall k | k in t :: !Possible(slots, cond, k, false))
        || (cond.MemberTest? && (cond.member == NIL || Escaped(f, cond.operand) || (|t| == 2 && NIL in t)))
  {
    var t := ReadType(slots, f, cond.operand);
    var one := if cond.NilTest? then NIL else cond.member;
    forall k, verdict ensures Possible(slots, cond, k, verdict) <==>
      verdict == if cond.NilTest? then (k == NIL) == cond.equal else k == cond.member
    {
      PossibleExactly(slots, cond, k, verdict);
    }
    if one in t {
      assert |t - {one}| == |t| - 1;
      if |t| >= 2 {
        var other := Uncovered({one}, t);
        assert other in t && other != one;
      } else {
        SubsetCount({one}, t);
      }
    }
  }

  /** What the join narrows: exactly what its parent did, where no branch has let the slot escape or
      holds another type for it. */
  lemma MergeNarrowingExact(parent: Flow, branches: seq<Flow>, b: BindingId)
    requires |branches| > 0
    ensures NarrowedType(Merge(parent, branches), b) ==
      if forall i | 0 <= i < |branches| && b in branches[i].facts ::
           !branches[i].facts[b].escaped && (b in parent.facts ==> branches[i].facts[b].typ == parent.facts[b].typ)
      then NarrowedType(parent, b) else NO_TYPE
  {
    if !SomeEscapes(branches, b) && b in parent.facts && !SomeDiffers(branches, b, parent.facts[b].typ) {
      forall i | 0 <= i < |branches| && b in branches[i].facts
        ensures !branches[i].facts[b].escaped && branches[i].facts[b].typ == parent.facts[b].typ
      {
        assert !Escaped(branches[i], b);
      }
    }
  }

  /** A machine one branch is true of is one the join is true of. */
  lemma MergeTyped(slots: Slots, parent: Flow, branches: seq<Flow>, k: nat, m: Machine)
    requires k < |branches| && Grows(parent, branches[k]) && Typed(slots, branches[k], m)
    ensures Typed(slots, Merge(parent, branches), m)
  {
    var joined := Merge(parent, branches);
    forall b | b in m.exposed ensures Escaped(joined, b) {
      assert Escaped(branches[k], b);
      assert SomeEscapes(branches, b);
    }
    forall b | NarrowedType(joined, b) != NO_TYPE ensures NarrowedType(joined, b) == NarrowedType(branches[k], b) {
      assert !SomeEscapes(branches, b) && !Escaped(branches[k], b);
      assert b in parent.facts && b in branches[k].facts;
      assert !SomeDiffers(branches, b, parent.facts[b].typ);
    }
  }

  /** Deferred releases leave slots and facts alone. */
  lemma UnwindTyped(slots: Slots, s: Scope, m: Machine, base: nat)
    requires Typed(slots, s.flow, m) && base <= |m.pending|
    ensures Typed(slots, Close(s).flow, Unwind(m, base))
  {
    ValidateKeepsTracking(s.defers, s.flow);
    SameFactsTyped(slots, s.flow, Close(s).flow, m, Unwind(m, base));
  }

  // ----- whole statements -----

  lemma {:induction false} BlockTyped(slots: Slots, stmts: seq<Stmt>, f: Flow, n: AllocationId, depth: nat,
                                      m: Machine, o: Outcome)
    requires Typed(slots, f, m) && BlockFollowed(slots, stmts, f, n, depth, false)
    requires ExecBlock(slots, stmts, m, o) && o.how == Fell
    ensures Typed(slots, CheckBlock(slots, stmts, f, n, depth).flow, o.machine)
    decreases stmts, 1
  {
    var base := |m.pending|;
    var inner :| ExecSeq(slots, stmts, m, inner) && base <= |inner.machine.pending|
      && o == Outcome(inner.how, Unwind(inner.machine, base));
    SeqTyped(slots, stmts, Enter(f, n), depth, m, inner);
    UnwindTyped(slots, CheckSeq(slots, stmts, Enter(f, n), depth), inner.machine, base);
  }

  lemma {:induction false} SeqTyped(slots: Slots, stmts: seq<Stmt>, s: Scope, depth: nat, m: Machine, o: Outcome)
    requires Typed(slots, s.flow, m) && SeqFollowed(slots, stmts, s, depth, false)
    requires ExecSeq(slots, stmts, m, o) && o.how == Fell
    ensures Typed(slots, CheckSeq(slots, stmts, s, depth).flow, o.machine)
    decreases stmts, 0
  {
    if stmts != [] {
      var first :| Exec(slots, stmts[0], m, first) &&
        if first.how == Fell then ExecSeq(slots, stmts[1..], first.machine, o) else o == first;
      StepTyped(slots, stmts[0], s, depth, m, first);
      SeqTyped(slots, stmts[1..], Step(slots, stmts[0], s, depth), depth, first.machine, o);
    }
  }

  lemma {:induction false} StepTyped(slots: Slots, stmt: Stmt, s: Scope, depth: nat, m: Machine, o: Outcome)
    requires Typed(slots, s.flow, m) && StmtFollowed(slots, stmt, s, depth, false)
    requires Exec(slots, stmt, m, o) && o.how == Fell
    ensures Typed(slots, Step(slots, stmt, s, depth).flow, o.machine)
    decreases stmt, 3
  {
    if Simple(stmt) {
      SimpleStepTyped(slots, stmt, s, depth, m, o);
    } else if stmt.While? || stmt.For? || Rejected(slots, stmt, s, depth) {
      SteadyStepTyped(slots, stmt, s, depth, m, o);
    } else if stmt.If? {
      IfTyped(slots, stmt, s, depth, m, o);
    } else {
      BlockTyped(slots, stmt.region, s.flow, s.next, depth, m, o);
    }
  }

  /** A loop, or a rejected statement, that leaves alone what the facts speak of. */
  lemma SteadyStepTyped(slots: Slots, stmt: Stmt, s: Scope, depth: nat, m: Machine, o: Outcome)
    requires StepSteady(slots, stmt, s, depth) && (stmt.While? || stmt.For? || Rejected(slots, stmt, s, depth))
    requires Typed(slots, s.flow, m) && Exec(slots, stmt, m, o)
    ensures Typed(slots, Step(slots, stmt, s, depth).flow, o.machine)
  {
    var t := Step(slots, stmt, s, depth);
    SteadyDrifts(slots, s.flow, t.flow, stmt, m, o);
    StepForgets(slots, stmt, s, depth);
    DriftedTyped(slots, s.flow, t.flow, m, o.machine);
  }

  lemma DriftedTyped(slots: Slots, f: Flow, g: Flow, m: Machine, m': Machine)
    requires Typed(slots, f, m) && Drifted(slots, f, g, m, m') && ForgetsFacts(f, g)
    ensures Typed(slots, g, m')
  {
    forall b | NarrowedType(g, b) != NO_TYPE ensures b in m'.env && m'.env[b].kind in NarrowedType(g, b) {
      assert !Unmentioned(f, b) && !Escaped(f, b);
    }
  }

  lemma SimpleStepTyped(slots: Slots, stmt: Stmt, s: Scope, depth: nat, m: Machine, o: Outcome)
    requires Simple(stmt) && SimpleFollowed(s.flow, stmt, false) && Typed(slots, s.flow, m)
    requires Exec(slots, stmt, m, o) && o.how == Fell
    ensures Typed(slots, Step(slots, stmt, s, depth).flow, o.machine)
  {
    var mid :| Does(slots, stmt, m, mid) && Scribbled(slots, mid, o.machine);
    var before := s.(failed := false);
    SimpleTyped(slots, before, stmt, depth, m, mid);
    ScribbledTyped(slots, CheckSimple(stmt, before, depth).flow, mid, o.machine);
    SimpleStepIs(slots, stmt, s, depth);
  }

  lemma {:induction false} IfTyped(slots: Slots, stmt: Stmt, s: Scope, depth: nat, m: Machine, o: Outcome)
    requires stmt.If? && !Rejected(slots, stmt, s, depth)
    requires Typed(slots, s.flow, m) && StmtFollowed(slots, stmt, s, depth, false)
    requires Exec(slots, stmt, m, o) && o.how == Fell
    ensures Typed(slots, Step(slots, stmt, s, depth).flow, o.machine)
    decreases stmt, 2
  {
    var before := s.(failed := false);
    var chain, f := IfChain(slots, stmt, before, depth), CondEffects(s.flow, stmt.cond);
    var j := ChainTyped(slots, stmt, before, depth, m, o);
    if |chain.continuing| > 1 {
      IfDescends(slots, stmt, before, depth);
      assert Descends(f, s.next, chain.continuing[j], chain.next);
      MergeTyped(slots, f, chain.continuing, j, o.machine);
    }
    IfStepIs(slots, stmt, s, depth);
  }

  /** The execution leaves the chain through one of the flows that continue past it. */
  lemma {:induction false} ChainTyped(slots: Slots, stmt: Stmt, s: Scope, depth: nat, m: Machine, o: Outcome)
    returns (j: nat)
    requires stmt.If? && !s.failed && !Rejected(slots, stmt, s, depth) && Typed(slots, s.flow, m) && StmtFollowed(slots, stmt, s, depth, false)
    requires Exec(slots, stmt, m, o) && o.how == Fell
    ensures var chain := IfChain(slots, stmt, s, depth);
      j < |chain.continuing| && Typed(slots, chain.continuing[j], o.machine)
    decreases stmt, 1
  {
    var If(cond, thn, elifs, els) := stmt;
    var f := Narrowed(slots, CondEffects(s.flow, cond), cond, true);
    var child := CheckBlock(slots, thn, f, s.next, depth);
    var start := StartChain(slots, cond, thn, s, child);
    var middle := CheckElifs(slots, elifs, start, s.defers, depth);
    ElifsKeep(slots, elifs, start, s.defers, depth);
    ElseKeeps(slots, els, middle, s.defers, depth);
    if mid :| Decides(slots, cond, m, true, mid) && ExecBlock(slots, thn, mid, o) {
      CondTyped(slots, s.flow, cond, true, m, mid);
      if SeqTerminates(thn) { BlockTerminatesSound(slots, thn, mid, o); }
      BlockTyped(slots, thn, f, s.next, depth, mid, o);
      j := 0;
      assert start.continuing == [child.flow];
    } else {
      var mid :| Decides(slots, cond, m, false, mid) && ExecElse(slots, stmt, 0, mid, o);
      CondTyped(slots, s.flow, cond, false, m, mid);
      assert elifs[0..] == elifs;
      j := ElseTyped(slots, stmt, 0, start, s.defers, depth, mid, o);
    }
  }

  lemma {:induction false} ElseTyped(slots: Slots, stmt: Stmt, k: nat, chain: Chain, defers: seq<Action>, depth: nat,
                                     m: Machine, o: Outcome) returns (j: nat)
    requires stmt.If? && k <= |stmt.elifs| && ElifsFollowed(slots, stmt.elifs[k..], chain, defers, depth, false)
    requires var middle := CheckElifs(slots, stmt.elifs[k..], chain, defers, depth);
      && !CheckElse(slots, stmt.els, middle, defers, depth).failed
      && (stmt.els.Else? ==> BlockFollowed(slots, stmt.els.body, middle.otherwise, middle.next, depth, false))
    requires Typed(slots, chain.otherwise, m) && ExecElse(slots, stmt, k, m, o) && o.how == Fell
    ensures var last := CheckElse(slots, stmt.els, CheckElifs(slots, stmt.elifs[k..], chain, defers, depth), defers, depth);
      j < |last.continuing| && Typed(slots, last.continuing[j], o.machine)
    decreases stmt, 0, |stmt.elifs| - k + 1
  {
    if k == |stmt.elifs| {
      j := |chain.continuing|;
      if stmt.els.Else? {
        var body := stmt.els.body;
        if SeqTerminates(body) { BlockTerminatesSound(slots, body, m, o); }
        BlockTyped(slots, body, chain.otherwise, chain.next, depth, m, o);
      }
    } else {
      var branch := stmt.elifs[k];
      assert stmt.elifs[k..][0] == branch && stmt.elifs[k..][1..] == stmt.elifs[k + 1..];
      if mid :| Decides(slots, branch.cond, m, true, mid) && ExecBlock(slots, branch.body, mid, o) {
        j := ElifTakenTyped(slots, stmt, k, chain, defers, depth, m, mid, o);
      } else {
        var mid :| Decides(slots, branch.cond, m, false, mid) && ExecElse(slots, stmt, k + 1, mid, o);
        CondTyped(slots, chain.otherwise, branch.cond, false, m, mid);
        j := ElseTyped(slots, stmt, k + 1, CheckElif(slots, branch, chain, defers, depth), defers, depth, mid, o);
      }
    }
  }

  lemma {:induction false} ElifTakenTyped(slots: Slots, stmt: Stmt, k: nat, chain: Chain, defers: seq<Action>, depth: nat,
                                          m: Machine, mid: Machine, o: Outcome) returns (j: nat)
    requires stmt.If? && k < |stmt.elifs| && ElifsFollowed(slots, stmt.elifs[k..], chain, defers, depth, false)
    requires var middle := CheckElifs(slots, stmt.elifs[k..], chain, defers, depth);
      !CheckElse(slots, stmt.els, middle, defers, depth).failed
    requires Typed(slots, chain.otherwise, m) && Decides(slots, stmt.elifs[k].cond, m, true, mid)
    requires ExecBlock(slots, stmt.elifs[k].body, mid, o) && o.how == Fell
    ensures var last := CheckElse(slots, stmt.els, CheckElifs(slots, stmt.elifs[k..], chain, defers, depth), defers, depth);
      j < |last.continuing| && Typed(slots, last.continuing[j], o.machine)
    decreases stmt, 0, |stmt.elifs| - k
  {
    var branch := stmt.elifs[k];
    assert stmt.elifs[k..][0] == branch && stmt.elifs[k..][1..] == stmt.elifs[k + 1..];
    var f := Narrowed(slots, CondEffects(chain.otherwise, branch.cond), branch.cond, true);
    var child := CheckBlock(slots, branch.body, f, chain.next, depth);
    var next := CheckElif(slots, branch, chain, defers, depth);
    var middle := CheckElifs(slots, stmt.elifs[k + 1..], next, defers, depth);
    ElifsKeep(slots, stmt.elifs[k + 1..], next, defers, depth);
    ElseKeeps(slots, stmt.els, middle, defers, depth);
    CondTyped(slots, chain.otherwise, branch.cond, true, m, mid);
    if SeqTerminates(branch.body) { BlockTerminatesSound(slots, branch.body, mid, o); }
    BlockTyped(slots, branch.body, f, chain.next, depth, mid, o);
    j := |chain.continuing|;
    assert next.continuing[j] == child.flow;
  }

  // ----- every place -----

  lemma {:induction false} ElifEntryTyped(slots: Slots, elifs: seq<Branch>, chain: Chain, k: nat, defers: seq<Action>,
                                          depth: nat, m: Machine, m': Machine)
    requires k <= |elifs| && EntersElif(slots, elifs, m, k, m') && Typed(slots, chain.otherwise, m)
    ensures Typed(slots, ElifEntry(slots, elifs, chain, k, defers, depth).flow, m')
    decreases |elifs|
  {
    if elifs != [] {
      if k == 0 {
        CondTyped(slots, chain.otherwise, elifs[0].cond, true, m, m');
      } else {
        var mid :| Decides(slots, elifs[0].cond, m, false, mid) && EntersElif(slots, elifs[1..], mid, k - 1, m');
        CondTyped(slots, chain.otherwise, elifs[0].cond, false, m, mid);
        ElifEntryTyped(slots, elifs[1..], CheckElif(slots, elifs[0], chain, defers, depth), k - 1, defers, depth, mid, m');
      }
    }
  }

  lemma ArmEntryTyped(slots: Slots, stmt: Stmt, s: Scope, arm: nat, depth: nat, m: Machine, m': Machine)
    requires HasArm(stmt, arm) && EntersArm(slots, stmt, m, arm, m') && Typed(slots, s.flow, m)
    requires IsLoop(stmt) ==> Steady(s.flow, s.flow, stmt)
    ensures Typed(slots, ArmEntry(slots, stmt, s, arm, depth).flow, m')
  {
    if IsLoop(stmt) {
      LoopEntryTyped(slots, stmt, s.flow, m, m');
    } else if stmt.If? {
      if arm == 0 {
        CondTyped(slots, s.flow, stmt.cond, true, m, m');
      } else {
        var mid :| Decides(slots, stmt.cond, m, false, mid) && EntersElif(slots, stmt.elifs, mid, arm - 1, m');
        var f := Narrowed(slots, CondEffects(s.flow, stmt.cond), stmt.cond, true);
        var start := StartChain(slots, stmt.cond, stmt.thn, s, CheckBlock(slots, stmt.thn, f, s.next, depth));
        CondTyped(slots, s.flow, stmt.cond, false, m, mid);
        ElifEntryTyped(slots, stmt.elifs, start, arm - 1, s.defers, depth, mid, m');
      }
    }
  }

  lemma LoopEntryTyped(slots: Slots, stmt: Stmt, f: Flow, m: Machine, m': Machine)
    requires IsLoop(stmt) && EntersArm(slots, stmt, m, 0, m') && Typed(slots, f, m) && Steady(f, f, stmt)
    ensures var guard := if stmt.While? then stmt.guard else Opaque([]);
      Typed(slots, Narrowed(slots, CondEffects(f, guard), guard, true), m')
  {
    var guard, body := if stmt.While? then stmt.guard else Opaque([]), ArmBody(stmt, 0);
    var n: nat :| EntersLoop(slots, guard, body, n, m, m');
    var before := EntersDrifts(slots, f, guard, body, n, m, m');
    DriftedTyped(slots, f, f, m, before);
    CondTyped(slots, f, guard, true, before, m');
  }

  /** At every place whose earlier statements are within reach, the type facts are true of every
      machine that can be there. */
  lemma {:induction false} PointTyped(slots: Slots, stmts: seq<Stmt>, s: Scope, outer: seq<Action>, place: Place,
                                      depth: nat, m: Machine, m': Machine)
    requires Valid(stmts, place) && FollowedTo(slots, stmts, s, place, depth, false)
    requires Typed(slots, s.flow, m) && Reaches(slots, stmts, m, place, m')
    ensures Typed(slots, PointAt(slots, stmts, s, outer, place, depth).flow, m')
    decreases place
  {
    var before := stmts[..place.index];
    var here := CheckSeq(slots, before, s, depth);
    match place
    case At(i) => SeqTyped(slots, before, s, depth, m, Outcome(Fell, m'));
    case In(i, arm, rest) =>
      var mid, inside :| ExecSeq(slots, before, m, Outcome(Fell, mid)) && EntersArm(slots, stmts[i], mid, arm, inside)
        && Reaches(slots, ArmBody(stmts[i], arm), inside, rest, m');
      SeqTyped(slots, before, s, depth, m, Outcome(Fell, mid));
      ArmEntryTyped(slots, stmts[i], here, arm, depth, mid, inside);
      var start := ArmEntry(slots, stmts[i], here, arm, depth);
      PointTyped(slots, ArmBody(stmts[i], arm), Enter(start.flow, start.next), outer + here.defers, rest,
                 ArmDepth(stmts[i], depth), inside, m');
  }
}
