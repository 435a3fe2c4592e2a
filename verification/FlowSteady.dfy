/** Statements that leave alone every slot the facts say something of: however often they run,
    whichever way they are left, and whether the checker accepted them or not, those slots keep their
    values and releases only accrue. */
module FlowSteady {
  import opened Syntax
  import opened FlowFacts
  import opened FlowSemantics

  /** The facts say nothing of the value of b. */
  predicate Unmentioned(f: Flow, b: BindingId) {
    b !in f.tracked && NarrowedType(f, b) == NO_TYPE
  }

  /** The address of b may be taken between the facts f and the facts g. */
  predicate MayExpose(f: Flow, g: Flow, b: BindingId) {
    Unmentioned(f, b) && Escaped(g, b)
  }

  predicate SteadyCond(f: Flow, g: Flow, cond: Cond) {
    cond.Opaque? ==> forall i | 0 <= i < |cond.exposes| :: MayExpose(f, g, cond.exposes[i])
  }

  /** Whatever the statement declares, assigns or exposes, the facts f before it say nothing of, and
      the facts g after it know of every address it takes. */
  predicate Steady(f: Flow, g: Flow, stmt: Stmt) {
    match stmt
    case Declare(b, _, _) => Unmentioned(f, b)
    case Assign(b, _) => Unmentioned(f, b)
    case Expose(b) => MayExpose(f, g, b)
    case If(cond, thn, elifs, els) =>
      && SteadyCond(f, g, cond) && AllSteady(f, g, thn) && BranchesSteady(f, g, elifs)
      && (els.Else? ==> AllSteady(f, g, els.body))
    case While(guard, loop) => SteadyCond(f, g, guard) && AllSteady(f, g, loop)
    case For(each) => AllSteady(f, g, each)
    case Unsafe(region) => AllSteady(f, g, region)
    case _ => true
  }

  predicate AllSteady(f: Flow, g: Flow, stmts: seq<Stmt>) {
    stmts != [] ==> Steady(f, g, stmts[0]) && AllSteady(f, g, stmts[1..])
  }

  predicate BranchesSteady(f: Flow, g: Flow, elifs: seq<Branch>) {
    elifs != [] ==>
      SteadyCond(f, g, elifs[0].cond) && AllSteady(f, g, elifs[0].body) && BranchesSteady(f, g, elifs[1..])
  }

  /** From m to m', values were released and releases registered, and the slots f speaks of were
      written only through addresses held. */
  ghost predicate Drifted(slots: Slots, f: Flow, g: Flow, m: Machine, m': Machine) {
    && m.released <= m'.released && m.pending <= m'.pending && m.env.Keys <= m'.env.Keys
    && (forall b | b in m'.env :: Holds(slots, b, m'.env[b]) || (b in m.env && m'.env[b] == m.env[b]))
    && (forall b | b in m.env && !Unmentioned(f, b) :: m'.env[b] == m.env[b] || b in m.exposed)
    && (forall b | b in m'.exposed :: b in m.exposed || MayExpose(f, g, b))
  }

  lemma DriftedOn(slots: Slots, f: Flow, g: Flow, a: Machine, b: Machine, c: Machine)
    requires Drifted(slots, f, g, a, b) && Drifted(slots, f, g, b, c)
    ensures Drifted(slots, f, g, a, c)
  {
  }

  lemma CondDrifts(slots: Slots, f: Flow, g: Flow, cond: Cond, m: Machine, verdict: bool, m': Machine)
    requires SteadyCond(f, g, cond) && Decides(slots, cond, m, verdict, m')
    ensures Drifted(slots, f, g, m, m') && m'.pending == m.pending
  {
  }

  lemma {:induction false} SteadyDrifts(slots: Slots, f: Flow, g: Flow, stmt: Stmt, m: Machine, o: Outcome)
    requires Steady(f, g, stmt) && Exec(slots, stmt, m, o)
    ensures Drifted(slots, f, g, m, o.machine) && (!Simple(stmt) ==> o.machine.pending == m.pending)
    decreases stmt, 1
  {
    match stmt
    case If(cond, thn, elifs, els) =>
      if mid :| Decides(slots, cond, m, true, mid) && ExecBlock(slots, thn, mid, o) {
        CondDrifts(slots, f, g, cond, m, true, mid);
        BlockDrifts(slots, f, g, thn, mid, o);
        DriftedOn(slots, f, g, m, mid, o.machine);
      } else {
        var mid :| Decides(slots, cond, m, false, mid) && ExecElse(slots, stmt, 0, mid, o);
        CondDrifts(slots, f, g, cond, m, false, mid);
        assert elifs[0..] == elifs;
        ElseDrifts(slots, f, g, stmt, 0, mid, o);
        DriftedOn(slots, f, g, m, mid, o.machine);
      }
    case While(guard, loop) =>
      var n: nat :| ExecLoop(slots, guard, loop, n, m, o);
      LoopDrifts(slots, f, g, guard, loop, n, m, o);
    case For(each) =>
      var n: nat :| ExecLoop(slots, Opaque([]), each, n, m, o);
      LoopDrifts(slots, f, g, Opaque([]), each, n, m, o);
    case Unsafe(region) => BlockDrifts(slots, f, g, region, m, o);
    case _ => SimpleDrifts(slots, f, g, stmt, m, o);
  }

  lemma SimpleDrifts(slots: Slots, f: Flow, g: Flow, stmt: Stmt, m: Machine, o: Outcome)
    requires Simple(stmt) && Steady(f, g, stmt) && Exec(slots, stmt, m, o)
    ensures Drifted(slots, f, g, m, o.machine)
  {
    var mid :| Does(slots, stmt, m, mid) && Scribbled(slots, mid, o.machine);
    assert Drifted(slots, f, g, m, mid);
    assert Drifted(slots, f, g, mid, o.machine);
    DriftedOn(slots, f, g, m, mid, o.machine);
  }

  lemma {:induction false} ElseDrifts(slots: Slots, f: Flow, g: Flow, stmt: Stmt, k: nat, m: Machine, o: Outcome)
    requires stmt.If? && k <= |stmt.elifs| && ExecElse(slots, stmt, k, m, o)
    requires BranchesSteady(f, g, stmt.elifs[k..]) && (stmt.els.Else? ==> AllSteady(f, g, stmt.els.body))
    ensures Drifted(slots, f, g, m, o.machine) && o.machine.pending == m.pending
    decreases stmt, 0, |stmt.elifs| - k
  {
    if k == |stmt.elifs| {
      if stmt.els.Else? { BlockDrifts(slots, f, g, stmt.els.body, m, o); }
    } else {
      var branch := stmt.elifs[k];
      assert stmt.elifs[k..][0] == branch && stmt.elifs[k..][1..] == stmt.elifs[k + 1..];
      if mid :| Decides(slots, branch.cond, m, true, mid) && ExecBlock(slots, branch.body, mid, o) {
        CondDrifts(slots, f, g, branch.cond, m, true, mid);
        BlockDrifts(slots, f, g, branch.body, mid, o);
        DriftedOn(slots, f, g, m, mid, o.machine);
      } else {
        var mid :| Decides(slots, branch.cond, m, false, mid) && ExecElse(slots, stmt, k + 1, mid, o);
        CondDrifts(slots, f, g, branch.cond, m, false, mid);
        ElseDrifts(slots, f, g, stmt, k + 1, mid, o);
        DriftedOn(slots, f, g, m, mid, o.machine);
      }
    }
  }

  lemma {:induction false} LoopDrifts(slots: Slots, f: Flow, g: Flow, guard: Cond, body: seq<Stmt>, n: nat,
                                      m: Machine, o: Outcome)
    requires SteadyCond(f, g, guard) && AllSteady(f, g, body) && ExecLoop(slots, guard, body, n, m, o)
    ensures Drifted(slots, f, g, m, o.machine) && o.machine.pending == m.pending
    decreases body, 2, n
  {
    if mid :| Decides(slots, guard, m, false, mid) && o == Outcome(Fell, mid) {
      CondDrifts(slots, f, g, guard, m, false, mid);
    } else {
      var mid, once :| Decides(slots, guard, m, true, mid) && ExecBlock(slots, body, mid, once)
        && match once.how
           case Left => o == once
           case Broke => o == Outcome(Fell, once.machine)
           case _ => ExecLoop(slots, guard, body, n - 1, once.machine, o);
      CondDrifts(slots, f, g, guard, m, true, mid);
      BlockDrifts(slots, f, g, body, mid, once);
      DriftedOn(slots, f, g, m, mid, once.machine);
      if once.how.Fell? || once.how.Continued? {
        LoopDrifts(slots, f, g, guard, body, n - 1, once.machine, o);
        DriftedOn(slots, f, g, m, once.machine, o.machine);
      }
    }
  }

  lemma {:induction false} SeqDrifts(slots: Slots, f: Flow, g: Flow, stmts: seq<Stmt>, m: Machine, o: Outcome)
    requires AllSteady(f, g, stmts) && ExecSeq(slots, stmts, m, o)
    ensures Drifted(slots, f, g, m, o.machine)
    decreases stmts, 0
  {
    if stmts != [] {
      var first :| Exec(slots, stmts[0], m, first) &&
        if first.how == Fell then ExecSeq(slots, stmts[1..], first.machine, o) else o == first;
      SteadyDrifts(slots, f, g, stmts[0], m, first);
      if first.how == Fell {
        SeqDrifts(slots, f, g, stmts[1..], first.machine, o);
        DriftedOn(slots, f, g, m, first.machine, o.machine);
      }
    }
  }

  lemma {:induction false} BlockDrifts(slots: Slots, f: Flow, g: Flow, stmts: seq<Stmt>, m: Machine, o: Outcome)
    requires AllSteady(f, g, stmts) && ExecBlock(slots, stmts, m, o)
    ensures Drifted(slots, f, g, m, o.machine) && o.machine.pending == m.pending
    decreases stmts, 1
  {
    var inner :| ExecSeq(slots, stmts, m, inner) && |m.pending| <= |inner.machine.pending|
      && o == Outcome(inner.how, Unwind(inner.machine, |m.pending|));
    SeqDrifts(slots, f, g, stmts, m, inner);
  }
}
