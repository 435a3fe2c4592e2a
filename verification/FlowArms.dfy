/** One statement and its arms: when it is rejected, which returns it hands on, and what continues
    past it, each said of the arms one by one. */
module FlowArms {
  import opened Syntax
  import opened FlowFacts
  import opened FlowAnalysis
  import opened FlowHistory
  import opened FlowGuards
  import opened FlowPlaces

  /** The slot names an allocation that is in the history of releases. */
  predicate ReleasedIn(f: Flow, b: BindingId) {
    b in f.tracked && b in f.allocation && f.allocation[b] != 0 && f.allocation[b] in f.freed
  }

  predicate CondFault(slots: Slots, f: Flow, cond: Cond) {
    CondRejected(slots, CondEffects(f, cond), cond)
  }

  // ----- the chain of an if, elseif by elseif -----

  function Chains(slots: Slots, elifs: seq<Branch>, chain: Chain, defers: seq<Action>, depth: nat): (cs: seq<Chain>)
    ensures |cs| == |elifs| + 1 && cs[0] == chain
    decreases |elifs|
  {
    if elifs == [] then [chain]
    else [chain] + Chains(slots, elifs[1..], CheckElif(slots, elifs[0], chain, defers, depth), defers, depth)
  }

  lemma {:induction false} ChainsLast(slots: Slots, elifs: seq<Branch>, chain: Chain, defers: seq<Action>, depth: nat)
    ensures Chains(slots, elifs, chain, defers, depth)[|elifs|] == CheckElifs(slots, elifs, chain, defers, depth)
    decreases |elifs|
  {
    if elifs != [] { ChainsLast(slots, elifs[1..], CheckElif(slots, elifs[0], chain, defers, depth), defers, depth); }
  }

  lemma {:induction false} ChainsAt(slots: Slots, elifs: seq<Branch>, chain: Chain, k: nat, defers: seq<Action>, depth: nat)
    requires k < |elifs|
    ensures var cs := Chains(slots, elifs, chain, defers, depth);
      cs[k + 1] == CheckElif(slots, elifs[k], cs[k], defers, depth)
    decreases k
  {
    if k > 0 { ChainsAt(slots, elifs[1..], CheckElif(slots, elifs[0], chain, defers, depth), k - 1, defers, depth); }
  }

  /** What elseif number k is entered with; past the last, what the else body is. */
  lemma {:induction false} EntryAt(slots: Slots, elifs: seq<Branch>, chain: Chain, k: nat, defers: seq<Action>, depth: nat)
    requires k <= |elifs|
    ensures var c := Chains(slots, elifs, chain, defers, depth)[k];
      ElifEntry(slots, elifs, chain, k, defers, depth) ==
        if k == |elifs| then Start(c.otherwise, c.next)
        else Start(Narrowed(slots, CondEffects(c.otherwise, elifs[k].cond), elifs[k].cond, true), c.next)
    decreases k
  {
    if k > 0 { EntryAt(slots, elifs[1..], CheckElif(slots, elifs[0], chain, defers, depth), k - 1, defers, depth); }
  }

  /** The chain after the then body. */
  function Started(slots: Slots, stmt: Stmt, s: Scope, depth: nat): Chain
    requires stmt.If?
  {
    var f := Narrowed(slots, CondEffects(s.flow, stmt.cond), stmt.cond, true);
    StartChain(slots, stmt.cond, stmt.thn, s, CheckBlock(slots, stmt.thn, f, s.next, depth))
  }

  function ElifChains(slots: Slots, stmt: Stmt, s: Scope, depth: nat): (cs: seq<Chain>)
    requires stmt.If?
    ensures |cs| == |stmt.elifs| + 1 && cs[0] == Started(slots, stmt, s, depth)
  {
    Chains(slots, stmt.elifs, Started(slots, stmt, s, depth), s.defers, depth)
  }

  /** The chain before the else. */
  function Middle(slots: Slots, stmt: Stmt, s: Scope, depth: nat): Chain
    requires stmt.If?
  {
    CheckElifs(slots, stmt.elifs, Started(slots, stmt, s, depth), s.defers, depth)
  }

  lemma MiddleIsLast(slots: Slots, stmt: Stmt, s: Scope, depth: nat)
    requires stmt.If?
    ensures ElifChains(slots, stmt, s, depth)[|stmt.elifs|] == Middle(slots, stmt, s, depth)
  {
    ChainsLast(slots, stmt.elifs, Started(slots, stmt, s, depth), s.defers, depth);
  }

  lemma ElifArm(slots: Slots, stmt: Stmt, s: Scope, k: nat, depth: nat)
    requires stmt.If? && k < |stmt.elifs|
    ensures var c := ElifChains(slots, stmt, s, depth)[k];
      var cond := stmt.elifs[k].cond;
      && ArmEntry(slots, stmt, s, k + 1, depth) == Start(Narrowed(slots, CondEffects(c.otherwise, cond), cond, true), c.next)
      && ElifChains(slots, stmt, s, depth)[k + 1] == CheckElif(slots, stmt.elifs[k], c, s.defers, depth)
  {
    EntryAt(slots, stmt.elifs, Started(slots, stmt, s, depth), k, s.defers, depth);
    ChainsAt(slots, stmt.elifs, Started(slots, stmt, s, depth), k, s.defers, depth);
  }

  lemma ElseArm(slots: Slots, stmt: Stmt, s: Scope, depth: nat)
    requires stmt.If?
    ensures var middle := Middle(slots, stmt, s, depth);
      ElifEntry(slots, stmt.elifs, Started(slots, stmt, s, depth), |stmt.elifs|, s.defers, depth)
        == Start(middle.otherwise, middle.next)
  {
    EntryAt(slots, stmt.elifs, Started(slots, stmt, s, depth), |stmt.elifs|, s.defers, depth);
    MiddleIsLast(slots, stmt, s, depth);
  }

  // ----- when a statement is rejected -----

  predicate ArmFails(slots: Slots, stmt: Stmt, s: Scope, arm: nat, depth: nat)
    requires HasArm(stmt, arm)
  {
    var start := ArmEntry(slots, stmt, s, arm, depth);
    CheckBlock(slots, ArmBody(stmt, arm), start.flow, start.next, ArmDepth(stmt, depth)).failed
  }

  predicate FailsIn(slots: Slots, stmt: Stmt, s: Scope, arm: nat, depth: nat) {
    HasArm(stmt, arm) && ArmFails(slots, stmt, s, arm, depth)
  }

  /** The condition of elseif number k tests what it cannot, where it is evaluated. */
  predicate ElifFault(slots: Slots, stmt: Stmt, s: Scope, k: nat, depth: nat)
    requires stmt.If? && k < |stmt.elifs|
  {
    CondFault(slots, ElifChains(slots, stmt, s, depth)[k].otherwise, stmt.elifs[k].cond)
  }

  /** What a statement is refused for on its own: a use of a released allocation, a jump outside every
      loop, or a condition that tests what it cannot. */
  predicate OwnFault(slots: Slots, stmt: Stmt, s: Scope, depth: nat) {
    match stmt
    case Free(b) => ReleasedIn(s.flow, b)
    case Deref(b) => ReleasedIn(s.flow, b)
    case Break => depth == 0
    case Continue => depth == 0
    case If(cond, _, elifs, _) =>
      CondFault(slots, s.flow, cond) || exists k | 0 <= k < |elifs| :: ElifFault(slots, stmt, s, k, depth)
    case While(guard, _) => CondFault(slots, s.flow, guard)
    case _ => false
  }

  lemma ElifFails(slots: Slots, stmt: Stmt, s: Scope, k: nat, depth: nat)
    requires stmt.If? && k < |stmt.elifs|
    ensures var cs := ElifChains(slots, stmt, s, depth);
      cs[k + 1].failed <==> cs[k].failed || ElifFault(slots, stmt, s, k, depth) || FailsIn(slots, stmt, s, k + 1, depth)
  {
    ElifArm(slots, stmt, s, k, depth);
  }

  lemma ThenFails(slots: Slots, stmt: Stmt, s: Scope, depth: nat)
    requires stmt.If?
    ensures Started(slots, stmt, s, depth).failed <==> CondFault(slots, s.flow, stmt.cond) || FailsIn(slots, stmt, s, 0, depth)
  {
  }

  lemma {:induction false} FailsUpTo(slots: Slots, stmt: Stmt, s: Scope, k: nat, depth: nat)
    requires stmt.If? && k <= |stmt.elifs|
    ensures ElifChains(slots, stmt, s, depth)[k].failed <==>
      || CondFault(slots, s.flow, stmt.cond)
      || (exists j | 0 <= j < k :: ElifFault(slots, stmt, s, j, depth))
      || exists arm: nat | arm <= k :: FailsIn(slots, stmt, s, arm, depth)
    decreases k
  {
    if k == 0 {
      ThenFails(slots, stmt, s, depth);
    } else {
      FailsUpTo(slots, stmt, s, k - 1, depth);
      ElifFails(slots, stmt, s, k - 1, depth);
    }
  }

  /** The then body and the elseifs, before the else. */
  lemma FirstFail(slots: Slots, stmt: Stmt, s: Scope, depth: nat)
    requires stmt.If?
    ensures Middle(slots, stmt, s, depth).failed <==>
      OwnFault(slots, stmt, s, depth) || exists arm: nat | arm <= |stmt.elifs| :: FailsIn(slots, stmt, s, arm, depth)
  {
    FailsUpTo(slots, stmt, s, |stmt.elifs|, depth);
    MiddleIsLast(slots, stmt, s, depth);
  }

  lemma LastFails(slots: Slots, stmt: Stmt, s: Scope, depth: nat)
    requires stmt.If?
    ensures CheckStmt(slots, stmt, s, depth).failed <==>
      Middle(slots, stmt, s, depth).failed || FailsIn(slots, stmt, s, |stmt.elifs| + 1, depth)
  {
    ElseArm(slots, stmt, s, depth);
  }

  lemma IfFailsExactly(slots: Slots, stmt: Stmt, s: Scope, depth: nat)
    requires stmt.If?
    ensures CheckStmt(slots, stmt, s, depth).failed <==>
      OwnFault(slots, stmt, s, depth) || exists arm: nat :: FailsIn(slots, stmt, s, arm, depth)
  {
    FirstFail(slots, stmt, s, depth);
    LastFails(slots, stmt, s, depth);
    if arm: nat :| FailsIn(slots, stmt, s, arm, depth) && arm > |stmt.elifs| {
      assert arm == |stmt.elifs| + 1;
    }
  }

  /** A statement is rejected exactly for a fault of its own or inside an arm. */
  lemma StmtFailsExactly(slots: Slots, stmt: Stmt, s: Scope, depth: nat)
    requires !s.failed
    ensures CheckStmt(slots, stmt, s, depth).failed <==>
      OwnFault(slots, stmt, s, depth) || exists arm: nat :: FailsIn(slots, stmt, s, arm, depth)
  {
    if stmt.If? {
      IfFailsExactly(slots, stmt, s, depth);
    } else if stmt.While? || stmt.For? || stmt.Unsafe? {
      assert CheckStmt(slots, stmt, s, depth).failed <==> OwnFault(slots, stmt, s, depth) || FailsIn(slots, stmt, s, 0, depth);
    }
  }

  /** Whether something failed before does not matter to a statement's own fault. */
  lemma OwnFaultAfresh(slots: Slots, stmt: Stmt, s: Scope, depth: nat)
    ensures OwnFault(slots, stmt, s, depth) == OwnFault(slots, stmt, s.(failed := false), depth)
  {
    if stmt.If? {
      assert Started(slots, stmt, s, depth) == Started(slots, stmt, s.(failed := false), depth);
      forall k | 0 <= k < |stmt.elifs|
        ensures ElifFault(slots, stmt, s, k, depth) == ElifFault(slots, stmt, s.(failed := false), k, depth)
      {
      }
    }
  }

  // ----- which returns it hands on -----

  /** e is a return recorded inside an arm, as the statement hands it on. */
  predicate ArmReturns(slots: Slots, stmt: Stmt, s: Scope, arm: nat, depth: nat, e: ReturnFlow)
    requires HasArm(stmt, arm)
  {
    var start := ArmEntry(slots, stmt, s, arm, depth);
    e in Lift(CheckBlock(slots, ArmBody(stmt, arm), start.flow, start.next, ArmDepth(stmt, depth)).exits, s.defers)
  }

  predicate ReturnsFrom(slots: Slots, stmt: Stmt, s: Scope, arm: nat, depth: nat, e: ReturnFlow) {
    HasArm(stmt, arm) && ArmReturns(slots, stmt, s, arm, depth, e)
  }

  lemma ElifReturns(slots: Slots, stmt: Stmt, s: Scope, k: nat, depth: nat, e: ReturnFlow)
    requires stmt.If? && k < |stmt.elifs| && !ElifChains(slots, stmt, s, depth)[k + 1].failed
    ensures var cs := ElifChains(slots, stmt, s, depth);
      e in cs[k + 1].exits <==> e in cs[k].exits || ReturnsFrom(slots, stmt, s, k + 1, depth, e)
  {
    ElifArm(slots, stmt, s, k, depth);
  }

  lemma ThenReturns(slots: Slots, stmt: Stmt, s: Scope, depth: nat, e: ReturnFlow)
    requires stmt.If? && !Started(slots, stmt, s, depth).failed
    ensures e in Started(slots, stmt, s, depth).exits <==> e in s.exits || ReturnsFrom(slots, stmt, s, 0, depth, e)
  {
  }

  lemma {:induction false} ReturnsUpTo(slots: Slots, stmt: Stmt, s: Scope, k: nat, depth: nat, e: ReturnFlow)
    requires stmt.If? && k <= |stmt.elifs| && !ElifChains(slots, stmt, s, depth)[k].failed
    ensures e in ElifChains(slots, stmt, s, depth)[k].exits <==>
      e in s.exits || exists arm: nat | arm <= k :: ReturnsFrom(slots, stmt, s, arm, depth, e)
    decreases k
  {
    if k == 0 {
      ThenReturns(slots, stmt, s, depth, e);
    } else {
      ElifFails(slots, stmt, s, k - 1, depth);
      ReturnsUpTo(slots, stmt, s, k - 1, depth, e);
      ElifReturns(slots, stmt, s, k - 1, depth, e);
    }
  }

  lemma FirstReturn(slots: Slots, stmt: Stmt, s: Scope, depth: nat, e: ReturnFlow)
    requires stmt.If? && !Middle(slots, stmt, s, depth).failed
    ensures e in Middle(slots, stmt, s, depth).exits <==>
      e in s.exits || exists arm: nat | arm <= |stmt.elifs| :: ReturnsFrom(slots, stmt, s, arm, depth, e)
  {
    MiddleIsLast(slots, stmt, s, depth);
    ReturnsUpTo(slots, stmt, s, |stmt.elifs|, depth, e);
  }

  lemma LastReturns(slots: Slots, stmt: Stmt, s: Scope, depth: nat, e: ReturnFlow)
    requires stmt.If? && !CheckStmt(slots, stmt, s, depth).failed
    ensures e in CheckStmt(slots, stmt, s, depth).exits <==>
      e in Middle(slots, stmt, s, depth).exits || ReturnsFrom(slots, stmt, s, |stmt.elifs| + 1, depth, e)
  {
    ElseArm(slots, stmt, s, depth);
  }

  lemma IfReturnsExactly(slots: Slots, stmt: Stmt, s: Scope, depth: nat, e: ReturnFlow)
    requires stmt.If? && !CheckStmt(slots, stmt, s, depth).failed
    ensures e in CheckStmt(slots, stmt, s, depth).exits <==>
      e in s.exits || exists arm: nat :: ReturnsFrom(slots, stmt, s, arm, depth, e)
  {
    LastFails(slots, stmt, s, depth);
    FirstReturn(slots, stmt, s, depth, e);
    LastReturns(slots, stmt, s, depth, e);
    if arm: nat :| ReturnsFrom(slots, stmt, s, arm, depth, e) && arm > |stmt.elifs| {
      assert arm == |stmt.elifs| + 1;
    }
  }

  /** The returns an accepted statement adds are those of its arms. */
  lemma StmtReturnsExactly(slots: Slots, stmt: Stmt, s: Scope, depth: nat, e: ReturnFlow)
    requires !CheckStmt(slots, stmt, s, depth).failed
    ensures e in CheckStmt(slots, stmt, s, depth).exits <==>
      e in s.exits || exists arm: nat :: ReturnsFrom(slots, stmt, s, arm, depth, e)
  {
    if stmt.If? {
      IfReturnsExactly(slots, stmt, s, depth, e);
    } else if stmt.While? || stmt.For? || stmt.Unsafe? {
      assert e in CheckStmt(slots, stmt, s, depth).exits <==> e in s.exits || ReturnsFrom(slots, stmt, s, 0, depth, e);
    }
  }

  // ----- what continues past an if -----

  /** What an arm leaves. */
  function ArmFlow(slots: Slots, stmt: Stmt, s: Scope, arm: nat, depth: nat): Flow
    requires HasArm(stmt, arm)
  {
    var start := ArmEntry(slots, stmt, s, arm, depth);
    CheckBlock(slots, ArmBody(stmt, arm), start.flow, start.next, ArmDepth(stmt, depth)).flow
  }

  /** The facts where every condition of the if failed. */
  function Otherwise(slots: Slots, stmt: Stmt, s: Scope, depth: nat): Flow
    requires stmt.If?
  {
    ElifEntry(slots, stmt.elifs, Started(slots, stmt, s, depth), |stmt.elifs|, s.defers, depth).flow
  }

  /** The arm does not terminate, and g is what it leaves. */
  predicate Continues(slots: Slots, stmt: Stmt, s: Scope, arm: nat, depth: nat, g: Flow) {
    HasArm(stmt, arm) && !SeqTerminates(ArmBody(stmt, arm)) && g == ArmFlow(slots, stmt, s, arm, depth)
  }

  lemma ElifContinues(slots: Slots, stmt: Stmt, s: Scope, k: nat, depth: nat, g: Flow)
    requires stmt.If? && k < |stmt.elifs| && !ElifChains(slots, stmt, s, depth)[k + 1].failed
    ensures var cs := ElifChains(slots, stmt, s, depth);
      g in cs[k + 1].continuing <==> g in cs[k].continuing || Continues(slots, stmt, s, k + 1, depth, g)
  {
    ElifArm(slots, stmt, s, k, depth);
  }

  lemma ThenContinues(slots: Slots, stmt: Stmt, s: Scope, depth: nat, g: Flow)
    requires stmt.If? && !Started(slots, stmt, s, depth).failed
    ensures g in Started(slots, stmt, s, depth).continuing <==> Continues(slots, stmt, s, 0, depth, g)
  {
  }

  lemma {:induction false} ContinueUpTo(slots: Slots, stmt: Stmt, s: Scope, k: nat, depth: nat, g: Flow)
    requires stmt.If? && k <= |stmt.elifs| && !ElifChains(slots, stmt, s, depth)[k].failed
    ensures g in ElifChains(slots, stmt, s, depth)[k].continuing <==>
      exists arm: nat | arm <= k :: Continues(slots, stmt, s, arm, depth, g)
    decreases k
  {
    if k == 0 {
      ThenContinues(slots, stmt, s, depth, g);
    } else {
      ElifFails(slots, stmt, s, k - 1, depth);
      ContinueUpTo(slots, stmt, s, k - 1, depth, g);
      ElifContinues(slots, stmt, s, k - 1, depth, g);
    }
  }

  lemma FirstContinue(slots: Slots, stmt: Stmt, s: Scope, depth: nat, g: Flow)
    requires stmt.If? && !Middle(slots, stmt, s, depth).failed
    ensures g in Middle(slots, stmt, s, depth).continuing <==>
      exists arm: nat | arm <= |stmt.elifs| :: Continues(slots, stmt, s, arm, depth, g)
  {
    MiddleIsLast(slots, stmt, s, depth);
    ContinueUpTo(slots, stmt, s, |stmt.elifs|, depth, g);
  }

  lemma LastContinues(slots: Slots, stmt: Stmt, s: Scope, depth: nat, g: Flow)
    requires stmt.If? && !CheckStmt(slots, stmt, s, depth).failed
    ensures g in IfChain(slots, stmt, s, depth).continuing <==>
      || g in Middle(slots, stmt, s, depth).continuing
      || (stmt.els.NoElse? && g == Otherwise(slots, stmt, s, depth))
      || Continues(slots, stmt, s, |stmt.elifs| + 1, depth, g)
  {
    ElseArm(slots, stmt, s, depth);
  }

  /** Past an accepted if go exactly the flows of the arms that do not terminate, and without an else
      that of the path where every condition failed. */
  lemma ContinuingExactly(slots: Slots, stmt: Stmt, s: Scope, depth: nat, g: Flow)
    requires stmt.If? && !CheckStmt(slots, stmt, s, depth).failed
    ensures g in IfChain(slots, stmt, s, depth).continuing <==>
      || (stmt.els.NoElse? && g == Otherwise(slots, stmt, s, depth))
      || exists arm: nat :: Continues(slots, stmt, s, arm, depth, g)
  {
    LastFails(slots, stmt, s, depth);
    LastContinues(slots, stmt, s, depth, g);
    FirstContinue(slots, stmt, s, depth, g);
    if arm: nat :| Continues(slots, stmt, s, arm, depth, g) && arm > |stmt.elifs| {
      assert arm == |stmt.elifs| + 1;
    }
  }

  /** After an accepted if that some path continues past, an identity is in the history exactly when it
      is at the end of every arm that continues and, without an else, where every condition failed. */
  lemma IfReleasesExactly(slots: Slots, stmt: Stmt, s: Scope, depth: nat, a: AllocationId)
    requires stmt.If? && !s.failed && !CheckStmt(slots, stmt, s, depth).failed
    requires |IfChain(slots, stmt, s, depth).continuing| > 0
    ensures a in Step(slots, stmt, s, depth).flow.freed <==>
      && (stmt.els.NoElse? ==> a in Otherwise(slots, stmt, s, depth).freed)
      && forall arm: nat | HasArm(stmt, arm) && !SeqTerminates(ArmBody(stmt, arm)) :: a in ArmFlow(slots, stmt, s, arm, depth).freed
  {
    var before := s.(failed := false);
    assert before == s;
    var chain := IfChain(slots, stmt, s, depth);
    var g := Step(slots, stmt, s, depth).flow;
    IfStepIs(slots, stmt, s, depth);
    assert a in g.freed <==> forall i | 0 <= i < |chain.continuing| :: a in chain.continuing[i].freed;
    forall x ensures x in chain.continuing <==>
      || (stmt.els.NoElse? && x == Otherwise(slots, stmt, s, depth))
      || exists arm: nat :: Continues(slots, stmt, s, arm, depth, x)
    {
      ContinuingExactly(slots, stmt, s, depth, x);
    }
    if a in g.freed {
      forall arm: nat | HasArm(stmt, arm) && !SeqTerminates(ArmBody(stmt, arm))
        ensures a in ArmFlow(slots, stmt, s, arm, depth).freed
      {
        var x := ArmFlow(slots, stmt, s, arm, depth);
        assert Continues(slots, stmt, s, arm, depth, x);
        assert x in chain.continuing;
        var i :| 0 <= i < |chain.continuing| && chain.continuing[i] == x;
      }
      if stmt.els.NoElse? {
        assert Otherwise(slots, stmt, s, depth) in chain.continuing;
        var i :| 0 <= i < |chain.continuing| && chain.continuing[i] == Otherwise(slots, stmt, s, depth);
      }
    } else {
      var i :| 0 <= i < |chain.continuing| && a !in chain.continuing[i].freed;
      var x := chain.continuing[i];
      assert x in chain.continuing;
      if !(stmt.els.NoElse? && x == Otherwise(slots, stmt, s, depth)) {
        var arm: nat :| Continues(slots, stmt, s, arm, depth, x);
      }
    }
  }
}
