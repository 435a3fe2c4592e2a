/** What checking a statement sequence does to the flow facts, as a function. The imperative
    checker in FlowChecker is proved equal to these functions; the soundness results in
    FlowSoundness are about them. */
module FlowAnalysis {
  import opened Syntax
  import opened FlowFacts

  /** A deferred release: the binding it names and the identity captured when it was
      registered, zero when the binding was untracked then. */
  datatype Action = Action(binding: BindingId, captured: AllocationId)

  /** One reachable return: the facts there and the actions still to run. */
  datatype ReturnFlow = ReturnFlow(flow: Flow, actions: seq<Action>)

  /** One lexical scope while its statements are checked. `open` turns false at the first
      accepted statement that terminates. */
  datatype Scope = Scope(flow: Flow, next: AllocationId, defers: seq<Action>,
                         exits: seq<ReturnFlow>, failed: bool, open: bool)

  // ----- termination proofs by shape -----

  predicate Terminates(stmt: Stmt) {
    match stmt
    case Return => true
    case Break => true
    case Continue => true
    case Unsafe(region) => SeqTerminates(region)
    case If(_, thn, elifs, Else(body)) =>
      SeqTerminates(thn) && BranchesTerminate(elifs) && SeqTerminates(body)
    case _ => false
  }

  predicate SeqTerminates(stmts: seq<Stmt>) {
    stmts != [] && (Terminates(stmts[0]) || SeqTerminates(stmts[1..]))
  }

  predicate BranchesTerminate(elifs: seq<Branch>) {
    elifs != [] ==> SeqTerminates(elifs[0].body) && BranchesTerminate(elifs[1..])
  }

  // ----- deferred releases -----

  datatype Verdict = Verdict(flow: Flow, failed: bool)

  function ValidateOne(action: Action, f: Flow): Verdict {
    if action.captured != 0 then
      if FreedAllocReport(f, action.captured) then Verdict(f, true)
      else Verdict(MarkFreedAlloc(f, action.captured), false)
    else if Freed(f, action.binding) then Verdict(f, true)
    else Verdict(MarkFreed(f, action.binding), false)
  }

  /** The actions run last registered first. */
  function Validate(actions: seq<Action>, f: Flow): Verdict {
    if actions == [] then Verdict(f, false)
    else
      var last := ValidateOne(actions[|actions| - 1], f);
      var rest := Validate(actions[..|actions| - 1], last.flow);
      Verdict(rest.flow, last.failed || rest.failed)
  }

  function ValidateExits(exits: seq<ReturnFlow>): seq<ReturnFlow> {
    if exits == [] then []
    else [ReturnFlow(Validate(exits[0].actions, exits[0].flow).flow, exits[0].actions)]
         + ValidateExits(exits[1..])
  }

  predicate SomeExitFails(exits: seq<ReturnFlow>) {
    exits != [] &&
    (Validate(exits[0].actions, exits[0].flow).failed || SomeExitFails(exits[1..]))
  }

  /** A child's returns still have the enclosing scope's registered actions to run. */
  function Lift(exits: seq<ReturnFlow>, defers: seq<Action>): seq<ReturnFlow> {
    if exits == [] then []
    else [ReturnFlow(exits[0].flow, defers)] + Lift(exits[1..], defers)
  }

  /** The end of a scope: its deferred actions are validated on the normal exit, if there is
      one, and on every recorded return. */
  function Close(s: Scope): Scope {
    var normal := if s.open then Validate(s.defers, s.flow) else Verdict(s.flow, false);
    s.(flow := normal.flow,
       exits := ValidateExits(s.exits),
       failed := s.failed || normal.failed || SomeExitFails(s.exits))
  }

  // ----- conditions -----

  /** The type a read of b has here: its narrowed type, or else its declared one. */
  function ReadType(slots: Slots, f: Flow, b: BindingId): Type {
    if NarrowedType(f, b) != NO_TYPE then NarrowedType(f, b)
    else if b in slots then slots[b] else NO_TYPE
  }

  predicate CondRejected(slots: Slots, f: Flow, cond: Cond) {
    match cond
    case Opaque(_) => false
    case NilTest(b, _) =>
      var t := ReadType(slots, f, b);
      !IsUnion(t) || NIL !in t
    case MemberTest(b, m) =>
      var t := ReadType(slots, f, b);
      m == NIL || !IsUnion(t) || Escaped(f, b) || m !in t || (|t| == 2 && NIL in t)
  }

  function CondEffects(f: Flow, cond: Cond): Flow {
    if cond.Opaque? then EscapeAll(f, cond.exposes) else f
  }

  datatype Narrowing = NoNarrowing | Narrowing(binding: BindingId, typ: Type, other: Type)

  function CondNarrowing(slots: Slots, f: Flow, cond: Cond): Narrowing {
    match cond
    case Opaque(_) => NoNarrowing
    case NilTest(b, equal) =>
      var t := ReadType(slots, f, b);
      if b == 0 || Escaped(f, b) || !IsUnion(t) || NIL !in t then NoNarrowing
      else if equal then Narrowing(b, {NIL}, t - {NIL})
      else Narrowing(b, t - {NIL}, {NIL})
    case MemberTest(b, m) =>
      var t := ReadType(slots, f, b);
      if b == 0 || Escaped(f, b) || !IsUnion(t) || m !in t then NoNarrowing
      else Narrowing(b, {m}, t - {m})
  }

  /** The flow of the side where the condition held (`verdict`) or did not. */
  function Narrowed(slots: Slots, f: Flow, cond: Cond, verdict: bool): Flow {
    if CondRejected(slots, f, cond) then f
    else
      match CondNarrowing(slots, f, cond)
      case NoNarrowing => f
      case Narrowing(b, typ, other) => Narrow(f, b, if verdict then typ else other)
  }

  // ----- statements -----

  function Declared(s: Scope, b: BindingId, trackable: bool, init: Init): Scope {
    if !trackable then s
    else
      s.(flow := AliasFreed(TrackFreed(s.flow, b, s.next), DirectSource(init), b),
         next := s.next + (if TrackMints(s.flow, b) then 1 else 0))
  }

  function Assigned(s: Scope, b: BindingId, init: Init): Scope {
    var f := InvalidateNarrowing(s.flow, b);
    if b == 0 then s
    else if DirectSource(init) != 0 then s.(flow := AliasFreed(f, DirectSource(init), b))
    else s.(flow := ClearFreed(f, b, s.next), next := s.next + (if b in f.tracked then 1 else 0))
  }

  /** The effect of a statement other than an if, a loop or an unsafe region. */
  function CheckSimple(stmt: Stmt, s: Scope, depth: nat): Scope
    requires Simple(stmt)
  {
    match stmt
    case Declare(b, trackable, init) => Declared(s, b, trackable, init)
    case Assign(b, init) => Assigned(s, b, init)
    case Free(b) =>
      if Freed(s.flow, b) then s.(failed := true) else s.(flow := MarkFreed(s.flow, b))
    case Deref(b) => s.(failed := s.failed || Freed(s.flow, b))
    case Expose(b) => s.(flow := Escape(s.flow, b))
    case DeferFree(b) => s.(defers := s.defers + [Action(b, TrackedAllocation(s.flow, b))])
    case Return => s
    case Break => s.(failed := s.failed || depth == 0)
    case Continue => s.(failed := s.failed || depth == 0)
  }

  /** An if chain while its branches are checked: the flow of the side where every test so far
      failed, the flows that continue past the chain, and the recorded returns. */
  datatype Chain = Chain(otherwise: Flow, next: AllocationId, continuing: seq<Flow>,
                         exits: seq<ReturnFlow>, failed: bool)

  function Enter(f: Flow, next: AllocationId): Scope {
    Scope(f, next, [], [], false, true)
  }

  function CheckBlock(slots: Slots, stmts: seq<Stmt>, f: Flow, next: AllocationId, depth: nat): Scope
    decreases stmts, 1
  {
    Close(CheckSeq(slots, stmts, Enter(f, next), depth))
  }

  function CheckSeq(slots: Slots, stmts: seq<Stmt>, s: Scope, depth: nat): Scope
    decreases stmts, 0
  {
    if stmts == [] then s
    else CheckSeq(slots, stmts[1..], Step(slots, stmts[0], s, depth), depth)
  }

  /** One statement of a sequence. A statement with a diagnostic leaves no fact behind, only
      the identities it minted; an accepted one after a terminator records no return. */
  function Step(slots: Slots, stmt: Stmt, s: Scope, depth: nat): Scope
    decreases stmt, 1
  {
    Settle(stmt, s, CheckStmt(slots, stmt, s.(failed := false), depth))
  }

  function Settle(stmt: Stmt, s: Scope, r: Scope): Scope {
    if r.failed then s.(next := r.next, failed := true)
    else
      r.(exits := if !s.open then s.exits
                    else if stmt.Return? then r.exits + [ReturnFlow(r.flow, r.defers)]
                    else r.exits,
         failed := s.failed,
         open := s.open && !Terminates(stmt))
  }

  function CheckStmt(slots: Slots, stmt: Stmt, s: Scope, depth: nat): Scope
    decreases stmt, 0
  {
    match stmt
    case If(cond, thn, elifs, els) =>
      var start := StartChain(slots, cond, thn, s,
                              CheckBlock(slots, thn, Narrowed(slots, CondEffects(s.flow, cond), cond, true), s.next, depth));
      var middle := CheckElifs(slots, elifs, start, s.defers, depth);
      Rejoin(s, CondEffects(s.flow, cond), CheckElse(slots, els, middle, s.defers, depth))
    case While(guard, loop) =>
      var f := CondEffects(s.flow, guard);
      Iterated(s, f, CondRejected(slots, f, guard),
               CheckBlock(slots, loop, Narrowed(slots, f, guard, true), s.next, depth + 1))
    case For(each) =>
      Iterated(s, s.flow, false, CheckBlock(slots, each, s.flow, s.next, depth + 1))
    case Unsafe(region) =>
      var child := CheckBlock(slots, region, s.flow, s.next, depth);
      s.(flow := child.flow, next := child.next, failed := child.failed,
         exits := if child.failed then s.exits else s.exits + Lift(child.exits, s.defers))
    case Declare(_, _, _) => CheckSimple(stmt, s, depth)
    case Assign(_, _) => CheckSimple(stmt, s, depth)
    case Free(_) => CheckSimple(stmt, s, depth)
    case Deref(_) => CheckSimple(stmt, s, depth)
    case Expose(_) => CheckSimple(stmt, s, depth)
    case DeferFree(_) => CheckSimple(stmt, s, depth)
    case Return => CheckSimple(stmt, s, depth)
    case Break => CheckSimple(stmt, s, depth)
    case Continue => CheckSimple(stmt, s, depth)
  }

  /** The chain after the then body, whose checked scope is `child`. */
  function StartChain(slots: Slots, cond: Cond, thn: seq<Stmt>, s: Scope, child: Scope): Chain {
    var f := CondEffects(s.flow, cond);
    AddBranch(Chain(Narrowed(slots, f, cond, false), s.next, [], s.exits, CondRejected(slots, f, cond)),
              thn, s.defers, child)
  }

  /** One more checked body: it continues unless it was rejected or terminates. */
  function AddBranch(chain: Chain, body: seq<Stmt>, defers: seq<Action>, child: Scope): Chain {
    chain.(next := child.next,
           continuing := if child.failed || SeqTerminates(body) then chain.continuing
                         else chain.continuing + [child.flow],
           exits := if child.failed then chain.exits else chain.exits + Lift(child.exits, defers),
           failed := chain.failed || child.failed)
  }

  function CheckElifs(slots: Slots, elifs: seq<Branch>, chain: Chain, defers: seq<Action>, depth: nat): Chain
    decreases elifs, 0
  {
    if elifs == [] then chain
    else CheckElifs(slots, elifs[1..], CheckElif(slots, elifs[0], chain, defers, depth), defers, depth)
  }

  function CheckElif(slots: Slots, branch: Branch, chain: Chain, defers: seq<Action>, depth: nat): Chain
    decreases branch, 0
  {
    var f := CondEffects(chain.otherwise, branch.cond);
    var child := CheckBlock(slots, branch.body, Narrowed(slots, f, branch.cond, true), chain.next, depth);
    AddBranch(chain.(otherwise := Narrowed(slots, f, branch.cond, false),
                     failed := chain.failed || CondRejected(slots, f, branch.cond)),
              branch.body, defers, child)
  }

  /** A missing else is the implicit path where every condition failed. */
  function CheckElse(slots: Slots, els: Else, chain: Chain, defers: seq<Action>, depth: nat): Chain
    decreases els, 0
  {
    match els
    case NoElse => chain.(continuing := chain.continuing + [chain.otherwise])
    case Else(body) =>
      AddBranch(chain, body, defers, CheckBlock(slots, body, chain.otherwise, chain.next, depth))
  }

  /** The state after an if chain: the sole continuation is adopted, several are merged, and
      none leaves the state as the first condition left it. */
  function Rejoin(s: Scope, f: Flow, chain: Chain): Scope {
    s.(flow := if |chain.continuing| == 0 then f
               else if |chain.continuing| == 1 then chain.continuing[0]
               else Merge(f, chain.continuing),
       next := chain.next, exits := chain.exits, failed := chain.failed)
  }

  /** The state after a loop whose body was checked once, as `child`. */
  function Iterated(s: Scope, f: Flow, rejected: bool, child: Scope): Scope {
    s.(flow := if child.failed then f else Merge(f, [f, child.flow]),
       next := child.next,
       exits := if child.failed then s.exits else s.exits + Lift(child.exits, s.defers),
       failed := rejected || child.failed)
  }
}
