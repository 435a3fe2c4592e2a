/** What running the statements does: slots holding values, releases, and arbitrary writes
    through addresses that escaped. Every branch decision the analysis does not test, every
    value it does not track and every such write is left open, so "some execution" below
    ranges over all of them. */
module FlowSemantics {
  import opened Syntax

  /** What a value names: the allocation, or whatever else a release would invalidate. */
  type Handle = nat

  datatype Value = Value(handle: Handle, kind: Kind)

  /** `pending` holds the handles of the deferred releases registered and not yet run. */
  datatype Machine = Machine(env: map<BindingId, Value>, released: set<Handle>,
                             exposed: set<BindingId>, pending: seq<Handle>)

  datatype How = Fell | Left | Broke | Continued

  datatype Outcome = Outcome(how: How, machine: Machine)

  predicate Holds(slots: Slots, b: BindingId, v: Value) {
    b in slots && v.kind in slots[b]
  }

  /** Some writes through escaped addresses happened. */
  ghost predicate Scribbled(slots: Slots, m: Machine, m': Machine) {
    && m' == m.(env := m'.env)
    && m'.env.Keys == m.env.Keys
    && forall b | b in m.env ::
         if b in m.exposed then Holds(slots, b, m'.env[b]) else m'.env[b] == m.env[b]
  }

  /** The value an initializer yields for slot b. */
  ghost predicate Yields(slots: Slots, m: Machine, b: BindingId, init: Init, v: Value) {
    && Holds(slots, b, v)
    && (DirectSource(init) != 0 ==> DirectSource(init) in m.env && v == m.env[DirectSource(init)])
  }

  ghost predicate Does(slots: Slots, stmt: Stmt, m: Machine, m': Machine)
    requires Simple(stmt)
  {
    match stmt
    case Declare(b, _, init) =>
      // a declaration is a new slot, whose address nobody holds
      && b in m'.env && Yields(slots, m, b, init, m'.env[b])
      && m' == m.(env := m.env[b := m'.env[b]], exposed := m.exposed - {b})
    case Assign(b, init) =>
      if b == 0 then m' == m
      else
        && b in m.env && b in m'.env && Yields(slots, m, b, init, m'.env[b])
        && m' == m.(env := m.env[b := m'.env[b]])
    case Free(b) => b in m.env && m' == m.(released := m.released + {m.env[b].handle})
    case Deref(b) => b in m.env && m' == m
    case Expose(b) => m' == m.(exposed := m.exposed + {b})
    case DeferFree(b) => b in m.env && m' == m.(pending := m.pending + [m.env[b].handle])
    case Return => m' == m
    case Break => m' == m
    case Continue => m' == m
  }

  function Exit(stmt: Stmt): How {
    match stmt
    case Return => Left
    case Break => Broke
    case Continue => Continued
    case _ => Fell
  }

  /** The condition may evaluate to `verdict`, leaving m'. */
  ghost predicate Decides(slots: Slots, cond: Cond, m: Machine, verdict: bool, m': Machine) {
    match cond
    case Opaque(exposes) =>
      Scribbled(slots, m.(exposed := m.exposed + set i | 0 <= i < |exposes| :: exposes[i]), m')
    case NilTest(b, equal) =>
      b in m.env && m' == m && verdict == ((m.env[b].kind == NIL) == equal)
    case MemberTest(b, member) =>
      b in m.env && m' == m && verdict == (m.env[b].kind == member)
  }

  ghost predicate Exec(slots: Slots, stmt: Stmt, m: Machine, o: Outcome)
    decreases stmt, 1
  {
    match stmt
    case If(cond, thn, _, _) =>
      || (exists mid :: Decides(slots, cond, m, true, mid) && ExecBlock(slots, thn, mid, o))
      || (exists mid :: Decides(slots, cond, m, false, mid) && ExecElse(slots, stmt, 0, mid, o))
    case While(guard, loop) => exists n: nat :: ExecLoop(slots, guard, loop, n, m, o)
    case For(each) => exists n: nat :: ExecLoop(slots, Opaque([]), each, n, m, o)
    case Unsafe(region) => ExecBlock(slots, region, m, o)
    case _ =>
      o.how == Exit(stmt) && exists mid :: Does(slots, stmt, m, mid) && Scribbled(slots, mid, o.machine)
  }

  /** The chain of an if from its elseif number k on, every earlier condition being false. */
  ghost predicate ExecElse(slots: Slots, stmt: Stmt, k: nat, m: Machine, o: Outcome)
    requires stmt.If? && k <= |stmt.elifs|
    decreases stmt, 0, |stmt.elifs| - k
  {
    if k == |stmt.elifs| then
      match stmt.els
      case NoElse => o == Outcome(Fell, m)
      case Else(body) => ExecBlock(slots, body, m, o)
    else
      || (exists mid :: Decides(slots, stmt.elifs[k].cond, m, true, mid) && ExecBlock(slots, stmt.elifs[k].body, mid, o))
      || (exists mid :: Decides(slots, stmt.elifs[k].cond, m, false, mid) && ExecElse(slots, stmt, k + 1, mid, o))
  }

  /** At most n iterations. */
  ghost predicate ExecLoop(slots: Slots, guard: Cond, body: seq<Stmt>, n: nat, m: Machine, o: Outcome)
    decreases body, 2, n
  {
    || (exists mid :: Decides(slots, guard, m, false, mid) && o == Outcome(Fell, mid))
    || (n > 0 && exists mid, once ::
          && Decides(slots, guard, m, true, mid)
          && ExecBlock(slots, body, mid, once)
          && match once.how
             case Left => o == once
             case Broke => o == Outcome(Fell, once.machine)
             case _ => ExecLoop(slots, guard, body, n - 1, once.machine, o))
  }

  ghost predicate ExecSeq(slots: Slots, stmts: seq<Stmt>, m: Machine, o: Outcome)
    decreases stmts, 0
  {
    if stmts == [] then o == Outcome(Fell, m)
    else
      exists first ::
        && Exec(slots, stmts[0], m, first)
        && if first.how == Fell then ExecSeq(slots, stmts[1..], first.machine, o) else o == first
  }

  /** The deferred releases registered since `base` run, whatever way the scope is left. */
  function Unwind(m: Machine, base: nat): Machine
    requires base <= |m.pending|
  {
    m.(released := m.released + (set i | base <= i < |m.pending| :: m.pending[i]),
       pending := m.pending[..base])
  }

  ghost predicate ExecBlock(slots: Slots, stmts: seq<Stmt>, m: Machine, o: Outcome)
    decreases stmts, 1
  {
    exists inner ::
      && ExecSeq(slots, stmts, m, inner)
      && |m.pending| <= |inner.machine.pending|
      && o == Outcome(inner.how, Unwind(inner.machine, |m.pending|))
  }
}
