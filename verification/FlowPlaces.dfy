/** The places of a body, what the checker holds at each, and the executions that reach it. */
module FlowPlaces {
  import opened Syntax
  import opened FlowFacts
  import opened FlowAnalysis
  import opened FlowSemantics
  import opened FlowGuards
  import opened FlowSteady

  /** Before statement number `index` of a sequence, or at its end; or inside one arm of a statement.
      The arms of an if are its then body, its elseif bodies and its else body, in that order; a loop's
      one arm is its body. */
  datatype Place = At(index: nat) | In(index: nat, arm: nat, rest: Place)

  predicate HasArm(stmt: Stmt, arm: nat) {
    match stmt
    case If(_, _, elifs, els) => arm <= |elifs| || (arm == |elifs| + 1 && els.Else?)
    case While(_, _) => arm == 0
    case For(_) => arm == 0
    case Unsafe(_) => arm == 0
    case _ => false
  }

  function ArmBody(stmt: Stmt, arm: nat): (body: seq<Stmt>)
    requires HasArm(stmt, arm)
  {
    match stmt
    case If(_, thn, elifs, els) =>
      if arm == 0 then thn else if arm <= |elifs| then elifs[arm - 1].body else els.body
    case While(_, loop) => loop
    case For(each) => each
    case Unsafe(region) => region
  }

  predicate IsLoop(stmt: Stmt) {
    stmt.While? || stmt.For?
  }

  /** The loop depth inside an arm. */
  function ArmDepth(stmt: Stmt, depth: nat): nat {
    if IsLoop(stmt) then depth + 1 else depth
  }

  predicate Valid(stmts: seq<Stmt>, place: Place) {
    match place
    case At(i) => i <= |stmts|
    case In(i, arm, rest) => i < |stmts| && HasArm(stmts[i], arm) && Valid(ArmBody(stmts[i], arm), rest)
  }

  // ----- what the checker holds at a place -----

  /** The flow and counter a body is entered with. */
  datatype Start = Start(flow: Flow, next: AllocationId)

  /** Entry k of an elseif chain whose earlier conditions are false; past the last elseif is the
      else body. */
  function ElifEntry(slots: Slots, elifs: seq<Branch>, chain: Chain, k: nat, defers: seq<Action>, depth: nat): Start
    requires k <= |elifs|
    decreases |elifs|
  {
    if elifs == [] then Start(chain.otherwise, chain.next)
    else if k == 0 then
      Start(Narrowed(slots, CondEffects(chain.otherwise, elifs[0].cond), elifs[0].cond, true), chain.next)
    else ElifEntry(slots, elifs[1..], CheckElif(slots, elifs[0], chain, defers, depth), k - 1, defers, depth)
  }

  function ArmEntry(slots: Slots, stmt: Stmt, s: Scope, arm: nat, depth: nat): Start
    requires HasArm(stmt, arm)
  {
    match stmt
    case If(cond, thn, elifs, _) =>
      var f := Narrowed(slots, CondEffects(s.flow, cond), cond, true);
      if arm == 0 then Start(f, s.next)
      else
        ElifEntry(slots, elifs, StartChain(slots, cond, thn, s, CheckBlock(slots, thn, f, s.next, depth)),
                  arm - 1, s.defers, depth)
    case While(guard, _) => Start(Narrowed(slots, CondEffects(s.flow, guard), guard, true), s.next)
    case For(_) => Start(s.flow, s.next)
    case Unsafe(_) => Start(s.flow, s.next)
  }

  /** The flow at a place, and every deferred action that would still run if the body were left
      from there: the enclosing scopes' first. */
  datatype Point = Point(flow: Flow, next: AllocationId, actions: seq<Action>)

  function PointAt(slots: Slots, stmts: seq<Stmt>, s: Scope, outer: seq<Action>, place: Place, depth: nat): Point
    requires Valid(stmts, place)
    decreases place
  {
    var here := CheckSeq(slots, stmts[..place.index], s, depth);
    match place
    case At(_) => Point(here.flow, here.next, outer + here.defers)
    case In(i, arm, rest) =>
      var start := ArmEntry(slots, stmts[i], here, arm, depth);
      PointAt(slots, ArmBody(stmts[i], arm), Enter(start.flow, start.next), outer + here.defers, rest,
              ArmDepth(stmts[i], depth))
  }

  /** Everything checked before the place, at every level, is within what the facts follow. Inside a
      loop the iterations before this one count too: they must take no new address. */
  predicate FollowedTo(slots: Slots, stmts: seq<Stmt>, s: Scope, place: Place, depth: nat, cleanup: bool)
    requires Valid(stmts, place)
    decreases place
  {
    var here := CheckSeq(slots, stmts[..place.index], s, depth);
    && SeqFollowed(slots, stmts[..place.index], s, depth, cleanup)
    && match place
       case At(_) => true
       case In(i, arm, rest) =>
         var start := ArmEntry(slots, stmts[i], here, arm, depth);
         && (IsLoop(stmts[i]) ==> Steady(here.flow, here.flow, stmts[i]))
         && FollowedTo(slots, ArmBody(stmts[i], arm), Enter(start.flow, start.next), rest,
                       ArmDepth(stmts[i], depth), cleanup)
  }

  // ----- the executions that reach a place -----

  ghost predicate EntersElif(slots: Slots, elifs: seq<Branch>, m: Machine, k: nat, m': Machine)
    requires k <= |elifs|
    decreases |elifs|
  {
    if elifs == [] then m' == m
    else if k == 0 then Decides(slots, elifs[0].cond, m, true, m')
    else exists mid :: Decides(slots, elifs[0].cond, m, false, mid) && EntersElif(slots, elifs[1..], mid, k - 1, m')
  }

  /** At most n whole iterations, and the guard once more. */
  ghost predicate EntersLoop(slots: Slots, guard: Cond, body: seq<Stmt>, n: nat, m: Machine, m': Machine) {
    || Decides(slots, guard, m, true, m')
    || (n > 0 && exists mid, once ::
          && Decides(slots, guard, m, true, mid) && ExecBlock(slots, body, mid, once)
          && (once.how.Fell? || once.how.Continued?)
          && EntersLoop(slots, guard, body, n - 1, once.machine, m'))
  }

  ghost predicate EntersArm(slots: Slots, stmt: Stmt, m: Machine, arm: nat, m': Machine)
    requires HasArm(stmt, arm)
  {
    match stmt
    case If(cond, _, elifs, _) =>
      if arm == 0 then Decides(slots, cond, m, true, m')
      else exists mid :: Decides(slots, cond, m, false, mid) && EntersElif(slots, elifs, mid, arm - 1, m')
    case While(guard, loop) => exists n: nat :: EntersLoop(slots, guard, loop, n, m, m')
    case For(each) => exists n: nat :: EntersLoop(slots, Opaque([]), each, n, m, m')
    case Unsafe(_) => m' == m
  }

  /** Some execution from m is at the place with machine m'. */
  ghost predicate Reaches(slots: Slots, stmts: seq<Stmt>, m: Machine, place: Place, m': Machine)
    requires Valid(stmts, place)
    decreases place
  {
    match place
    case At(i) => ExecSeq(slots, stmts[..i], m, Outcome(Fell, m'))
    case In(i, arm, rest) =>
      exists here, inside ::
        && ExecSeq(slots, stmts[..i], m, Outcome(Fell, here))
        && EntersArm(slots, stmts[i], here, arm, inside)
        && Reaches(slots, ArmBody(stmts[i], arm), inside, rest, m')
  }

  /** The iterations before the one entered leave alone what steady facts speak of. */
  lemma {:induction false} EntersDrifts(slots: Slots, f: Flow, guard: Cond, body: seq<Stmt>, n: nat,
                                        m: Machine, m': Machine) returns (before: Machine)
    requires SteadyCond(f, f, guard) && AllSteady(f, f, body) && EntersLoop(slots, guard, body, n, m, m')
    ensures Drifted(slots, f, f, m, before) && before.pending == m.pending
    ensures Decides(slots, guard, before, true, m')
    decreases n
  {
    before := m;
    if !Decides(slots, guard, m, true, m') {
      var mid, once :| Decides(slots, guard, m, true, mid) && ExecBlock(slots, body, mid, once)
        && (once.how.Fell? || once.how.Continued?) && EntersLoop(slots, guard, body, n - 1, once.machine, m');
      CondDrifts(slots, f, f, guard, m, true, mid);
      BlockDrifts(slots, f, f, body, mid, once);
      DriftedOn(slots, f, f, m, mid, once.machine);
      before := EntersDrifts(slots, f, guard, body, n - 1, once.machine, m');
      DriftedOn(slots, f, f, m, once.machine, before);
    }
  }

  lemma {:induction false} FollowedToLess(slots: Slots, stmts: seq<Stmt>, s: Scope, place: Place, depth: nat)
    requires Valid(stmts, place) && FollowedTo(slots, stmts, s, place, depth, true)
    ensures FollowedTo(slots, stmts, s, place, depth, false)
    decreases place
  {
    SeqFollowedLess(slots, stmts[..place.index], s, depth);
    if place.In? {
      var here := CheckSeq(slots, stmts[..place.index], s, depth);
      var start := ArmEntry(slots, stmts[place.index], here, place.arm, depth);
      FollowedToLess(slots, ArmBody(stmts[place.index], place.arm), Enter(start.flow, start.next), place.rest,
                     ArmDepth(stmts[place.index], depth));
    }
  }

  // ----- a whole body -----

  /** A function body starts with nothing known; its caller's slots are typed and no address of
      them is held, and it has registered no release. */
  ghost predicate Initial(slots: Slots, m: Machine) {
    && (forall b | b in m.env :: Holds(slots, b, m.env[b]))
    && m.exposed == {} && m.pending == []
  }

  function BodyPoint(slots: Slots, body: seq<Stmt>, place: Place): Point
    requires Valid(body, place)
  {
    PointAt(slots, body, Enter(EMPTY_FLOW, 0), [], place, 0)
  }

  predicate BodyFollowedTo(slots: Slots, body: seq<Stmt>, place: Place, cleanup: bool)
    requires Valid(body, place)
  {
    FollowedTo(slots, body, Enter(EMPTY_FLOW, 0), place, 0, cleanup)
  }

  /** The place is not the end of its sequence. */
  predicate BeforeStatement(stmts: seq<Stmt>, place: Place)
    requires Valid(stmts, place)
    decreases place
  {
    match place
    case At(i) => i < |stmts|
    case In(i, arm, rest) => BeforeStatement(ArmBody(stmts[i], arm), rest)
  }

  function StatementAt(stmts: seq<Stmt>, place: Place): Stmt
    requires Valid(stmts, place) && BeforeStatement(stmts, place)
    decreases place
  {
    match place
    case At(i) => stmts[i]
    case In(i, arm, rest) => StatementAt(ArmBody(stmts[i], arm), rest)
  }
}
