/** The branch-local fact table as a value, and what each of its operations does to it. */
module FlowFacts {
  import opened Syntax

  /** Zero means none. */
  type AllocationId = nat

  /** What is known of one binding: its narrowed type (`NO_TYPE` when not narrowed) and
      whether a writable address of it has escaped. */
  datatype Fact = Fact(typ: Type, escaped: bool)

  const BLANK := Fact(NO_TYPE, false)

  datatype Flow = Flow(facts: map<BindingId, Fact>,
                       tracked: set<BindingId>,
                       allocation: map<BindingId, AllocationId>,
                       freed: set<AllocationId>)

  const EMPTY_FLOW := Flow(map[], {}, map[], {})

  predicate Escaped(f: Flow, b: BindingId) {
    b in f.facts && f.facts[b].escaped
  }

  /** The branch-local effective read type, or `NO_TYPE`. */
  function NarrowedType(f: Flow, b: BindingId): Type {
    if b !in f.facts || f.facts[b].escaped then NO_TYPE else f.facts[b].typ
  }

  /** The identity a tracked binding denotes, or zero. */
  function TrackedAllocation(f: Flow, b: BindingId): AllocationId {
    if b in f.tracked && b in f.allocation then f.allocation[b] else 0
  }

  predicate Freed(f: Flow, b: BindingId) {
    var a := TrackedAllocation(f, b);
    a != 0 && a in f.freed
  }

  predicate FreedAllocReport(f: Flow, a: AllocationId) {
    a != 0 && a in f.freed
  }

  function Narrow(f: Flow, b: BindingId, t: Type): Flow {
    if Escaped(f, b) then f else f.(facts := f.facts[b := Fact(t, false)])
  }

  function InvalidateNarrowing(f: Flow, b: BindingId): Flow {
    if b in f.facts then f.(facts := f.facts[b := f.facts[b].(typ := NO_TYPE)]) else f
  }

  /** Whether `TrackFreed` mints. */
  predicate TrackMints(f: Flow, b: BindingId) {
    b != 0 && b !in f.tracked
  }

  function TrackFreed(f: Flow, b: BindingId, next: AllocationId): Flow {
    if !TrackMints(f, b) then f
    else Flow(if b in f.facts then f.facts else f.facts[b := BLANK],
              f.tracked + {b}, f.allocation[b := next + 1], f.freed)
  }

  function DropFreed(f: Flow, b: BindingId): Flow {
    f.(tracked := f.tracked - {b}, allocation := f.allocation - {b})
  }

  function AliasFreed(f: Flow, source: BindingId, target: BindingId): Flow {
    var a := TrackedAllocation(f, source);
    if source == 0 || target == 0 || a == 0 then f
    else f.(tracked := f.tracked + {target}, allocation := f.allocation[target := a])
  }

  function ClearFreed(f: Flow, b: BindingId, next: AllocationId): Flow {
    if b in f.tracked then f.(allocation := f.allocation[b := next + 1]) else f
  }

  function MarkFreed(f: Flow, b: BindingId): Flow {
    var a := TrackedAllocation(f, b);
    if a == 0 then f else f.(freed := f.freed + {a})
  }

  function MarkFreedAlloc(f: Flow, a: AllocationId): Flow {
    if a == 0 then f else f.(freed := f.freed + {a})
  }

  function Escape(f: Flow, b: BindingId): Flow {
    DropFreed(f, b).(facts := f.facts[b := Fact(NO_TYPE, true)])
  }

  function EscapeAll(f: Flow, bs: seq<BindingId>): Flow
    decreases |bs|
  {
    if bs == [] then f else EscapeAll(Escape(f, bs[0]), bs[1..])
  }

  // ----- the n-way join -----

  predicate SomeEscapes(branches: seq<Flow>, b: BindingId) {
    exists i | 0 <= i < |branches| :: Escaped(branches[i], b)
  }

  /** Some branch holds a fact about b whose type is not t. */
  predicate SomeDiffers(branches: seq<Flow>, b: BindingId, t: Type) {
    exists i | 0 <= i < |branches| :: b in branches[i].facts && branches[i].facts[b].typ != t
  }

  /** Every branch still tracks b, unescaped, under the identity a. */
  predicate Agreed(branches: seq<Flow>, b: BindingId, a: AllocationId) {
    forall i | 0 <= i < |branches| ::
      && TrackedAllocation(branches[i], b) == a
      && b in branches[i].facts
      && !branches[i].facts[b].escaped
  }

  /** The identity b keeps after the join, or zero. */
  function CommonAllocation(branches: seq<Flow>, b: BindingId): AllocationId {
    if |branches| == 0 then 0
    else
      var a := TrackedAllocation(branches[0], b);
      if Agreed(branches, b, a) then a else 0
  }

  function MergedFact(parent: Flow, branches: seq<Flow>, b: BindingId): Fact
    requires b in parent.facts || SomeEscapes(branches, b)
  {
    if SomeEscapes(branches, b) then Fact(NO_TYPE, true)
    else if SomeDiffers(branches, b, parent.facts[b].typ) then parent.facts[b].(typ := NO_TYPE)
    else parent.facts[b]
  }

  function EscapedKeys(branches: seq<Flow>): (keys: set<BindingId>)
    ensures forall b :: b in keys <==> SomeEscapes(branches, b)
  {
    set i, b | 0 <= i < |branches| && b in branches[i].facts && branches[i].facts[b].escaped :: b
  }

  function FreedInAll(branches: seq<Flow>): (freed: set<AllocationId>)
    requires |branches| > 0
    ensures forall a :: a in freed <==> forall i | 0 <= i < |branches| :: a in branches[i].freed
  {
    set a | a in branches[0].freed && forall i | 0 <= i < |branches| :: a in branches[i].freed
  }

  /** The slots that keep an identity: those the parent tracks and the branches agree on.
      An identity mapping of an untracked slot survives unless the slot escaped. */
  function Merge(parent: Flow, branches: seq<Flow>): Flow {
    if |branches| == 0 then parent
    else
      Flow(map b | b in parent.facts.Keys + EscapedKeys(branches) :: MergedFact(parent, branches, b),
           set b | b in parent.tracked && CommonAllocation(branches, b) != 0,
           map b | b in parent.allocation.Keys + parent.tracked &&
                   (if b in parent.tracked then CommonAllocation(branches, b) != 0
                    else !SomeEscapes(branches, b)) ::
             if b in parent.tracked then CommonAllocation(branches, b) else parent.allocation[b],
           FreedInAll(branches))
  }
}
