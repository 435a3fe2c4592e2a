/** The mutable fact table. Every clone of one function's state shares one mint counter, so
    branch-local identities stay globally unique; everything else is branch-local. */
module FlowState {
  import opened Syntax
  import opened FlowFacts

  class Counter {
    var value: AllocationId

    constructor ()
      ensures value == 0
    {
      value := 0;
    }
  }

  class FlowState {
    var facts: map<BindingId, Fact>
    var tracked: set<BindingId>
    var allocation: map<BindingId, AllocationId>
    var freedAlloc: set<AllocationId>
    var nextAlloc: Counter

    function View(): Flow
      reads this
    {
      Flow(facts, tracked, allocation, freedAlloc)
    }

    constructor ()
      ensures View() == EMPTY_FLOW && fresh(nextAlloc) && nextAlloc.value == 0
    {
      facts, tracked, allocation, freedAlloc := map[], {}, map[], {};
      nextAlloc := new Counter();
    }

    constructor Copy(source: FlowState)
      ensures View() == source.View() && nextAlloc == source.nextAlloc
    {
      facts, tracked := source.facts, source.tracked;
      allocation, freedAlloc := source.allocation, source.freedAlloc;
      nextAlloc := source.nextAlloc;
    }

    /** Puts a recorded snapshot back into a state of its own. */
    method Restore(snapshot: Flow)
      modifies this
      ensures View() == snapshot && nextAlloc == old(nextAlloc)
    {
      facts, tracked := snapshot.facts, snapshot.tracked;
      allocation, freedAlloc := snapshot.allocation, snapshot.freed;
    }

    method Clone() returns (cloned: FlowState)
      ensures fresh(cloned) && cloned.View() == View() && cloned.nextAlloc == nextAlloc
    {
      cloned := new FlowState.Copy(this);
    }

    method GetNarrowedType(id: BindingId) returns (typ: Type, known: bool)
      ensures typ == NarrowedType(View(), id) && known == (typ != NO_TYPE)
    {
      if id !in facts || facts[id].escaped {
        return NO_TYPE, false;
      }
      typ := facts[id].typ;
      known := typ != NO_TYPE;
    }

    method SetNarrowed(id: BindingId, typ: Type)
      modifies this
      ensures View() == Narrow(old(View()), id, typ) && nextAlloc == old(nextAlloc)
    {
      if id in facts && facts[id].escaped {
        return;
      }
      facts := facts[id := Fact(typ, false)];
    }

    method Invalidate(id: BindingId)
      modifies this
      ensures View() == InvalidateNarrowing(old(View()), id) && nextAlloc == old(nextAlloc)
    {
      if id in facts {
        facts := facts[id := facts[id].(typ := NO_TYPE)];
      }
    }

    method MintAllocationId() returns (a: AllocationId)
      modifies nextAlloc
      ensures a == nextAlloc.value == old(nextAlloc.value) + 1
    {
      nextAlloc.value := nextAlloc.value + 1;
      a := nextAlloc.value;
    }

    method Track(id: BindingId)
      modifies this, nextAlloc
      ensures View() == TrackFreed(old(View()), id, old(nextAlloc.value))
      ensures nextAlloc == old(nextAlloc)
      ensures nextAlloc.value == old(nextAlloc.value) + (if TrackMints(old(View()), id) then 1 else 0)
    {
      if id == 0 || id in tracked {
        return;
      }
      tracked := tracked + {id};
      var a := MintAllocationId();
      allocation := allocation[id := a];
      if id !in facts {
        facts := facts[id := BLANK];
      }
    }

    method Drop(id: BindingId)
      modifies this
      ensures View() == DropFreed(old(View()), id) && nextAlloc == old(nextAlloc)
    {
      tracked := tracked - {id};
      allocation := allocation - {id};
    }

    method IsFreed(id: BindingId) returns (known: bool)
      ensures known == Freed(View(), id)
    {
      if id !in tracked || id !in allocation || allocation[id] == 0 {
        return false;
      }
      known := allocation[id] in freedAlloc;
    }

    method Alias(source: BindingId, target: BindingId)
      modifies this
      ensures View() == AliasFreed(old(View()), source, target) && nextAlloc == old(nextAlloc)
    {
      if source == 0 || target == 0 || source !in tracked {
        return;
      }
      if source !in allocation || allocation[source] == 0 {
        return;
      }
      var a := allocation[source];
      tracked := tracked + {target};
      allocation := allocation[target := a];
    }

    method Clear(id: BindingId)
      modifies this, nextAlloc
      ensures View() == ClearFreed(old(View()), id, old(nextAlloc.value))
      ensures nextAlloc == old(nextAlloc)
      ensures nextAlloc.value == old(nextAlloc.value) + (if id in old(tracked) then 1 else 0)
    {
      if id !in tracked {
        return;
      }
      var a := MintAllocationId();
      allocation := allocation[id := a];
    }

    method Mark(id: BindingId)
      modifies this
      ensures View() == MarkFreed(old(View()), id) && nextAlloc == old(nextAlloc)
    {
      if id !in tracked || id !in allocation || allocation[id] == 0 {
        return;
      }
      freedAlloc := freedAlloc + {allocation[id]};
    }

    method MarkAlloc(a: AllocationId)
      modifies this
      ensures View() == MarkFreedAlloc(old(View()), a) && nextAlloc == old(nextAlloc)
    {
      if a == 0 {
        return;
      }
      freedAlloc := freedAlloc + {a};
    }

    method EscapeBinding(id: BindingId)
      modifies this
      ensures View() == Escape(old(View()), id) && nextAlloc == old(nextAlloc)
    {
      Drop(id);
      facts := facts[id := Fact(NO_TYPE, true)];
    }

    method Adopt(branch: FlowState)
      modifies this
      ensures View() == old(branch.View()) && nextAlloc == old(branch.nextAlloc)
    {
      facts, tracked := branch.facts, branch.tracked;
      allocation, freedAlloc := branch.allocation, branch.freedAlloc;
      nextAlloc := branch.nextAlloc;
    }

    /** Joins the continuing branches into the state they were cloned from. The maps are
        walked in whatever order the picks come out; the result does not depend on it. */
    method MergeBranches(branches: seq<FlowState>)
      requires this !in branches
      modifies this
      ensures View() == Merge(old(View()), Views(branches)) && nextAlloc == old(nextAlloc)
    {
      if |branches| == 0 {
        return;
      }
      ghost var parent := View();
      ghost var views := Views(branches);
      var parentTracked := tracked;
      MergeFacts(facts, branches);
      ghost var absorbed := View();
      MergeTracked(parentTracked, branches);
      MergeFreed(branches);
      assert absorbed == AbsorbAll(parent, views);
      MergedFacts(parent, views);
      MergedAllocation(parent, views, allocation);
      MergedTracked(parent, views, tracked);
    }

    /** First pass: escapes are sticky and a disagreeing narrowing is dropped. */
    method MergeFacts(parentFacts: map<BindingId, Fact>, branches: seq<FlowState>)
      requires this !in branches && facts == parentFacts
      modifies this
      ensures nextAlloc == old(nextAlloc)
      ensures View() == AbsorbAll(old(View()), Views(branches))
    {
      ghost var parent := View();
      ghost var views := Views(branches);
      for i := 0 to |branches|
        invariant nextAlloc == old(nextAlloc)
        invariant Views(branches) == views
        invariant View() == AbsorbAll(parent, views[..i])
      {
        assert views[..i + 1][..i] == views[..i] && branches[i].View() == views[i];
        forall b { AbsorbAllAt(parent, views[..i], b); }
        MergeBranchFacts(parentFacts, branches[i]);
      }
      assert views[..|branches|] == views;
    }

    method MergeBranchFacts(parentFacts: map<BindingId, Fact>, branch: FlowState)
      requires this != branch && parentFacts.Keys <= facts.Keys
      modifies this
      ensures nextAlloc == old(nextAlloc)
      ensures View() == Absorb(old(View()), parentFacts, old(branch.View()))
    {
      var todo := branch.facts.Keys;
      ghost var f := View();
      ghost var g := branch.View();
      ghost var done: set<BindingId> := {};
      while todo != {}
        invariant nextAlloc == old(nextAlloc) && freedAlloc == f.freed && branch.View() == g
        invariant done + todo == g.facts.Keys && done !! todo
        invariant forall b :: b in facts <==> b in f.facts || (b in done && g.facts[b].escaped)
        invariant forall b :: b in facts ==>
          facts[b] == if b in done then AbsorbedFact(f, parentFacts, g, b) else f.facts[b]
        invariant forall b :: b in tracked <==> b in f.tracked && !(b in done && g.facts[b].escaped)
        invariant forall b :: b in allocation <==> b in f.allocation && !(b in done && g.facts[b].escaped)
        invariant forall b :: b in allocation ==> allocation[b] == f.allocation[b]
        decreases todo
      {
        var id :| id in todo;
        var fact := branch.facts[id];
        if fact.escaped {
          EscapeBinding(id);
        } else if id in parentFacts && parentFacts[id].typ != fact.typ {
          facts := facts[id := facts[id].(typ := NO_TYPE)];
        }
        todo := todo - {id};
        done := done + {id};
      }
      AbsorbIs(f, parentFacts, g, View());
    }

    /** Second pass: a slot keeps its mapping only when every branch names the same identity. */
    method MergeTracked(parentTracked: set<BindingId>, branches: seq<FlowState>)
      requires this !in branches && |branches| > 0
      modifies this
      ensures nextAlloc == old(nextAlloc) && freedAlloc == old(freedAlloc) && facts == old(facts)
      ensures forall b :: b in tracked <==>
        if b in parentTracked then CommonAllocation(Views(branches), b) != 0 else b in old(tracked)
      ensures forall b :: b in allocation <==>
        if b in parentTracked then CommonAllocation(Views(branches), b) != 0 else b in old(allocation)
      ensures forall b :: b in allocation ==>
        allocation[b] == if b in parentTracked then CommonAllocation(Views(branches), b) else old(allocation)[b]
    {
      var todo := parentTracked;
      ghost var views := Views(branches);
      ghost var done: set<BindingId> := {};
      while todo != {}
        invariant nextAlloc == old(nextAlloc) && freedAlloc == old(freedAlloc) && facts == old(facts)
        invariant Views(branches) == views
        invariant done + todo == parentTracked && done !! todo
        invariant forall b :: b in tracked <==>
          if b in done then CommonAllocation(views, b) != 0 else b in old(tracked)
        invariant forall b :: b in allocation <==>
          if b in done then CommonAllocation(views, b) != 0 else b in old(allocation)
        invariant forall b :: b in allocation ==>
          allocation[b] == if b in done then CommonAllocation(views, b) else old(allocation)[b]
        decreases todo
      {
        var id :| id in todo;
        var common := AgreedAllocation(branches, id);
        if common == 0 {
          Drop(id);
        } else {
          tracked := tracked + {id};
          allocation := allocation[id := common];
        }
        todo := todo - {id};
        done := done + {id};
      }
    }

    /** Third pass: an identity stays released only when every branch proves it. */
    method MergeFreed(branches: seq<FlowState>)
      requires this !in branches && |branches| > 0
      modifies this`freedAlloc
      ensures freedAlloc == FreedInAll(Views(branches))
    {
      ghost var views := Views(branches);
      var merged := branches[0].freedAlloc;
      assert branches[0].freedAlloc == views[0].freed;
      for i := 1 to |branches|
        invariant forall a :: a in merged <==> forall j | 0 <= j < i :: a in views[j].freed
      {
        assert branches[i].freedAlloc == views[i].freed;
        merged := merged * branches[i].freedAlloc;
      }
      freedAlloc := merged;
    }
  }

  method AgreedAllocation(branches: seq<FlowState>, id: BindingId) returns (common: AllocationId)
    requires |branches| > 0
    ensures common == CommonAllocation(Views(branches), id)
  {
    ghost var views := Views(branches);
    var allTracked, sameAlloc, first := true, true, true;
    common := 0;
    for i := 0 to |branches|
      invariant allTracked
      invariant first <==> i == 0
      invariant i > 0 ==> common == TrackedAllocation(views[0], id) != 0
      invariant sameAlloc <==> forall j | 0 <= j < i :: TrackedAllocation(views[j], id) == common
      invariant forall j | 0 <= j < i :: id in views[j].facts && !views[j].facts[id].escaped
    {
      var branch := branches[i];
      assert branch.View() == views[i];
      if id !in branch.tracked || id !in branch.facts || branch.facts[id].escaped
        || id !in branch.allocation || branch.allocation[id] == 0
      {
        assert !Agreed(views, id, TrackedAllocation(views[0], id)) || TrackedAllocation(views[0], id) == 0;
        return 0;
      }
      var alloc := branch.allocation[id];
      if first {
        common := alloc;
        first := false;
      } else if alloc != common {
        sameAlloc := false;
      }
    }
    if !sameAlloc {
      return 0;
    }
  }

  ghost function Views(states: seq<FlowState>): (views: seq<Flow>)
    reads states
    ensures |views| == |states|
  {
    seq(|states|, i requires 0 <= i < |states| reads states => states[i].View())
  }

  /** What one branch's fact about b leaves of the fact held so far. */
  function AbsorbedFact(f: Flow, parentFacts: map<BindingId, Fact>, branch: Flow, b: BindingId): Fact
    requires b in f.facts || Escaped(branch, b)
  {
    if Escaped(branch, b) then Fact(NO_TYPE, true)
    else if b in branch.facts && b in parentFacts && parentFacts[b].typ != branch.facts[b].typ
    then f.facts[b].(typ := NO_TYPE)
    else f.facts[b]
  }

  function EscapedIn(f: Flow): set<BindingId> {
    set b | b in f.facts && f.facts[b].escaped
  }

  function Absorb(f: Flow, parentFacts: map<BindingId, Fact>, branch: Flow): Flow {
    var gone := EscapedIn(branch);
    Flow(map b | b in f.facts.Keys + gone :: AbsorbedFact(f, parentFacts, branch, b),
         f.tracked - gone, f.allocation - gone, f.freed)
  }

  lemma AbsorbIs(f: Flow, parentFacts: map<BindingId, Fact>, g: Flow, r: Flow)
    requires forall b :: b in r.facts <==> b in f.facts || (b in g.facts && g.facts[b].escaped)
    requires forall b :: b in r.facts ==>
      r.facts[b] == if b in g.facts then AbsorbedFact(f, parentFacts, g, b) else f.facts[b]
    requires forall b :: b in r.tracked <==> b in f.tracked && !(b in g.facts && g.facts[b].escaped)
    requires forall b :: b in r.allocation <==> b in f.allocation && !(b in g.facts && g.facts[b].escaped)
    requires forall b :: b in r.allocation ==> r.allocation[b] == f.allocation[b]
    requires r.freed == f.freed
    ensures r == Absorb(f, parentFacts, g)
  {
    assert r.facts == Absorb(f, parentFacts, g).facts;
    assert r.tracked == Absorb(f, parentFacts, g).tracked;
    assert r.allocation == Absorb(f, parentFacts, g).allocation;
  }

  function AbsorbAll(parent: Flow, branches: seq<Flow>): Flow {
    if branches == [] then parent
    else Absorb(AbsorbAll(parent, branches[..|branches| - 1]), parent.facts, branches[|branches| - 1])
  }

  lemma EscapesLast(branches: seq<Flow>, b: BindingId)
    requires branches != []
    ensures SomeEscapes(branches, b) <==>
      SomeEscapes(branches[..|branches| - 1], b) || Escaped(branches[|branches| - 1], b)
  {
    var init := branches[..|branches| - 1];
    if SomeEscapes(init, b) {
      var j :| 0 <= j < |init| && Escaped(init[j], b);
      assert Escaped(branches[j], b);
    }
    if SomeEscapes(branches, b) && !Escaped(branches[|branches| - 1], b) {
      var j :| 0 <= j < |branches| && Escaped(branches[j], b);
      assert Escaped(init[j], b);
    }
  }

  lemma DiffersLast(branches: seq<Flow>, b: BindingId, t: Type)
    requires branches != []
    ensures SomeDiffers(branches, b, t) <==>
      SomeDiffers(branches[..|branches| - 1], b, t) || SomeDiffers([branches[|branches| - 1]], b, t)
  {
    var init, last := branches[..|branches| - 1], [branches[|branches| - 1]];
    if SomeDiffers(branches, b, t) {
      var j :| 0 <= j < |branches| && b in branches[j].facts && branches[j].facts[b].typ != t;
      assert j < |init| ==> init[j] == branches[j];
      assert j == |init| ==> last[0] == branches[j];
    }
    if SomeDiffers(init, b, t) {
      var j :| 0 <= j < |init| && b in init[j].facts && init[j].facts[b].typ != t;
      assert branches[j] == init[j];
    }
    if SomeDiffers(last, b, t) {
      assert branches[|branches| - 1] == last[0];
    }
  }

  /** Absorbing branch by branch computes the joined fact and drops what escaped. */
  lemma {:induction false} AbsorbAllAt(parent: Flow, branches: seq<Flow>, b: BindingId)
    ensures var f := AbsorbAll(parent, branches);
      && (b in f.facts <==> b in parent.facts || SomeEscapes(branches, b))
      && (b in f.facts ==> f.facts[b] == MergedFact(parent, branches, b))
      && (b in f.tracked <==> b in parent.tracked && !SomeEscapes(branches, b))
      && (b in f.allocation <==> b in parent.allocation && !SomeEscapes(branches, b))
      && (b in f.allocation ==> f.allocation[b] == parent.allocation[b])
  {
    if branches != [] {
      var init, last := branches[..|branches| - 1], branches[|branches| - 1];
      AbsorbAllAt(parent, init, b);
      EscapesLast(branches, b);
      if b in parent.facts {
        DiffersLast(branches, b, parent.facts[b].typ);
        assert SomeDiffers([last], b, parent.facts[b].typ) <==>
          b in [last][0].facts && [last][0].facts[b].typ != parent.facts[b].typ;
      }
    }
  }

  lemma MergedFacts(parent: Flow, branches: seq<Flow>)
    requires |branches| > 0
    ensures AbsorbAll(parent, branches).facts == Merge(parent, branches).facts
  {
    var absorbed, merged := AbsorbAll(parent, branches).facts, Merge(parent, branches).facts;
    forall b
      ensures b in absorbed <==> b in merged
      ensures b in absorbed ==> absorbed[b] == merged[b]
    {
      AbsorbAllAt(parent, branches, b);
    }
  }

  lemma MergedAllocation(parent: Flow, branches: seq<Flow>, allocation: map<BindingId, AllocationId>)
    requires |branches| > 0
    requires forall b :: b in allocation <==>
      if b in parent.tracked then CommonAllocation(branches, b) != 0
      else b in AbsorbAll(parent, branches).allocation
    requires forall b :: b in allocation ==>
      allocation[b] == if b in parent.tracked then CommonAllocation(branches, b)
                       else AbsorbAll(parent, branches).allocation[b]
    ensures allocation == Merge(parent, branches).allocation
  {
    var merged := Merge(parent, branches).allocation;
    forall b
      ensures b in allocation <==> b in merged
      ensures b in allocation ==> allocation[b] == merged[b]
    {
      AbsorbAllAt(parent, branches, b);
    }
  }

  lemma MergedTracked(parent: Flow, branches: seq<Flow>, tracked: set<BindingId>)
    requires |branches| > 0
    requires forall b :: b in tracked <==>
      if b in parent.tracked then CommonAllocation(branches, b) != 0
      else b in AbsorbAll(parent, branches).tracked
    ensures tracked == Merge(parent, branches).tracked
  {
    forall b
      ensures b in tracked <==> b in Merge(parent, branches).tracked
    {
      AbsorbAllAt(parent, branches, b);
    }
  }
}
