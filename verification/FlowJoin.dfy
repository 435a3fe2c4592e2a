/** What the n-way join keeps, exactly, and that neither the order of the branches nor their
    repetition matters. */
module FlowJoin {
  import opened Syntax
  import opened FlowFacts
  import opened FlowAnalysis
  import opened FlowClaims

  /** Branch f still tracks b, unescaped, as the identity a. */
  predicate TracksAs(f: Flow, b: BindingId, a: AllocationId) {
    && b in f.tracked && b in f.allocation && f.allocation[b] == a
    && b in f.facts && !f.facts[b].escaped
  }

  /** A slot stays tracked exactly when the parent tracked it and every branch tracks it under
      one common identity; an identity stays released exactly when every branch released it. */
  lemma JoinExact(parent: Flow, branches: seq<Flow>, b: BindingId, a: AllocationId)
    requires |branches| > 0 && a != 0
    ensures var joined := Merge(parent, branches);
      && (TrackedAllocation(joined, b) == a <==>
            b in parent.tracked && forall i | 0 <= i < |branches| :: TracksAs(branches[i], b, a))
      && (b in joined.tracked ==> TrackedAllocation(joined, b) != 0)
      && (a in joined.freed <==> forall i | 0 <= i < |branches| :: a in branches[i].freed)
  {
    var joined := Merge(parent, branches);
    if b in parent.tracked && forall i | 0 <= i < |branches| :: TracksAs(branches[i], b, a) {
      assert TracksAs(branches[0], b, a);
      forall i | 0 <= i < |branches| ensures TrackedAllocation(branches[i], b) == a {
        assert TracksAs(branches[i], b, a);
      }
      assert Agreed(branches, b, a);
    }
    if TrackedAllocation(joined, b) == a {
      assert Agreed(branches, b, a);
      forall i | 0 <= i < |branches| ensures TracksAs(branches[i], b, a) {
        assert TrackedAllocation(branches[i], b) == a;
      }
    }
  }

  ghost predicate SameBranches(left: seq<Flow>, right: seq<Flow>) {
    forall f :: f in left <==> f in right
  }

  lemma SameEscapes(left: seq<Flow>, right: seq<Flow>, b: BindingId)
    requires SameBranches(left, right) && SomeEscapes(left, b)
    ensures SomeEscapes(right, b)
  {
    var i :| 0 <= i < |left| && Escaped(left[i], b);
    assert left[i] in right;
    var j :| 0 <= j < |right| && right[j] == left[i];
    assert Escaped(right[j], b);
  }

  lemma SameDiffers(left: seq<Flow>, right: seq<Flow>, b: BindingId, t: Type)
    requires SameBranches(left, right) && SomeDiffers(left, b, t)
    ensures SomeDiffers(right, b, t)
  {
    var i :| 0 <= i < |left| && b in left[i].facts && left[i].facts[b].typ != t;
    assert left[i] in right;
    var j :| 0 <= j < |right| && right[j] == left[i];
    assert b in right[j].facts;
  }

  lemma SameCommon(left: seq<Flow>, right: seq<Flow>, b: BindingId)
    requires SameBranches(left, right) && |left| > 0 && |right| > 0 && CommonAllocation(left, b) != 0
    ensures CommonAllocation(right, b) == CommonAllocation(left, b)
  {
    var a := CommonAllocation(left, b);
    forall j | 0 <= j < |right|
      ensures TrackedAllocation(right[j], b) == a && b in right[j].facts && !right[j].facts[b].escaped
    {
      assert right[j] in left;
      var i :| 0 <= i < |left| && left[i] == right[j];
      assert TrackedAllocation(left[i], b) == a;
    }
    assert TrackedAllocation(right[0], b) == a;
    assert Agreed(right, b, a);
  }

  /** Permuting, or repeating, the branches changes nothing. */
  lemma JoinIsOrderFree(parent: Flow, left: seq<Flow>, right: seq<Flow>)
    requires SameBranches(left, right)
    ensures Merge(parent, left) == Merge(parent, right)
  {
    assert |right| > 0 ==> right[0] in left;
    if left == [] {
      return;
    }
    assert left[0] in right;
    var l, r := Merge(parent, left), Merge(parent, right);
    forall b
      ensures SomeEscapes(left, b) == SomeEscapes(right, b)
      ensures CommonAllocation(left, b) == CommonAllocation(right, b)
      ensures b in parent.facts ==>
        SomeDiffers(left, b, parent.facts[b].typ) == SomeDiffers(right, b, parent.facts[b].typ)
    {
      if SomeEscapes(left, b) { SameEscapes(left, right, b); }
      if SomeEscapes(right, b) { SameEscapes(right, left, b); }
      if CommonAllocation(left, b) != 0 { SameCommon(left, right, b); }
      if CommonAllocation(right, b) != 0 { SameCommon(right, left, b); }
      if b in parent.facts {
        var t := parent.facts[b].typ;
        if SomeDiffers(left, b, t) { SameDiffers(left, right, b, t); }
        if SomeDiffers(right, b, t) { SameDiffers(right, left, b, t); }
      }
    }
    SameParts(parent, left, right);
  }

  lemma SameParts(parent: Flow, left: seq<Flow>, right: seq<Flow>)
    requires |left| > 0 && |right| > 0 && SameBranches(left, right)
    requires forall b :: SomeEscapes(left, b) == SomeEscapes(right, b)
    requires forall b :: CommonAllocation(left, b) == CommonAllocation(right, b)
    requires forall b | b in parent.facts ::
      SomeDiffers(left, b, parent.facts[b].typ) == SomeDiffers(right, b, parent.facts[b].typ)
    ensures Merge(parent, left) == Merge(parent, right)
  {
    SameFacts(parent, left, right);
    SameTracking(parent, left, right);
    SameFreed(left, right);
    SameFreed(right, left);
    assert FreedInAll(left) == FreedInAll(right);
  }

  lemma SameFacts(parent: Flow, left: seq<Flow>, right: seq<Flow>)
    requires |left| > 0 && |right| > 0
    requires forall b :: SomeEscapes(left, b) == SomeEscapes(right, b)
    requires forall b | b in parent.facts ::
      SomeDiffers(left, b, parent.facts[b].typ) == SomeDiffers(right, b, parent.facts[b].typ)
    ensures Merge(parent, left).facts == Merge(parent, right).facts
  {
    assert EscapedKeys(left) == EscapedKeys(right);
  }

  lemma SameTracking(parent: Flow, left: seq<Flow>, right: seq<Flow>)
    requires |left| > 0 && |right| > 0
    requires forall b :: SomeEscapes(left, b) == SomeEscapes(right, b)
    requires forall b :: CommonAllocation(left, b) == CommonAllocation(right, b)
    ensures Merge(parent, left).tracked == Merge(parent, right).tracked
    ensures Merge(parent, left).allocation == Merge(parent, right).allocation
  {
    var l, r := Merge(parent, left).allocation, Merge(parent, right).allocation;
    assert l.Keys == r.Keys;
    assert forall b | b in l :: l[b] == r[b];
  }

  lemma SameFreed(left: seq<Flow>, right: seq<Flow>)
    requires |left| > 0 && |right| > 0 && SameBranches(left, right)
    ensures FreedInAll(left) <= FreedInAll(right)
  {
    forall a, j | a in FreedInAll(left) && 0 <= j < |right| ensures a in right[j].freed {
      assert right[j] in left;
    }
  }

  // ----- deferred releases captured at registration -----

  predicate AllCaptured(actions: seq<Action>) {
    forall i | 0 <= i < |actions| :: actions[i].captured != 0
  }

  function CapturedSet(actions: seq<Action>): set<AllocationId> {
    set i | 0 <= i < |actions| :: actions[i].captured
  }

  /** Captured releases end with every captured identity released and nothing else changed. */
  lemma {:induction false} CapturedExitReleasesAll(actions: seq<Action>, f: Flow)
    requires AllCaptured(actions)
    ensures Validate(actions, f).flow == f.(freed := f.freed + CapturedSet(actions))
    decreases |actions|
  {
    if actions != [] {
      var last := |actions| - 1;
      var g := ValidateOne(actions[last], f).flow;
      CapturedExitReleasesAll(actions[..last], g);
      assert g == f.(freed := f.freed + {actions[last].captured});
      forall a ensures a in CapturedSet(actions) <==> a in CapturedSet(actions[..last]) || a == actions[last].captured {
        if a in CapturedSet(actions) && a != actions[last].captured {
          var i :| 0 <= i < |actions| && actions[i].captured == a;
          assert actions[..last][i].captured == a;
        }
        if a in CapturedSet(actions[..last]) {
          var i :| 0 <= i < last && actions[..last][i].captured == a;
          assert actions[i].captured == a;
        }
      }
      assert g.freed + CapturedSet(actions[..last]) == f.freed + CapturedSet(actions);
    } else {
      assert f.freed + CapturedSet(actions) == f.freed;
    }
  }

  /** An action is reported exactly when the identity it captured is already released, or was
      captured again by an action registered later. */
  lemma CapturedReportedExactly(actions: seq<Action>, f: Flow, k: nat)
    requires AllCaptured(actions) && k < |actions|
    ensures Reported(actions, f, k) <==>
      actions[k].captured in f.freed ||
      exists j | k < j < |actions| :: actions[j].captured == actions[k].captured
  {
    var later := actions[k + 1..];
    CapturedExitReleasesAll(later, f);
    var a := actions[k].captured;
    if a in CapturedSet(later) {
      var i :| 0 <= i < |later| && later[i].captured == a;
      assert actions[k + 1 + i].captured == a;
    }
    if j :| k < j < |actions| && actions[j].captured == a {
      assert later[j - k - 1].captured == a;
    }
  }

  /** Rebinding, dropping or escaping any slot after registration changes no verdict. */
  lemma CapturedSurvivesRebinding(actions: seq<Action>, f: Flow, g: Flow, k: nat)
    requires AllCaptured(actions) && k < |actions| && f.freed == g.freed
    ensures Reported(actions, f, k) == Reported(actions, g, k)
    ensures Validate(actions, f).flow.freed == Validate(actions, g).flow.freed
  {
    CapturedReportedExactly(actions, f, k);
    CapturedReportedExactly(actions, g, k);
    CapturedExitReleasesAll(actions, f);
    CapturedExitReleasesAll(actions, g);
  }

  /** The verdict on a release survives every rebinding exactly when an identity was captured:
      an uncaptured one looks up whatever its binding names at the exit. */
  lemma OnlyCapturedSurvivesRebinding(action: Action)
    ensures action.captured != 0 <==>
      forall f: Flow, g: Flow | f.freed == g.freed :: ValidateOne(action, f).failed == ValidateOne(action, g).failed
  {
    if action.captured == 0 {
      var f := Flow(map[], {}, map[], {1});
      var g := Flow(map[], {action.binding}, map[action.binding := 1], {1});
      assert ValidateOne(action, f).failed != ValidateOne(action, g).failed;
    }
  }
}
