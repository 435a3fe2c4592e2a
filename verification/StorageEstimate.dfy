/** The storage estimate behind inline List budgets, in 64-bit arithmetic and exactly. */
module StorageEstimate {
  import opened Finite

  const MAX := 0xFFFF_FFFF_FFFF_FFFF
  const BUDGET := 65536

  type Word = x: nat | x <= MAX
  type Capacity = x: int | 0 < x <= MAX witness 1
  type Width = x: nat | x <= 64

  /** A resolved type, as far as the estimate looks. `Handle` is any owning handle, `Pointer` a
      pointer, function or nullable form of either, and `Unknown` every kind without a rule. */
  datatype Type =
    | Scalar(bits: Width)
    | EoS
    | Nil
    | Pointer
    | Slice
    | InlineString(capacity: Capacity)
    | InlineList(element: Type, length: Capacity)
    | Handle
    | Object(key: string)
    | Adt(key: string)
    | Union(key: string, members: seq<Type>)
    | Unknown

  /** The members of every complete object and the payloads of every ADT. */
  datatype World = World(objects: map<string, seq<Type>>, adts: map<string, seq<seq<Type>>>)

  // ----- the formula -----

  function Max(a: nat, b: nat): nat {
    if a < b then b else a
  }

  function RoundedUp(n: nat): nat {
    (n + 15) / 16 * 16
  }

  function Add(a: Option<nat>, b: Option<nat>): Option<nat> {
    if a.Some? && b.Some? then Some(a.value + b.value) else None
  }

  function Larger(a: Option<nat>, b: Option<nat>): Option<nat> {
    if a.Some? && b.Some? then Some(Max(a.value, b.value)) else None
  }

  ghost function Keys(w: World): set<string> {
    w.objects.Keys + w.adts.Keys
  }

  /** The estimate over unbounded integers; none for an incomplete, recursive or unknown type. */
  function Formula(w: World, t: Type, on: set<string>): Option<nat>
    decreases Keys(w) - on, 0, t
  {
    match t
    case Scalar(bits) => Some(Max(1, (bits + 7) / 8))
    case EoS => Some(1)
    case Nil => Some(8)
    case Pointer => Some(8)
    case Slice => Some(16)
    case InlineString(capacity) => Some(8 + capacity)
    case InlineList(element, length) =>
      var size := Formula(w, element, on);
      if size.Some? then Some(16 + length * size.value) else None
    case Handle => Some(32)
    case Object(key) =>
      if key !in w.objects || key in on then None
      else Rounded(Total(w, w.objects[key], 16, on + {key}))
    case Adt(key) =>
      if key !in w.adts || key == "" || key in on then None
      else Rounded(Add(Some(16), LargestPayload(w, w.adts[key], on + {key})))
    case Union(key, members) =>
      if key == "" || key in on then None
      else Rounded(Add(Some(16), Largest(w, members, on + {key})))
    case Unknown => None
  }

  function Rounded(n: Option<nat>): Option<nat> {
    if n.Some? then Some(RoundedUp(n.value)) else None
  }

  /** The members' sizes, each with some padding. */
  function Total(w: World, ts: seq<Type>, padding: nat, on: set<string>): Option<nat>
    decreases Keys(w) - on, 0, ts
  {
    if ts == [] then Some(0)
    else Add(Total(w, ts[..|ts| - 1], padding, on), Add(Formula(w, ts[|ts| - 1], on), Some(padding)))
  }

  function Largest(w: World, ts: seq<Type>, on: set<string>): Option<nat>
    decreases Keys(w) - on, 0, ts
  {
    if ts == [] then Some(0) else Larger(Largest(w, ts[..|ts| - 1], on), Formula(w, ts[|ts| - 1], on))
  }

  function LargestPayload(w: World, payloads: seq<seq<Type>>, on: set<string>): Option<nat>
    decreases Keys(w) - on, 1, |payloads|
  {
    if payloads == [] then Some(0)
    else Larger(LargestPayload(w, payloads[..|payloads| - 1], on), Total(w, payloads[|payloads| - 1], 0, on))
  }

  // ----- what the parts of the formula are -----

  /** The least multiple of 16 that is not less. */
  lemma RoundedUpExactly(n: nat)
    ensures RoundedUp(n) % 16 == 0 && n <= RoundedUp(n) < n + 16
  {
  }

  function Sum(sizes: seq<nat>): nat {
    if sizes == [] then 0 else sizes[0] + Sum(sizes[1..])
  }

  lemma {:induction false} SumSnoc(sizes: seq<nat>)
    requires sizes != []
    ensures Sum(sizes) == Sum(sizes[..|sizes| - 1]) + sizes[|sizes| - 1]
  {
    if |sizes| > 1 {
      SumSnoc(sizes[1..]);
      assert sizes[1..][..|sizes| - 2] == sizes[..|sizes| - 1][1..];
    }
  }

  /** The total is there when every member's size is, and is their sum and the padding of each. */
  lemma {:induction false} TotalExactly(w: World, ts: seq<Type>, padding: nat, on: set<string>, sizes: seq<nat>)
    requires |sizes| == |ts| && forall i | 0 <= i < |ts| :: Formula(w, ts[i], on) == Some(sizes[i])
    ensures Total(w, ts, padding, on) == Some(Sum(sizes) + padding * |ts|)
    decreases |ts|
  {
    if ts != [] {
      var n := |ts| - 1;
      TotalExactly(w, ts[..n], padding, on, sizes[..n]);
      SumSnoc(sizes);
      var before, last := Total(w, ts[..n], padding, on), Formula(w, ts[n], on);
      assert before == Some(Sum(sizes[..n]) + padding * n) && last == Some(sizes[n]);
      OneMoreMember(Sum(sizes[..n]), sizes[n], padding, n);
      assert Total(w, ts, padding, on) == Some(before.value + (last.value + padding));
    }
  }

  lemma OneMoreMember(sum: nat, size: nat, padding: nat, n: nat)
    ensures sum + padding * n + (size + padding) == sum + size + padding * (n + 1)
  {
  }

  lemma {:induction false} TotalNeedsAll(w: World, ts: seq<Type>, padding: nat, on: set<string>, i: nat)
    requires i < |ts| && Formula(w, ts[i], on) == None
    ensures Total(w, ts, padding, on) == None
    decreases |ts|
  {
    if i < |ts| - 1 { TotalNeedsAll(w, ts[..|ts| - 1], padding, on, i); }
  }

  /** The largest is there when every member's size is; it is one of them, and none exceeds it. */
  lemma {:induction false} LargestExactly(w: World, ts: seq<Type>, on: set<string>, sizes: seq<Option<nat>>)
    requires |sizes| == |ts| && forall i | 0 <= i < |ts| :: Formula(w, ts[i], on) == sizes[i]
    ensures Largest(w, ts, on).Some? <==> forall i | 0 <= i < |sizes| :: sizes[i].Some?
    ensures var m := Largest(w, ts, on);
      m.Some? ==>
        && (forall i | 0 <= i < |sizes| :: sizes[i].Some? && sizes[i].value <= m.value)
        && (if ts == [] then m.value == 0 else m in sizes)
    decreases |ts|
  {
    if ts != [] {
      var n := |ts| - 1;
      LargestExactly(w, ts[..n], on, sizes[..n]);
      assert sizes == sizes[..n] + [sizes[n]];
    }
  }

  /** So are the payloads of an ADT, each the sum of its fields. */
  lemma {:induction false} LargestPayloadExactly(w: World, payloads: seq<seq<Type>>, on: set<string>, sizes: seq<Option<nat>>)
    requires |sizes| == |payloads| && forall i | 0 <= i < |payloads| :: Total(w, payloads[i], 0, on) == sizes[i]
    ensures LargestPayload(w, payloads, on).Some? <==> forall i | 0 <= i < |sizes| :: sizes[i].Some?
    ensures var m := LargestPayload(w, payloads, on);
      m.Some? ==>
        && (forall i | 0 <= i < |sizes| :: sizes[i].Some? && sizes[i].value <= m.value)
        && (if payloads == [] then m.value == 0 else m in sizes)
    decreases |payloads|
  {
    if payloads != [] {
      var n := |payloads| - 1;
      LargestPayloadExactly(w, payloads[..n], on, sizes[..n]);
      assert sizes == sizes[..n] + [sizes[n]];
    }
  }

  // ----- lists whose elements take room -----

  /** No inline list met on the way has an element of size zero. */
  predicate Roomy(w: World, t: Type, on: set<string>)
    decreases Keys(w) - on, 0, t
  {
    match t
    case InlineList(element, _) => Roomy(w, element, on) && Formula(w, element, on) != Some(0)
    case Object(key) => key in w.objects && key !in on ==> AllRoomy(w, w.objects[key], on + {key})
    case Adt(key) =>
      key in w.adts && key !in on ==>
        forall i | 0 <= i < |w.adts[key]| :: AllRoomy(w, w.adts[key][i], on + {key})
    case Union(key, members) => key !in on ==> AllRoomy(w, members, on + {key})
    case _ => true
  }

  predicate AllRoomy(w: World, ts: seq<Type>, on: set<string>)
    decreases Keys(w) - on, 0, ts
  {
    ts != [] ==> AllRoomy(w, ts[..|ts| - 1], on) && Roomy(w, ts[|ts| - 1], on)
  }

  lemma {:induction false} AllRoomyAt(w: World, ts: seq<Type>, on: set<string>, i: nat)
    requires i < |ts| && AllRoomy(w, ts, on)
    ensures AllRoomy(w, ts[..i], on) && Roomy(w, ts[i], on)
    decreases |ts|
  {
    if i < |ts| - 1 {
      AllRoomyAt(w, ts[..|ts| - 1], on, i);
      assert ts[..|ts| - 1][..i] == ts[..i];
    }
  }

  // ----- out of range -----

  /** No 64-bit result: undefined, or too large. */
  predicate Beyond(n: Option<nat>) {
    n.None? || n.value > MAX
  }

  lemma {:induction false} TotalBeyond(w: World, ts: seq<Type>, padding: nat, on: set<string>, i: nat)
    requires i <= |ts| && Beyond(Total(w, ts[..i], padding, on))
    ensures Beyond(Total(w, ts, padding, on))
    decreases |ts|
  {
    if i == |ts| {
      assert ts[..i] == ts;
    } else {
      assert ts[..|ts| - 1][..i] == ts[..i];
      TotalBeyond(w, ts[..|ts| - 1], padding, on, i);
    }
  }

  lemma {:induction false} LargestBeyond(w: World, ts: seq<Type>, on: set<string>, i: nat)
    requires i <= |ts| && Beyond(Largest(w, ts[..i], on))
    ensures Beyond(Largest(w, ts, on))
    decreases |ts|
  {
    if i == |ts| {
      assert ts[..i] == ts;
    } else {
      assert ts[..|ts| - 1][..i] == ts[..i];
      LargestBeyond(w, ts[..|ts| - 1], on, i);
    }
  }

  lemma {:induction false} PayloadBeyond(w: World, ps: seq<seq<Type>>, on: set<string>, i: nat)
    requires i <= |ps| && Beyond(LargestPayload(w, ps[..i], on))
    ensures Beyond(LargestPayload(w, ps, on))
    decreases |ps|
  {
    if i == |ps| {
      assert ps[..i] == ps;
    } else {
      assert ps[..|ps| - 1][..i] == ps[..i];
      PayloadBeyond(w, ps[..|ps| - 1], on, i);
    }
  }

  lemma LastOfTake<T>(ts: seq<T>, i: nat)
    requires i < |ts|
    ensures var taken := ts[..i + 1]; taken[..|taken| - 1] == ts[..i] && taken[|taken| - 1] == ts[i]
  {
  }

  // ----- 64-bit arithmetic -----

  function CheckedAdd(left: Word, right: Word): (sum: Option<Word>)
    ensures sum.Some? <==> left + right <= MAX
    ensures sum.Some? ==> sum.value == left + right
  {
    if right > MAX - left then None else Some(left + right)
  }

  function RoundUp16(size: Word): (rounded: Option<Word>)
    ensures rounded.Some? <==> RoundedUp(size) <= MAX
    ensures rounded.Some? ==> rounded.value == RoundedUp(size)
  {
    if size > MAX - 15 then None
    else
      var sum := size + 15;
      Some(sum - sum % 16)
  }

  /** The test that guards the multiplication is exact. */
  lemma CapacityGuard(size: Word, capacity: Capacity)
    requires size > 0
    ensures capacity > (MAX - 16) / size <==> 16 + capacity * size > MAX
  {
    var limit := (MAX - 16) / size;
    assert limit * size <= MAX - 16 < (limit + 1) * size;
    if capacity > limit {
      ProductGrows(limit + 1, capacity, size);
    } else {
      ProductGrows(capacity, limit, size);
    }
  }

  lemma ProductGrows(a: int, b: int, c: nat)
    requires a <= b
    ensures a * c <= b * c
  {
    assert (b - a) * c >= 0;
  }

  // ----- the estimate as it runs -----

  /** Bytes, a failure, or the division by a zero-size element. */
  datatype Estimate = Bytes(n: Word) | Fails | Panics

  /** What the estimate says of an exact value. */
  function Reported(exact: Option<nat>): Estimate {
    if exact.Some? && exact.value <= MAX then Bytes(exact.value) else Fails
  }

  class Visiting {
    var keys: set<string>

    constructor ()
      ensures keys == {}
    {
      keys := {};
    }
  }

  /** The estimate is the formula whenever the formula fits 64 bits, and fails exactly otherwise,
      whatever the intermediate sums; it panics only over a list of zero-size elements. The
      visiting set is left as it was on every return. */
  method EstimatedStorageBytes(w: World, t: Type, visiting: Visiting) returns (r: Estimate)
    modifies visiting
    ensures visiting.keys == old(visiting.keys)
    ensures Roomy(w, t, old(visiting.keys)) ==> r == Reported(Formula(w, t, old(visiting.keys)))
    decreases Keys(w) - visiting.keys, 0, t
  {
    ghost var on := visiting.keys;
    match t
    case Scalar(bits) =>
      var width := (bits + 7) / 8;
      if width == 0 {
        width := 1;
      }
      return Bytes(width);
    case EoS => return Bytes(1);
    case Nil => return Bytes(8);
    case Pointer => return Bytes(8);
    case Slice => return Bytes(16);
    case InlineString(capacity) =>
      var sum := CheckedAdd(8, capacity);
      return if sum.Some? then Bytes(sum.value) else Fails;
    case InlineList(element, length) =>
      r := EstimatedStorageBytes(w, element, visiting);
      if r.Bytes? {
        r := InlineListBytes(r.n, length);
      } else {
        ListBeyond(w, element, length, on);
      }
    case Handle => return Bytes(32);
    case Object(key) =>
      if key !in w.objects || key in visiting.keys {
        return Fails;
      }
      visiting.keys := visiting.keys + {key};
      r := SumMembers(w, w.objects[key], 16, visiting);
      visiting.keys := visiting.keys - {key};
      assert visiting.keys == on;
      if r.Bytes? {
        var rounded := RoundUp16(r.n);
        r := if rounded.Some? then Bytes(rounded.value) else Fails;
      }
    case Adt(key) =>
      if key !in w.adts || key == "" || key in visiting.keys {
        return Fails;
      }
      visiting.keys := visiting.keys + {key};
      r := LargestOfPayloads(w, w.adts[key], visiting);
      visiting.keys := visiting.keys - {key};
      assert visiting.keys == on;
      if r.Bytes? {
        r := Tagged(r.n);
      }
    case Union(key, members) =>
      if key == "" || key in visiting.keys {
        return Fails;
      }
      visiting.keys := visiting.keys + {key};
      r := LargestOfMembers(w, members, visiting);
      visiting.keys := visiting.keys - {key};
      assert visiting.keys == on;
      if r.Bytes? {
        r := Tagged(r.n);
      }
    case Unknown => return Fails;
  }

  lemma ListBeyond(w: World, element: Type, length: Capacity, on: set<string>)
    ensures Beyond(Formula(w, element, on)) ==> Beyond(Formula(w, InlineList(element, length), on))
  {
    var size := Formula(w, element, on);
    if size.Some? { ProductGrows(1, length, size.value); }
  }

  function InlineListBytes(element: Word, length: Capacity): (r: Estimate)
    ensures element > 0 ==> r == Reported(Some(16 + length * element))
  {
    if element == 0 then Panics
    else
      CapacityGuard(element, length);
      ProductGrows(0, length, element);
      if length > (MAX - 16) / element then Fails else Bytes(16 + length * element)
  }

  /** The tag header and the largest payload, rounded up. */
  function Tagged(largest: Word): (r: Estimate)
    ensures r == Reported(Some(RoundedUp(16 + largest)))
  {
    var sum := CheckedAdd(16, largest);
    if sum.None? then Fails
    else
      var rounded := RoundUp16(sum.value);
      if rounded.Some? then Bytes(rounded.value) else Fails
  }

  method SumMembers(w: World, ts: seq<Type>, padding: Word, visiting: Visiting) returns (r: Estimate)
    modifies visiting
    ensures visiting.keys == old(visiting.keys)
    ensures AllRoomy(w, ts, old(visiting.keys)) ==> r == Reported(Total(w, ts, padding, old(visiting.keys)))
    decreases Keys(w) - visiting.keys, 0, ts
  {
    ghost var on, roomy := visiting.keys, AllRoomy(w, ts, visiting.keys);
    var total: Word := 0;
    for i := 0 to |ts|
      invariant visiting.keys == on
      invariant roomy ==> Total(w, ts[..i], padding, on) == Some(total)
    {
      LastOfTake(ts, i);
      if roomy { AllRoomyAt(w, ts, on, i); }
      var size := EstimatedStorageBytes(w, ts[i], visiting);
      if !size.Bytes? {
        if roomy { TotalBeyond(w, ts, padding, on, i + 1); }
        return size;
      }
      var sum := CheckedAdd(total, size.n);
      if sum.None? {
        if roomy { TotalBeyond(w, ts, padding, on, i + 1); }
        return Fails;
      }
      var padded := CheckedAdd(sum.value, padding);
      if padded.None? {
        if roomy { TotalBeyond(w, ts, padding, on, i + 1); }
        return Fails;
      }
      total := padded.value;
    }
    assert ts[..|ts|] == ts;
    return Bytes(total);
  }

  method LargestOfMembers(w: World, ts: seq<Type>, visiting: Visiting) returns (r: Estimate)
    modifies visiting
    ensures visiting.keys == old(visiting.keys)
    ensures AllRoomy(w, ts, old(visiting.keys)) ==> r == Reported(Largest(w, ts, old(visiting.keys)))
    decreases Keys(w) - visiting.keys, 0, ts
  {
    ghost var on, roomy := visiting.keys, AllRoomy(w, ts, visiting.keys);
    var largest: Word := 0;
    for i := 0 to |ts|
      invariant visiting.keys == on
      invariant roomy ==> Largest(w, ts[..i], on) == Some(largest)
    {
      LastOfTake(ts, i);
      if roomy { AllRoomyAt(w, ts, on, i); }
      var size := EstimatedStorageBytes(w, ts[i], visiting);
      if !size.Bytes? {
        if roomy { LargestBeyond(w, ts, on, i + 1); }
        return size;
      }
      if size.n > largest {
        largest := size.n;
      }
    }
    assert ts[..|ts|] == ts;
    return Bytes(largest);
  }

  method LargestOfPayloads(w: World, ps: seq<seq<Type>>, visiting: Visiting) returns (r: Estimate)
    modifies visiting
    ensures visiting.keys == old(visiting.keys)
    ensures (forall i | 0 <= i < |ps| :: AllRoomy(w, ps[i], old(visiting.keys))) ==>
      r == Reported(LargestPayload(w, ps, old(visiting.keys)))
    decreases Keys(w) - visiting.keys, 1, |ps|
  {
    ghost var on := visiting.keys;
    ghost var roomy := forall i | 0 <= i < |ps| :: AllRoomy(w, ps[i], on);
    var largest: Word := 0;
    for i := 0 to |ps|
      invariant visiting.keys == on
      invariant roomy ==> LargestPayload(w, ps[..i], on) == Some(largest)
    {
      LastOfTake(ps, i);
      var total := SumMembers(w, ps[i], 0, visiting);
      if !total.Bytes? {
        if roomy { PayloadBeyond(w, ps, on, i + 1); }
        return total;
      }
      if total.n > largest {
        largest := total.n;
      }
    }
    assert ps[..|ps|] == ps;
    return Bytes(largest);
  }

  predicate ExactlyWithin(size: Option<nat>, capacity: Capacity) {
    size.Some? && size.value > 0 && 16 + capacity * size.value < BUDGET
  }

  /** The budget test is the exact inequality. */
  method InlineListWithinBudget(w: World, element: Type, capacity: Capacity, open: bool) returns (fits: bool)
    ensures Roomy(w, element, {}) ==>
      (fits <==> open || ExactlyWithin(Formula(w, element, {}), capacity))
  {
    if open {
      return true;
    }
    var visiting := new Visiting();
    var size := EstimatedStorageBytes(w, element, visiting);
    ghost var exact := Formula(w, element, {});
    if !size.Bytes? {
      if exact.Some? { ProductGrows(1, capacity, exact.value); }
      return false;
    }
    if size.n == 0 {
      return false;
    }
    CapacityGuard(size.n, capacity);
    if capacity > (MAX - 16) / size.n {
      return false;
    }
    var total := 16 + capacity * size.n;
    return total < BUDGET;
  }

  // ----- zero-size elements -----

  /** A struct without members has size zero, and a list of them divides by it. */
  lemma EmptyStructHasSizeZero()
    ensures var w := World(map["E" := []], map[]);
      Formula(w, Object("E"), {}) == Some(0) && !Roomy(w, InlineList(Object("E"), 1), {}) &&
      InlineListBytes(0, 1) == Panics
  {
    var w := World(map["E" := []], map[]);
    assert Total(w, w.objects["E"], 16, {"E"}) == Some(0);
  }
}
