/** Import resolution: a depth-first walk with a visited set, an active path and a
    dependency-first post-order. */
module ModuleGraph {

  /** A canonical module id. */
  type Id = string

  /** One import entry: a relative path that does not resolve, one that names a module, or a
      dotted standard-library reference. */
  datatype Import = BadPath | Relative(target: Id) | Standard(target: Id)

  /** What checking a module's key and lexing and parsing its text give. */
  datatype Source = Broken | Parsed(imports: seq<Import>)

  /** How many user source keys canonicalize to each id, the embedded source modules, the core
      modules that have no source, and the text of every module. */
  datatype World = World(keys: map<Id, nat>, embedded: set<Id>, core: set<Id>, texts: map<Id, Source>)

  datatype Problem =
    | ShadowsStandard(from: Id)
    | DuplicateKeys(from: Id)
    | UnresolvedPath(from: Id)
    | UnknownStandard(from: Id, target: Id)
    | NotFound(from: Id, target: Id)
    | DuplicateImport(from: Id, target: Id)
    | ImportCycle(from: Id, target: Id, cycle: seq<Id>)

  predicate HasUserKey(w: World, id: Id) {
    id in w.keys && w.keys[id] > 0
  }

  predicate Available(w: World, id: Id) {
    id in w.embedded || HasUserKey(w, id)
  }

  function Universe(w: World): set<Id> {
    w.embedded + w.keys.Keys
  }

  function SourceOf(w: World, id: Id): Source {
    if id in w.texts then w.texts[id] else Broken
  }

  function ImportsOf(w: World, id: Id): seq<Import> {
    match SourceOf(w, id)
    case Parsed(imports) => imports
    case Broken => []
  }

  // ----- the import graph, independently of any walk -----

  /** The entry leads to the source module t. */
  predicate LeadsTo(w: World, entry: Import, t: Id) {
    match entry
    case BadPath => false
    case Relative(target) => target == t && HasUserKey(w, t)
    case Standard(target) => target == t && t !in w.core && t in w.embedded
  }

  predicate NamesCore(w: World, entry: Import, t: Id) {
    entry == Standard(t) && t in w.core
  }

  /** The entry resolves to t, a source module or a core one. */
  predicate Resolves(w: World, entry: Import, t: Id) {
    LeadsTo(w, entry, t) || NamesCore(w, entry, t)
  }

  /** The k-th entry of m resolves to what an earlier one did. */
  predicate Repeats(w: World, m: Id, k: nat, t: Id) {
    && k < |ImportsOf(w, m)| && Resolves(w, ImportsOf(w, m)[k], t)
    && exists j | 0 <= j < k :: Resolves(w, ImportsOf(w, m)[j], t)
  }

  /** m imports the source module t: its k-th entry leads there, and none before it names a core
      module of the same id, which would make that entry a repetition. */
  predicate Imports(w: World, m: Id, k: nat, t: Id) {
    && k < |ImportsOf(w, m)| && LeadsTo(w, ImportsOf(w, m)[k], t)
    && forall j | 0 <= j < k :: !NamesCore(w, ImportsOf(w, m)[j], t)
  }

  predicate Edge(w: World, m: Id, t: Id) {
    exists k | 0 <= k < |ImportsOf(w, m)| :: Imports(w, m, k, t)
  }

  /** Some entry of m leads to t, repetition or not. */
  predicate Names(w: World, m: Id, t: Id) {
    exists k | 0 <= k < |ImportsOf(w, m)| :: LeadsTo(w, ImportsOf(w, m)[k], t)
  }

  predicate IsPath(w: World, path: seq<Id>) {
    |path| > 0 && forall i | 0 <= i < |path| - 1 :: Edge(w, path[i], path[i + 1])
  }

  ghost predicate Reachable(w: World, root: Id, id: Id) {
    exists path :: IsPath(w, path) && path[0] == root && path[|path| - 1] == id
  }

  /** A closed path of at least one import. */
  predicate IsCycle(w: World, path: seq<Id>) {
    IsPath(w, path) && |path| >= 2 && path[0] == path[|path| - 1]
  }

  ghost predicate CycleReachable(w: World, root: Id) {
    exists cycle :: IsCycle(w, cycle) && Reachable(w, root, cycle[0])
  }

  /** The root reaches a module that cannot be lexed or parsed. */
  ghost predicate BrokenReachable(w: World, root: Id) {
    exists id :: Reachable(w, root, id) && SourceOf(w, id).Broken?
  }

  predicate NoDuplicates(s: seq<Id>) {
    forall i, j | 0 <= i < j < |s| :: s[i] != s[j]
  }

  /** Every import target of order[i] comes before it. */
  ghost predicate DependenciesFirst(w: World, order: seq<Id>) {
    forall i, t | 0 <= i < |order| && Edge(w, order[i], t) :: t in order[..i]
  }

  lemma ReachableStep(w: World, root: Id, m: Id, t: Id)
    requires Reachable(w, root, m) && Edge(w, m, t)
    ensures Reachable(w, root, t)
  {
    var path :| IsPath(w, path) && path[0] == root && path[|path| - 1] == m;
    assert IsPath(w, path + [t]);
  }

  /** Where dependencies come first, following imports moves strictly backwards. */
  lemma {:induction false} PathMovesBack(w: World, order: seq<Id>, path: seq<Id>, i: nat) returns (j: nat)
    requires DependenciesFirst(w, order) && IsPath(w, path) && i < |order| && order[i] == path[0]
    ensures j <= i && order[j] == path[|path| - 1] && (|path| > 1 ==> j < i)
    decreases |path|
  {
    if |path| == 1 {
      j := i;
    } else {
      assert Edge(w, order[i], path[1]) && path[1] in order[..i];
      var k :| 0 <= k < i && order[k] == path[1];
      assert IsPath(w, path[1..]) by {
        forall n | 0 <= n < |path[1..]| - 1 ensures Edge(w, path[1..][n], path[1..][n + 1]) {
          assert Edge(w, path[n + 1], path[n + 2]);
        }
      }
      j := PathMovesBack(w, order, path[1..], k);
    }
  }

  lemma DependenciesFirstAcyclic(w: World, order: seq<Id>, cycle: seq<Id>)
    requires DependenciesFirst(w, order) && NoDuplicates(order) && IsCycle(w, cycle)
    ensures cycle[0] !in order
  {
    if i :| 0 <= i < |order| && order[i] == cycle[0] {
      var j := PathMovesBack(w, order, cycle, i);
      assert false;
    }
  }

  /** A set closed under imports that holds the root holds everything reachable. */
  lemma {:induction false} ClosedHoldsReachable(w: World, s: set<Id>, path: seq<Id>)
    requires IsPath(w, path) && path[0] in s
    requires forall m, t | m in s && Edge(w, m, t) :: t in s
    ensures path[|path| - 1] in s
    decreases |path|
  {
    if |path| > 1 {
      var init := path[..|path| - 1];
      assert IsPath(w, init) by {
        forall n | 0 <= n < |init| - 1 ensures Edge(w, init[n], init[n + 1]) {
          assert Edge(w, path[n], path[n + 1]);
        }
      }
      ClosedHoldsReachable(w, s, init);
      assert Edge(w, path[|path| - 2], path[|path| - 1]);
    }
  }

  // ----- the walker -----

  /** One depth-first traversal; the caller chooses the neighbours. */
  class Walker {
    var visited: set<Id>
    var active: seq<Id>
    var order: seq<Id>

    constructor ()
      ensures visited == {} && active == [] && order == []
    {
      visited, active, order := {}, [], [];
    }

    method Enter(node: Id) returns (entered: bool)
      modifies this
      ensures entered == (node !in old(visited)) && order == old(order)
      ensures visited == old(visited) + {node}
      ensures active == if entered then old(active) + [node] else old(active)
    {
      if node in visited {
        return false;
      }
      visited := visited + {node};
      active := active + [node];
      entered := true;
    }

    method Leave()
      requires |active| > 0
      modifies this
      ensures visited == old(visited)
      ensures active == old(active)[..|old(active)| - 1]
      ensures order == old(order) + [old(active)[|old(active)| - 1]]
    {
      var last := |active| - 1;
      var node := active[last];
      active := active[..last];
      order := order + [node];
    }

    /** The cycle that `node` closes: the active path from it on, and node again. */
    method Cycle(node: Id) returns (cycle: seq<Id>, found: bool)
      ensures found == (node in active)
      ensures found ==> |cycle| >= 2 && cycle[0] == node == cycle[|cycle| - 1]
      ensures found ==> exists at | 0 <= at < |active| :: cycle == active[at..] + [node]
    {
      for at := 0 to |active|
        invariant forall i | 0 <= i < at :: active[i] != node
      {
        if active[at] == node {
          return active[at..] + [node], true;
        }
      }
      return [], false;
    }
  }

  // ----- the resolver -----

  /** What the walk has done so far. */
  ghost predicate Sound(w: World, root: Id, visited: set<Id>, active: seq<Id>, order: seq<Id>, problems: seq<Problem>) {
    && NoDuplicates(order) && NoDuplicates(active)
    && (forall id :: id in visited <==> id in order || id in active)
    && (forall id :: id in order ==> id !in active)
    && visited <= Universe(w)
    && (forall id | id in visited :: Reachable(w, root, id))
    && (forall i | 0 <= i < |active| - 1 :: Edge(w, active[i], active[i + 1]))
    && (forall i, t {:trigger Edge(w, order[i], t)} | 0 <= i < |order| && Edge(w, order[i], t) ::
          Settled(problems, order[i], t, order[..i]))
    && (forall i, t {:trigger Names(w, order[i], t)} | 0 <= i < |order| && Names(w, order[i], t) ::
          Edge(w, order[i], t) || DuplicateImport(order[i], t) in problems)
    && (forall p | p in problems :: Genuine(w, root, p) && (p.ImportCycle? ==> p.target in visited))
    && (forall m | m in order :: SourceOf(w, m).Parsed? && Reported(w, m, problems))
  }

  /** Everything that is wrong with a module's keys and entries is among the problems. */
  ghost predicate Reported(w: World, m: Id, problems: seq<Problem>) {
    KeysReported(w, m, problems) && forall k | 0 <= k < |ImportsOf(w, m)| :: EntryReported(w, m, k, problems)
  }

  ghost predicate KeysReported(w: World, m: Id, problems: seq<Problem>) {
    && (m in w.embedded && HasUserKey(w, m) ==> ShadowsStandard(m) in problems)
    && (m !in w.embedded && m in w.keys && w.keys[m] > 1 ==> DuplicateKeys(m) in problems)
  }

  /** An entry that resolves to nothing has a problem of its own, and so has one that repeats. */
  ghost predicate EntryReported(w: World, m: Id, k: nat, problems: seq<Problem>)
    requires k < |ImportsOf(w, m)|
  {
    && (match ImportsOf(w, m)[k]
        case BadPath => UnresolvedPath(m) in problems
        case Relative(t) => !HasUserKey(w, t) ==> NotFound(m, t) in problems
        case Standard(t) => t !in w.core && t !in w.embedded ==> UnknownStandard(m, t) in problems)
    && forall t | Repeats(w, m, k, t) :: DuplicateImport(m, t) in problems
  }

  /** The edge from m to t is accounted for: t is already in the post-order, or a cycle is blamed on
      the edge. */
  ghost predicate Settled(problems: seq<Problem>, m: Id, t: Id, order: seq<Id>) {
    t in order || CycleRecorded(problems, m, t)
  }

  ghost predicate CycleRecorded(problems: seq<Problem>, from: Id, target: Id) {
    exists p | p in problems :: p.ImportCycle? && p.from == from && p.target == target
  }

  /** A problem is what it says, of a module the root reaches; a reported cycle is a cycle of imports
      the root reaches, closed by the entry it blames. */
  ghost predicate Genuine(w: World, root: Id, p: Problem) {
    Reachable(w, root, p.from) &&
    match p
    case ShadowsStandard(m) => m in w.embedded && HasUserKey(w, m)
    case DuplicateKeys(m) => m !in w.embedded && m in w.keys && w.keys[m] > 1
    case UnresolvedPath(m) => exists k | 0 <= k < |ImportsOf(w, m)| :: ImportsOf(w, m)[k] == BadPath
    case NotFound(m, t) =>
      !HasUserKey(w, t) && exists k | 0 <= k < |ImportsOf(w, m)| :: ImportsOf(w, m)[k] == Relative(t)
    case UnknownStandard(m, t) =>
      t !in w.core && t !in w.embedded && exists k | 0 <= k < |ImportsOf(w, m)| :: ImportsOf(w, m)[k] == Standard(t)
    case DuplicateImport(m, t) => exists k | 0 <= k < |ImportsOf(w, m)| :: Repeats(w, m, k, t)
    case ImportCycle(m, t, cycle) =>
      && IsCycle(w, cycle) && Reachable(w, root, cycle[0])
      && cycle[|cycle| - 2] == m && cycle[0] == t
  }

  /** The k-th entry of m has been resolved. */
  ghost predicate Handled(w: World, m: Id, k: nat, order: seq<Id>, problems: seq<Problem>)
    requires k < |ImportsOf(w, m)|
  {
    EntryReported(w, m, k, problems) &&
    forall t | LeadsTo(w, ImportsOf(w, m)[k], t) ::
      if Imports(w, m, k, t) then Settled(problems, m, t, order) else DuplicateImport(m, t) in problems
  }

  ghost predicate AllHandled(w: World, m: Id, k: nat, order: seq<Id>, problems: seq<Problem>)
    requires k <= |ImportsOf(w, m)|
  {
    forall j | 0 <= j < k :: Handled(w, m, j, order, problems)
  }

  /** `imported` holds what the first k entries of m resolve to. */
  ghost predicate Met(w: World, m: Id, k: nat, imported: set<Id>)
    requires k <= |ImportsOf(w, m)|
  {
    forall t :: t in imported <==> exists j | 0 <= j < k :: Resolves(w, ImportsOf(w, m)[j], t)
  }

  class ReachState {
    const world: World
    ghost const root: Id
    const walk: Walker
    var problems: seq<Problem>

    constructor (world: World, ghost root: Id)
      ensures this.world == world && this.root == root && problems == []
      ensures fresh(walk) && walk.visited == {} && walk.active == [] && walk.order == []
    {
      this.world, this.root := world, root;
      walk := new Walker();
      problems := [];
    }

    ghost predicate Valid()
      reads this, walk
    {
      Sound(world, root, walk.visited, walk.active, walk.order, problems)
    }

    /** Nothing already done is undone. */
    twostate predicate Continues()
      reads this, walk
    {
      && old(walk.visited) <= walk.visited
      && old(walk.order) <= walk.order
      && old(problems) <= problems
    }

    method Record(p: Problem)
      requires Valid() && Genuine(world, root, p) && (p.ImportCycle? ==> p.target in walk.visited)
      modifies this
      ensures problems == old(problems) + [p] && Valid()
    {
      ghost var before := problems;
      problems := problems + [p];
      SoundRecord(world, root, walk.visited, walk.active, walk.order, before, p);
    }

    /** Visits a module and everything it imports, then appends it to the post-order. The walk
        is abandoned when a module cannot be lexed or parsed. */
    method Visit(canonical: Id) returns (aborted: bool)
      requires Valid() && Available(world, canonical) && Reachable(world, root, canonical)
      requires walk.active == [] || Edge(world, walk.active[|walk.active| - 1], canonical)
      requires canonical !in walk.active
      modifies this, walk
      ensures Continues()
      ensures Valid() && (aborted ==> BrokenReachable(world, root)) && (!aborted ==> walk.active == old(walk.active) && canonical in walk.order)
      ensures !aborted && canonical !in old(walk.visited) ==> walk.order[|walk.order| - 1] == canonical
      decreases Universe(world) - walk.visited, 0
    {
      var entered := Begin(canonical);
      aborted := false;
      if entered {
        aborted := VisitEntered(canonical, old(walk.active));
      }
    }

    /** The imports of the module just put on the active path, and its place in the post-order. */
    method VisitEntered(canonical: Id, ghost below: seq<Id>) returns (aborted: bool)
      requires Valid() && Available(world, canonical) && walk.active == below + [canonical]
      requires Reachable(world, root, canonical)
      modifies this, walk
      ensures Continues() && Valid() && (aborted ==> BrokenReachable(world, root)) && (!aborted ==> canonical in walk.order)
      ensures !aborted ==> walk.active == below && walk.order != [] && walk.order[|walk.order| - 1] == canonical
      decreases Universe(world) - walk.visited, 3
    {
      ReportKeys(canonical);
      if SourceOf(world, canonical).Broken? {
        BrokenIsReached(world, root, canonical);
        return true;
      }
      aborted := VisitImports(canonical, SourceOf(world, canonical).imports);
      if aborted {
        return true;
      }
      Finish(canonical, below);
    }

    /** A module met for the first time goes on the active path. */
    method Begin(canonical: Id) returns (entered: bool)
      requires Valid() && Available(world, canonical) && Reachable(world, root, canonical)
      requires walk.active == [] || Edge(world, walk.active[|walk.active| - 1], canonical)
      requires canonical !in walk.active
      modifies walk
      ensures Valid() && walk.order == old(walk.order) && entered == (canonical !in old(walk.visited))
      ensures walk.visited == old(walk.visited) + {canonical}
      ensures entered ==> Universe(world) - walk.visited < Universe(world) - old(walk.visited)
      ensures walk.active == if entered then old(walk.active) + [canonical] else old(walk.active)
      ensures !entered ==> canonical in walk.order
    {
      if canonical !in walk.visited {
        SoundEnter(world, root, walk.visited, walk.active, canonical, walk.order, problems);
      }
      entered := walk.Enter(canonical);
    }

    /** The module on top of the active path is done: it joins the post-order. */
    method Finish(canonical: Id, ghost below: seq<Id>)
      requires Valid() && walk.active == below + [canonical] && SourceOf(world, canonical).Parsed?
      requires AllHandled(world, canonical, |ImportsOf(world, canonical)|, walk.order, problems)
      requires KeysReported(world, canonical, problems)
      modifies walk
      ensures Valid() && walk.visited == old(walk.visited)
      ensures walk.active == below && walk.order == old(walk.order) + [canonical]
    {
      SoundLeave(world, root, walk.visited, below, canonical, walk.order, problems);
      walk.Leave();
    }

    /** Reports what is wrong with the source keys of a module. */
    method ReportKeys(canonical: Id)
      requires Valid() && Available(world, canonical) && Reachable(world, root, canonical)
      modifies this
      ensures Valid() && old(problems) <= problems && KeysReported(world, canonical, problems)
    {
      if canonical in world.embedded {
        if HasUserKey(world, canonical) {
          Record(ShadowsStandard(canonical));
        }
      } else if world.keys[canonical] > 1 {
        Record(DuplicateKeys(canonical));
      }
    }

    /** Resolves the entries of the module on top of the active path, in source order. */
    method VisitImports(canonical: Id, imports: seq<Import>) returns (aborted: bool)
      requires Valid() && walk.active != [] && walk.active[|walk.active| - 1] == canonical
      requires imports == ImportsOf(world, canonical)
      modifies this, walk
      ensures Continues()
      ensures Valid() && (aborted ==> BrokenReachable(world, root)) && (!aborted ==> walk.active == old(walk.active))
      ensures !aborted ==> AllHandled(world, canonical, |imports|, walk.order, problems)
      decreases Universe(world) - walk.visited, 2
    {
      var imported: set<Id> := {};
      for k := 0 to |imports|
        invariant Continues() && Valid() && walk.active == old(walk.active)
        invariant AllHandled(world, canonical, k, walk.order, problems) && Met(world, canonical, k, imported)
      {
        ghost var order, before := walk.order, problems;
        aborted, imported := ResolveImport(canonical, imports[k], imported, k);
        if aborted {
          return;
        }
        HandledLater(world, canonical, k, order, before, walk.order, problems);
      }
      aborted := false;
    }

    /** Resolves the k-th import entry of the module being visited. */
    method ResolveImport(from: Id, entry: Import, imported: set<Id>, ghost k: nat)
      returns (aborted: bool, imported': set<Id>)
      requires Valid() && walk.active != [] && walk.active[|walk.active| - 1] == from
      requires k < |ImportsOf(world, from)| && ImportsOf(world, from)[k] == entry && Reachable(world, root, from)
      requires AllHandled(world, from, k, walk.order, problems) && Met(world, from, k, imported)
      modifies this, walk
      ensures Continues()
      ensures Valid() && (aborted ==> BrokenReachable(world, root)) && (!aborted ==> walk.active == old(walk.active))
      ensures !aborted ==> Handled(world, from, k, walk.order, problems) && Met(world, from, k + 1, imported')
      decreases Universe(world) - walk.visited, 1
    {
      aborted, imported' := false, imported;
      match entry
      case BadPath =>
        Record(UnresolvedPath(from));
      case Relative(target) =>
        if !HasUserKey(world, target) {
          Record(NotFound(from, target));
        } else {
          aborted, imported' := ResolveModule(from, target, imported, k);
        }
      case Standard(target) =>
        if target in world.core {
          imported' := ResolveCore(from, target, imported, k);
        } else if target in world.embedded {
          aborted, imported' := ResolveModule(from, target, imported, k);
        } else {
          Record(UnknownStandard(from, target));
        }
    }

    /** The target of an entry is a core module, which has no source to visit. */
    method ResolveCore(from: Id, target: Id, imported: set<Id>, ghost k: nat) returns (imported': set<Id>)
      requires Valid() && Reachable(world, root, from) && target in world.core
      requires k < |ImportsOf(world, from)| && ImportsOf(world, from)[k] == Standard(target)
      requires Met(world, from, k, imported)
      modifies this
      ensures Valid() && old(problems) <= problems
      ensures Handled(world, from, k, walk.order, problems) && Met(world, from, k + 1, imported')
    {
      if target in imported {
        assert Repeats(world, from, k, target);
        Record(DuplicateImport(from, target));
      }
      imported' := imported + {target};
    }

    /** The target of an entry is a source module: a repeated import and one that closes a cycle
        are reported, and any other is visited. */
    method ResolveModule(from: Id, target: Id, imported: set<Id>, ghost k: nat)
      returns (aborted: bool, imported': set<Id>)
      requires Valid() && walk.active != [] && walk.active[|walk.active| - 1] == from
      requires k < |ImportsOf(world, from)| && LeadsTo(world, ImportsOf(world, from)[k], target)
      requires Reachable(world, root, from)
      requires AllHandled(world, from, k, walk.order, problems) && Met(world, from, k, imported)
      modifies this, walk
      ensures Continues()
      ensures Valid() && (aborted ==> BrokenReachable(world, root)) && (!aborted ==> walk.active == old(walk.active))
      ensures !aborted ==> Handled(world, from, k, walk.order, problems) && Met(world, from, k + 1, imported')
      decreases Universe(world) - walk.visited, 1, 0
    {
      aborted, imported' := false, imported + {target};
      MetNext(world, from, k, target, imported);
      if target in imported {
        assert Repeats(world, from, k, target);
        RepeatedIsSettled(world, from, k, target, imported, walk.order, problems);
        Record(DuplicateImport(from, target));
        HandledOne(world, from, k, target, walk.order, problems);
        return;
      }
      assert Imports(world, from, k, target) && Edge(world, from, target);
      aborted := VisitNew(from, target);
      if !aborted {
        HandledOne(world, from, k, target, walk.order, problems);
      }
    }

    /** The first import of a source module: it closes a cycle, or it is visited. */
    method VisitNew(from: Id, target: Id) returns (aborted: bool)
      requires Valid() && walk.active != [] && walk.active[|walk.active| - 1] == from
      requires Edge(world, from, target) && Available(world, target)
      modifies this, walk
      ensures Continues()
      ensures Valid() && (aborted ==> BrokenReachable(world, root)) && (!aborted ==> walk.active == old(walk.active) && Settled(problems, from, target, walk.order))
      decreases Universe(world) - walk.visited, 1, 0, 0
    {
      var cycle, found := walk.Cycle(target);
      if found {
        ClosesCycle(world, root, walk.active, target, cycle);
        Record(ImportCycle(from, target, cycle));
        return false;
      }
      ReachableStep(world, root, from, target);
      aborted := Visit(target);
    }
  }

  lemma MetNext(w: World, m: Id, k: nat, t: Id, imported: set<Id>)
    requires k < |ImportsOf(w, m)| && LeadsTo(w, ImportsOf(w, m)[k], t) && Met(w, m, k, imported)
    ensures Met(w, m, k + 1, imported + {t})
    ensures t !in imported ==> Imports(w, m, k, t) && !Repeats(w, m, k, t)
  {
  }

  /** An entry that leads to t leads nowhere else. */
  lemma HandledOne(w: World, m: Id, k: nat, t: Id, order: seq<Id>, problems: seq<Problem>)
    requires k < |ImportsOf(w, m)| && LeadsTo(w, ImportsOf(w, m)[k], t)
    requires if Imports(w, m, k, t) then Settled(problems, m, t, order) else DuplicateImport(m, t) in problems
    requires Repeats(w, m, k, t) ==> DuplicateImport(m, t) in problems
    ensures Handled(w, m, k, order, problems)
  {
  }

  /** A repeated import that no core module hides repeats an entry that was resolved. */
  lemma RepeatedIsSettled(w: World, m: Id, k: nat, t: Id, imported: set<Id>, order: seq<Id>, problems: seq<Problem>)
    requires k < |ImportsOf(w, m)| && AllHandled(w, m, k, order, problems) && Met(w, m, k, imported) && t in imported
    ensures Imports(w, m, k, t) ==> Settled(problems, m, t, order)
  {
    if Imports(w, m, k, t) {
      var j :| 0 <= j < k && (LeadsTo(w, ImportsOf(w, m)[j], t) || NamesCore(w, ImportsOf(w, m)[j], t));
      assert Imports(w, m, j, t) && Handled(w, m, j, order, problems);
    }
  }

  lemma SettledLater(problems: seq<Problem>, p: Problem, m: Id, t: Id, order: seq<Id>)
    requires Settled(problems, m, t, order)
    ensures Settled(problems + [p], m, t, order)
  {
    if q :| q in problems && q.ImportCycle? && q.from == m && q.target == t {
      assert q in problems + [p];
    }
  }

  lemma SoundRecord(w: World, root: Id, visited: set<Id>, active: seq<Id>, order: seq<Id>, problems: seq<Problem>, p: Problem)
    requires Sound(w, root, visited, active, order, problems) && Genuine(w, root, p)
    requires p.ImportCycle? ==> p.target in visited
    ensures Sound(w, root, visited, active, order, problems + [p])
  {
    forall m | m in order ensures Reported(w, m, problems + [p]) {
      assert Reported(w, m, problems);
      forall k | 0 <= k < |ImportsOf(w, m)| ensures EntryReported(w, m, k, problems + [p]) {
        EntryStaysReported(w, m, k, problems, problems + [p]);
      }
    }
    forall i, t | 0 <= i < |order| && Edge(w, order[i], t)
      ensures Settled(problems + [p], order[i], t, order[..i])
    {
      SettledLater(problems, p, order[i], t, order[..i]);
    }
  }

  lemma EntryStaysReported(w: World, m: Id, k: nat, problems: seq<Problem>, problems': seq<Problem>)
    requires k < |ImportsOf(w, m)| && EntryReported(w, m, k, problems) && problems <= problems'
    ensures EntryReported(w, m, k, problems')
  {
    forall q | q in problems ensures q in problems' { }
  }

  lemma HandledLater(w: World, m: Id, k: nat, order: seq<Id>, problems: seq<Problem>,
                     order': seq<Id>, problems': seq<Problem>)
    requires k <= |ImportsOf(w, m)| && AllHandled(w, m, k, order, problems)
    requires order <= order' && problems <= problems'
    ensures AllHandled(w, m, k, order', problems')
  {
    forall j | 0 <= j < k ensures EntryReported(w, m, j, problems') {
      assert Handled(w, m, j, order, problems);
      EntryStaysReported(w, m, j, problems, problems');
    }
    forall j, t | 0 <= j < k && LeadsTo(w, ImportsOf(w, m)[j], t)
      ensures Imports(w, m, j, t) ==> Settled(problems', m, t, order')
      ensures !Imports(w, m, j, t) ==> DuplicateImport(m, t) in problems'
    {
      assert Handled(w, m, j, order, problems);
      if p :| p in problems && p.ImportCycle? && p.from == m && p.target == t {
        assert p in problems';
      }
    }
  }

  lemma SoundEnter(w: World, root: Id, visited: set<Id>, active: seq<Id>, m: Id, order: seq<Id>, problems: seq<Problem>)
    requires Sound(w, root, visited, active, order, problems)
    requires m in Universe(w) && m !in visited && Reachable(w, root, m)
    requires active == [] || Edge(w, active[|active| - 1], m)
    ensures Sound(w, root, visited + {m}, active + [m], order, problems)
  {
    var path := active + [m];
    forall i | 0 <= i < |path| - 1 ensures Edge(w, path[i], path[i + 1]) {
      if i < |active| - 1 { assert Edge(w, active[i], active[i + 1]); }
    }
    forall id ensures id in path <==> id in active || id == m { }
  }

  lemma SoundLeave(w: World, root: Id, visited: set<Id>, active: seq<Id>, m: Id, order: seq<Id>, problems: seq<Problem>)
    requires Sound(w, root, visited, active + [m], order, problems)
    requires SourceOf(w, m).Parsed?
    requires AllHandled(w, m, |ImportsOf(w, m)|, order, problems) && KeysReported(w, m, problems)
    ensures Sound(w, root, visited, active, order + [m], problems)
  {
    var path, later := active + [m], order + [m];
    assert path[|active|] == m && m in path;
    assert forall i | 0 <= i < |active| :: active[i] == path[i];
    forall i, t | 0 <= i < |later| && Edge(w, later[i], t)
      ensures Settled(problems, later[i], t, later[..i])
    {
      if i < |order| {
        assert later[..i] == order[..i] && Edge(w, order[i], t);
      } else {
        var k :| 0 <= k < |ImportsOf(w, m)| && Imports(w, m, k, t);
        assert later[..i] == order;
        assert Handled(w, m, k, order, problems);
      }
    }
    forall i, t | 0 <= i < |later| && Names(w, later[i], t)
      ensures Edge(w, later[i], t) || DuplicateImport(later[i], t) in problems
    {
      if i < |order| {
        assert Names(w, order[i], t);
      } else {
        var k :| 0 <= k < |ImportsOf(w, m)| && LeadsTo(w, ImportsOf(w, m)[k], t);
        assert Handled(w, m, k, order, problems);
      }
    }
    forall k | 0 <= k < |ImportsOf(w, m)| ensures EntryReported(w, m, k, problems) {
      assert Handled(w, m, k, order, problems);
    }
    forall id ensures id in visited <==> id in later || id in active {
      assert id in path <==> id in active || id == m;
    }
  }

  lemma ClosesCycle(w: World, root: Id, active: seq<Id>, target: Id, cycle: seq<Id>)
    requires active != [] && forall i | 0 <= i < |active| - 1 :: Edge(w, active[i], active[i + 1])
    requires forall id | id in active :: Reachable(w, root, id)
    requires Edge(w, active[|active| - 1], target)
    requires exists at | 0 <= at < |active| :: cycle == active[at..] + [target]
    requires |cycle| >= 2 && cycle[0] == target == cycle[|cycle| - 1]
    ensures Genuine(w, root, ImportCycle(active[|active| - 1], target, cycle))
  {
    var at :| 0 <= at < |active| && cycle == active[at..] + [target];
    forall i | 0 <= i < |cycle| - 1
      ensures Edge(w, cycle[i], cycle[i + 1])
    {
      assert cycle[i] == active[at + i];
    }
    assert cycle[0] == active[at];
  }

  /** Resolves everything the root imports, directly or not, unless the root reaches a module that
      could not be parsed, which ends the walk. The order holds exactly the source modules reachable from
      the root, once each, the root last; a cycle is reported exactly when the root reaches one; without
      a cycle every module comes after everything it imports; an entry that leads to a module its own
      module does not import is reported as a repetition; every problem is what it says, and nothing that
      is wrong with a module's keys or entries is left out. */
  method ReachableModules(world: World, root: Id) returns (order: seq<Id>, problems: seq<Problem>, aborted: bool)
    requires Available(world, root)
    ensures aborted <==> BrokenReachable(world, root)
    ensures !aborted ==> NoDuplicates(order) && order != [] && order[|order| - 1] == root
    ensures !aborted ==>
      && (forall id :: id in order <==> Reachable(world, root, id))
      && ((exists p | p in problems :: p.ImportCycle?) <==> CycleReachable(world, root))
      && (!CycleReachable(world, root) ==> DependenciesFirst(world, order))
    ensures !aborted ==>
      forall m, t | m in order && Names(world, m, t) :: Edge(world, m, t) || DuplicateImport(m, t) in problems
    ensures forall p | p in problems :: Genuine(world, root, p)
    ensures !aborted ==> forall m | m in order :: Reported(world, m, problems)
  {
    var state := new ReachState(world, root);
    SoundStart(world, root);
    aborted := state.Visit(root);
    order, problems := state.walk.order, state.problems;
    SoundProblems(world, root, state.walk.visited, state.walk.active, order, problems);
    if !aborted {
      WalkExact(world, root, state.walk.visited, order, problems);
      WalkUnbroken(world, root, order);
    }
  }

  lemma BrokenIsReached(w: World, root: Id, m: Id)
    requires Reachable(w, root, m) && SourceOf(w, m).Broken?
    ensures BrokenReachable(w, root)
  {
  }

  lemma SoundStart(w: World, root: Id)
    ensures Reachable(w, root, root) && Sound(w, root, {}, [], [], [])
  {
    assert IsPath(w, [root]);
  }

  lemma SoundProblems(w: World, root: Id, visited: set<Id>, active: seq<Id>, order: seq<Id>, problems: seq<Problem>)
    requires Sound(w, root, visited, active, order, problems)
    ensures NoDuplicates(order) && forall p | p in problems :: Genuine(w, root, p)
    ensures forall m | m in order :: SourceOf(w, m).Parsed? && Reported(w, m, problems)
  {
  }

  lemma WalkUnbroken(w: World, root: Id, order: seq<Id>)
    requires forall id :: id in order <==> Reachable(w, root, id)
    requires forall m | m in order :: SourceOf(w, m).Parsed?
    ensures !BrokenReachable(w, root)
  {
  }

  lemma WalkExact(w: World, root: Id, visited: set<Id>, order: seq<Id>, problems: seq<Problem>)
    requires Sound(w, root, visited, [], order, problems) && root in order
    ensures forall id :: id in order <==> Reachable(w, root, id)
    ensures (exists p | p in problems :: p.ImportCycle?) <==> CycleReachable(w, root)
    ensures !CycleReachable(w, root) ==> DependenciesFirst(w, order)
    ensures forall m, t | m in order && Names(w, m, t) :: Edge(w, m, t) || DuplicateImport(m, t) in problems
  {
    forall id | Reachable(w, root, id)
      ensures id in order
    {
      var path :| IsPath(w, path) && path[0] == root && path[|path| - 1] == id;
      forall m, t | m in visited && Edge(w, m, t) ensures t in visited {
        var i :| 0 <= i < |order| && order[i] == m;
        assert Settled(problems, order[i], t, order[..i]);
      }
      ClosedHoldsReachable(w, visited, path);
    }
    if p :| p in problems && p.ImportCycle? {
      assert Genuine(w, root, p);
      assert IsCycle(w, p.cycle);
    } else {
      forall i, t | 0 <= i < |order| && Edge(w, order[i], t) ensures t in order[..i] {
        assert Settled(problems, order[i], t, order[..i]);
      }
      if cycle :| IsCycle(w, cycle) && Reachable(w, root, cycle[0]) {
        DependenciesFirstAcyclic(w, order, cycle);
      }
    }
  }

  /** Where every core module's id differs from every user key's, each entry that leads to a module
      imports it. */
  lemma DistinctIdsImport(w: World, m: Id, t: Id)
    requires forall id | id in w.core :: !HasUserKey(w, id)
    ensures Edge(w, m, t) <==> Names(w, m, t)
  {
    if k :| 0 <= k < |ImportsOf(w, m)| && LeadsTo(w, ImportsOf(w, m)[k], t) {
      assert Imports(w, m, k, t);
    }
  }
}
