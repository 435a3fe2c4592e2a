/** Specialization of generic function and object templates: the caches, the active-key guard and
    the parameter frame. */
module Specialization {
  import opened Finite

  type Name = string

  /** A closed type argument: interning makes keys and types agree. */
  datatype Type = Scalar(id: nat) | Pointer(element: Type) | Object(name: Name, arguments: seq<Type>)

  /** A written type: a parameter of the template, or an instance of an object template. */
  datatype Expr =
    | Written(id: nat)
    | Parameter(name: Name)
    | PointerTo(element: Expr)
    | Instance(name: Name, arguments: seq<Expr>)

  /** What a function body asks for: a type, or a call with explicit type arguments. */
  datatype Request = Use(typ: Expr) | Call(name: Name, arguments: seq<Expr>)

  datatype ObjectTemplate = ObjectTemplate(parameters: seq<Name>, members: seq<Expr>)

  datatype FunctionTemplate = FunctionTemplate(parameters: seq<Name>, signature: seq<Expr>, body: seq<Request>)

  datatype Template = FunctionNamed(name: Name) | ObjectNamed(name: Name)

  /** A specialization key: the template and its argument list. */
  datatype Key = Key(template: Template, arguments: seq<Type>)

  /** The module's templates, and the instances whose signature, members or body the rest of the
      checker refuses. */
  datatype World = World(functions: map<Name, FunctionTemplate>, objects: map<Name, ObjectTemplate>,
                         badSignatures: set<Key>, badBodies: set<Key>)

  datatype Status = Provisional | Complete

  type Frame = map<Name, Type>

  datatype State = State(active: set<Key>, frame: Frame, functions: map<Key, Status>, objects: map<Key, Status>)

  function ParameterFrame(parameters: seq<Name>, arguments: seq<Type>): Frame
    requires |parameters| == |arguments|
  {
    if parameters == [] then map[]
    else
      var n := |parameters| - 1;
      ParameterFrame(parameters[..n], arguments[..n])[parameters[n] := arguments[n]]
  }

  /** Each parameter reads its own argument, by position; of two with one name the last. */
  lemma {:induction false} ParameterReadsArgument(ps: seq<Name>, ts: seq<Type>, i: nat)
    requires |ps| == |ts| && i < |ps| && forall j | i < j < |ps| :: ps[j] != ps[i]
    ensures ps[i] in ParameterFrame(ps, ts) && ParameterFrame(ps, ts)[ps[i]] == ts[i]
  {
    var n := |ps| - 1;
    if i < n {
      assert ps[n] != ps[i];
      ParameterReadsArgument(ps[..n], ts[..n], i);
    }
  }

  function MergedFrame(outer: Frame, inner: Frame): Frame {
    outer + inner
  }

  // ----- what every call keeps -----

  predicate Cached(s: State, k: Key) {
    if k.template.FunctionNamed? then k in s.functions else k in s.objects
  }

  predicate Known(w: World, t: Template) {
    if t.FunctionNamed? then t.name in w.functions else t.name in w.objects
  }

  /** Every active key is cached, names a known template, and is that template's only one. */
  predicate Kept(w: World, s: State) {
    (forall k | k in s.active :: Cached(s, k) && Known(w, k.template)) &&
    (forall j, k | j in s.active && k in s.active && j.template == k.template :: j == k)
  }

  /** The guard: another argument list of the same template is being specialized. */
  predicate ChangesArguments(s: State, key: Key) {
    exists k :: k in s.active && k.template == key.template && k != key
  }

  ghost function Templates(w: World): set<Template> {
    (set n | n in w.functions :: FunctionNamed(n)) + (set n | n in w.objects :: ObjectNamed(n))
  }

  /** The templates none of whose instances is active: what nesting consumes. */
  ghost function Idle(w: World, active: set<Key>): set<Template> {
    Templates(w) - set k | k in active :: k.template
  }

  lemma IdleShrinks(w: World, s: State, key: Key)
    requires Kept(w, s) && Known(w, key.template) && !Cached(s, key) && !ChangesArguments(s, key)
    ensures Idle(w, s.active + {key}) < Idle(w, s.active)
  {
    assert forall k | k in s.active :: k.template != key.template;
    assert key.template in Idle(w, s.active);
    assert key in s.active + {key};
    assert key.template !in Idle(w, s.active + {key});
  }

  /** Back where it started, with whatever was found on the way; function entries only accrue. */
  predicate Restored(w: World, before: State, after: State) {
    after.active == before.active && after.frame == before.frame && Kept(w, after) &&
    before.functions.Keys <= after.functions.Keys
  }

  // ----- specialization as a function of the table -----

  function ResolveType(w: World, s: State, e: Expr): (r: (Option<Type>, State))
    requires Kept(w, s)
    ensures Restored(w, s, r.1) && r.1.functions == s.functions
    decreases Idle(w, s.active), 1, e
  {
    match e
    case Written(id) => (Some(Scalar(id)), s)
    case Parameter(n) => (if n in s.frame then Some(s.frame[n]) else None, s)
    case PointerTo(element) =>
      var (t, after) := ResolveType(w, s, element);
      (if t.Some? then Some(Pointer(t.value)) else None, after)
    case Instance(n, arguments) =>
      if n !in w.objects || |arguments| != |w.objects[n].parameters| then (None, s)
      else
        var (ts, after) := ResolveArguments(w, s, arguments);
        if ts.None? then (None, after) else SpecializeObject(w, after, n, ts.value)
  }

  /** Arguments in order, up to the first that does not resolve. */
  function ResolveArguments(w: World, s: State, es: seq<Expr>): (r: (Option<seq<Type>>, State))
    requires Kept(w, s)
    ensures Restored(w, s, r.1) && r.1.functions == s.functions
    ensures r.0.Some? ==> |r.0.value| == |es|
    decreases Idle(w, s.active), 1, es
  {
    if es == [] then (Some([]), s)
    else
      var (t, after) := ResolveType(w, s, es[0]);
      if t.None? then (None, after)
      else
        var (ts, last) := ResolveArguments(w, after, es[1..]);
        (if ts.Some? then Some([t.value] + ts.value) else None, last)
  }

  /** Members in order, every one tried. */
  function ResolveMembers(w: World, s: State, es: seq<Expr>): (r: (bool, State))
    requires Kept(w, s)
    ensures Restored(w, s, r.1) && r.1.functions == s.functions
    decreases Idle(w, s.active), 1, es
  {
    if es == [] then (true, s)
    else
      var (t, after) := ResolveType(w, s, es[0]);
      var (ok, last) := ResolveMembers(w, after, es[1..]);
      (t.Some? && ok, last)
  }

  function SpecializeObject(w: World, s: State, n: Name, arguments: seq<Type>): (r: (Option<Type>, State))
    requires Kept(w, s) && n in w.objects && |arguments| == |w.objects[n].parameters|
    ensures Restored(w, s, r.1) && r.1.functions == s.functions
    decreases Idle(w, s.active), 0, 0
  {
    var key := Key(ObjectNamed(n), arguments);
    if key in s.objects then (Some(Object(n, arguments)), s)
    else if ChangesArguments(s, key) then (None, s)
    else
      IdleShrinks(w, s, key);
      var entered := State(s.active + {key}, ParameterFrame(w.objects[n].parameters, arguments), s.functions,
                           s.objects[key := Provisional]);
      var (ok, last) := ResolveMembers(w, entered, w.objects[n].members);
      if ok && key !in w.badBodies then
        (Some(Object(n, arguments)), State(s.active, s.frame, last.functions, last.objects[key := Complete]))
      else (None, State(s.active, s.frame, last.functions, last.objects - {key}))
  }

  /** The function instance entered: its key active, its entry provisional. */
  function Entered(s: State, key: Key): State {
    s.(active := s.active + {key}, functions := s.functions[key := Provisional])
  }

  lemma EnteredKept(w: World, s: State, key: Key)
    requires Kept(w, s) && key.template.FunctionNamed? && Known(w, key.template)
    requires key !in s.functions && !ChangesArguments(s, key)
    ensures Kept(w, Entered(s, key))
  {
    assert forall k | k in s.active :: k.template != key.template || k == key;
  }

  function SpecializeFunction(w: World, s: State, n: Name, arguments: seq<Type>): (r: (bool, State))
    requires Kept(w, s) && n in w.functions && |arguments| == |w.functions[n].parameters|
    ensures Restored(w, s, r.1)
    decreases Idle(w, s.active), 2, 0
  {
    var key := Key(FunctionNamed(n), arguments);
    if key in s.functions then (true, s)
    else if ChangesArguments(s, key) then (false, s)
    else
      var framed := s.(frame := MergedFrame(s.frame, ParameterFrame(w.functions[n].parameters, arguments)));
      var (ok, signed) := ResolveMembers(w, framed, w.functions[n].signature);
      if !ok || key in w.badSignatures then (false, signed.(frame := s.frame))
      else
        IdleShrinks(w, signed, key);
        var (fine, last) := CheckBody(w, Entered(signed, key), w.functions[n].body);
        var left := last.(active := s.active, frame := s.frame);
        if fine && key !in w.badBodies then (true, left.(functions := left.functions[key := Complete]))
        else (false, left)
  }

  /** Every request of a body in order, failed ones included. */
  function CheckBody(w: World, s: State, body: seq<Request>): (r: (bool, State))
    requires Kept(w, s)
    ensures Restored(w, s, r.1)
    decreases Idle(w, s.active), 3, body
  {
    if body == [] then (true, s)
    else
      var (ok, after) := Answer(w, s, body[0]);
      var (rest, last) := CheckBody(w, after, body[1..]);
      (ok && rest, last)
  }

  function Answer(w: World, s: State, request: Request): (r: (bool, State))
    requires Kept(w, s)
    ensures Restored(w, s, r.1)
    decreases Idle(w, s.active), 3, request
  {
    match request
    case Use(e) =>
      var (t, after) := ResolveType(w, s, e);
      (t.Some?, after)
    case Call(n, arguments) =>
      if n !in w.functions then (false, s)
      else
        var (ts, after) := ResolveArguments(w, s, arguments);
        if ts.None? || |arguments| != |w.functions[n].parameters| then (false, after)
        else SpecializeFunction(w, after, n, ts.value)
  }

  // ----- the table as it is updated -----

  /** The shared table. A specialization enters its key, works under its own frame, and leaves
      both as it found them on every return. */
  class GenericTable {
    var active: set<Key>
    var frame: Frame
    var functionSpecializations: map<Key, Status>
    var objectSpecializations: map<Key, Status>

    constructor ()
      ensures Value() == State({}, map[], map[], map[])
    {
      active, frame, functionSpecializations, objectSpecializations := {}, map[], map[], map[];
    }

    function Value(): State
      reads this
    {
      State(active, frame, functionSpecializations, objectSpecializations)
    }

    method ResolveTypeUse(w: World, e: Expr) returns (t: Option<Type>)
      requires Kept(w, Value())
      modifies this
      ensures (t, Value()) == ResolveType(w, old(Value()), e)
      decreases Idle(w, active), 1, e
    {
      match e
      case Written(id) => return Some(Scalar(id));
      case Parameter(n) =>
        if n in frame {
          return Some(frame[n]);
        }
        return None;
      case PointerTo(element) =>
        var pointee := ResolveTypeUse(w, element);
        if pointee.None? {
          return None;
        }
        return Some(Pointer(pointee.value));
      case Instance(n, arguments) =>
        if n !in w.objects || |arguments| != |w.objects[n].parameters| {
          return None;
        }
        var ts := ResolveArgumentUses(w, arguments);
        if ts.None? {
          return None;
        }
        t := SpecializeObjectType(w, n, ts.value);
    }

    method ResolveArgumentUses(w: World, es: seq<Expr>) returns (ts: Option<seq<Type>>)
      requires Kept(w, Value())
      modifies this
      ensures (ts, Value()) == ResolveArguments(w, old(Value()), es)
      decreases Idle(w, active), 1, es
    {
      var resolved: seq<Type> := [];
      ghost var start := Value();
      ghost var all := ResolveArguments(w, start, es).0;
      assert es[0..] == es && (all.Some? ==> resolved + all.value == all.value);
      for i := 0 to |es|
        invariant Kept(w, Value()) && active == start.active && frame == start.frame
        invariant |resolved| == i
        invariant var (rest, last) := ResolveArguments(w, Value(), es[i..]);
          ResolveArguments(w, start, es) == (if rest.Some? then Some(resolved + rest.value) else None, last)
      {
        assert es[i..][0] == es[i] && es[i..][1..] == es[i + 1..];
        var t := ResolveTypeUse(w, es[i]);
        if t.None? {
          return None;
        }
        ghost var rest := ResolveArguments(w, Value(), es[i + 1..]).0;
        assert rest.Some? ==> resolved + ([t.value] + rest.value) == (resolved + [t.value]) + rest.value;
        resolved := resolved + [t.value];
      }
      assert resolved + [] == resolved;
      return Some(resolved);
    }

    method ResolveObjectMembers(w: World, es: seq<Expr>) returns (ok: bool)
      requires Kept(w, Value())
      modifies this
      ensures (ok, Value()) == ResolveMembers(w, old(Value()), es)
      decreases Idle(w, active), 1, es
    {
      ok := true;
      ghost var start := Value();
      for i := 0 to |es|
        invariant Kept(w, Value()) && active == start.active && frame == start.frame
        invariant var (rest, last) := ResolveMembers(w, Value(), es[i..]);
          ResolveMembers(w, start, es) == (ok && rest, last)
      {
        assert es[i..][0] == es[i] && es[i..][1..] == es[i + 1..];
        var t := ResolveTypeUse(w, es[i]);
        if t.None? {
          ok := false;
        }
      }
    }

    method SpecializeObjectType(w: World, n: Name, arguments: seq<Type>) returns (t: Option<Type>)
      requires Kept(w, Value()) && n in w.objects && |arguments| == |w.objects[n].parameters|
      modifies this
      ensures (t, Value()) == SpecializeObject(w, old(Value()), n, arguments)
      decreases Idle(w, active), 0, 0
    {
      var key := Key(ObjectNamed(n), arguments);
      if key in objectSpecializations {
        return Some(Object(n, arguments));
      }
      if ChangesArguments(Value(), key) {
        return None;
      }
      IdleShrinks(w, Value(), key);
      objectSpecializations := objectSpecializations[key := Provisional];
      active := active + {key};
      var previousFrame := frame;
      frame := ParameterFrame(w.objects[n].parameters, arguments);
      var ok := ResolveObjectMembers(w, w.objects[n].members);
      frame := previousFrame;
      active := active - {key};
      assert active == old(active);
      if !ok || key in w.badBodies {
        objectSpecializations := objectSpecializations - {key};
        return None;
      }
      objectSpecializations := objectSpecializations[key := Complete];
      return Some(Object(n, arguments));
    }

    method SpecializeFunctionIn(w: World, n: Name, arguments: seq<Type>) returns (ok: bool)
      requires Kept(w, Value()) && n in w.functions && |arguments| == |w.functions[n].parameters|
      modifies this
      ensures (ok, Value()) == SpecializeFunction(w, old(Value()), n, arguments)
      decreases Idle(w, active), 2, 0
    {
      var key := Key(FunctionNamed(n), arguments);
      if key in functionSpecializations {
        return true;
      }
      if ChangesArguments(Value(), key) {
        return false;
      }
      var previousFrame := frame;
      frame := MergedFrame(previousFrame, ParameterFrame(w.functions[n].parameters, arguments));
      ok := ResolveObjectMembers(w, w.functions[n].signature);
      if !ok || key in w.badSignatures {
        frame := previousFrame;
        return false;
      }
      ok := CheckEntered(w, n, key);
      frame := previousFrame;
      if !ok || key in w.badBodies {
        return false;
      }
      functionSpecializations := functionSpecializations[key := Complete];
      return true;
    }

    /** Checks the body of an instance while its key is active and its entry provisional. */
    method CheckEntered(w: World, n: Name, key: Key) returns (ok: bool)
      requires Kept(w, Value()) && n in w.functions && key.template == FunctionNamed(n)
      requires key !in functionSpecializations && !ChangesArguments(Value(), key)
      modifies this
      ensures Kept(w, Entered(old(Value()), key))
      ensures var (fine, last) := CheckBody(w, Entered(old(Value()), key), w.functions[n].body);
        ok == fine && Value() == last.(active := old(active))
      decreases Idle(w, active), 1, 0
    {
      IdleShrinks(w, Value(), key);
      functionSpecializations := functionSpecializations[key := Provisional];
      active := active + {key};
      ok := CheckRequests(w, w.functions[n].body);
      active := active - {key};
      assert active == old(active);
    }

    method CheckRequests(w: World, body: seq<Request>) returns (ok: bool)
      requires Kept(w, Value())
      modifies this
      ensures (ok, Value()) == CheckBody(w, old(Value()), body)
      decreases Idle(w, active), 3, body
    {
      ok := true;
      ghost var start := Value();
      for i := 0 to |body|
        invariant Kept(w, Value()) && active == start.active && frame == start.frame
        invariant var (rest, last) := CheckBody(w, Value(), body[i..]);
          CheckBody(w, start, body) == (ok && rest, last)
      {
        assert body[i..][0] == body[i] && body[i..][1..] == body[i + 1..];
        var answered := AnswerRequest(w, body[i]);
        ok := ok && answered;
      }
    }

    method AnswerRequest(w: World, request: Request) returns (ok: bool)
      requires Kept(w, Value())
      modifies this
      ensures (ok, Value()) == Answer(w, old(Value()), request)
      decreases Idle(w, active), 3, request
    {
      match request
      case Use(e) =>
        var t := ResolveTypeUse(w, e);
        return t.Some?;
      case Call(n, arguments) =>
        if n !in w.functions {
          return false;
        }
        var ts := ResolveArgumentUses(w, arguments);
        if ts.None? || |arguments| != |w.functions[n].parameters| {
          return false;
        }
        ok := SpecializeFunctionIn(w, n, ts.value);
    }
  }

  // ----- nesting -----

  /** However argument types grow, the instances open at once are at most one per template. */
  lemma NestingIsBounded(w: World, s: State)
    requires Kept(w, s)
    ensures |s.active| <= |w.functions| + |w.objects|
  {
    var names := set k | k in s.active :: k.template;
    ActiveIsInjective(s.active);
    forall t | t in names ensures t in Templates(w) {
    }
    TemplateCount(w);
    SubsetCount(names, Templates(w));
  }

  lemma {:induction false} ActiveIsInjective(active: set<Key>)
    requires forall j, k | j in active && k in active && j.template == k.template :: j == k
    ensures |set k | k in active :: k.template| == |active|
  {
    if active != {} {
      var one :| one in active;
      var rest := active - {one};
      ActiveIsInjective(rest);
      assert (set k | k in active :: k.template) == (set k | k in rest :: k.template) + {one.template};
    }
  }

  lemma TemplateCount(w: World)
    ensures |Templates(w)| <= |w.functions| + |w.objects|
  {
    FunctionCount(w.functions.Keys);
    ObjectCount(w.objects.Keys);
    assert (set n | n in w.functions :: FunctionNamed(n)) == set n | n in w.functions.Keys :: FunctionNamed(n);
    assert (set n | n in w.objects :: ObjectNamed(n)) == set n | n in w.objects.Keys :: ObjectNamed(n);
  }

  lemma {:induction false} FunctionCount(names: set<Name>)
    ensures |set n | n in names :: FunctionNamed(n)| == |names|
  {
    if names != {} {
      var one :| one in names;
      FunctionCount(names - {one});
      assert (set n | n in names :: FunctionNamed(n)) == (set n | n in names - {one} :: FunctionNamed(n)) + {FunctionNamed(one)};
    }
  }

  lemma {:induction false} ObjectCount(names: set<Name>)
    ensures |set n | n in names :: ObjectNamed(n)| == |names|
  {
    if names != {} {
      var one :| one in names;
      ObjectCount(names - {one});
      assert (set n | n in names :: ObjectNamed(n)) == (set n | n in names - {one} :: ObjectNamed(n)) + {ObjectNamed(one)};
    }
  }

  // ----- what an instance needs -----

  function Eval(f: Frame, e: Expr): Option<Type> {
    match e
    case Written(id) => Some(Scalar(id))
    case Parameter(n) => if n in f then Some(f[n]) else None
    case PointerTo(element) =>
      var t := Eval(f, element);
      if t.Some? then Some(Pointer(t.value)) else None
    case Instance(n, arguments) =>
      var ts := EvalAll(f, arguments);
      if ts.Some? then Some(Object(n, ts.value)) else None
  }

  function EvalAll(f: Frame, es: seq<Expr>): Option<seq<Type>> {
    if es == [] then Some([])
    else
      var t, ts := Eval(f, es[0]), EvalAll(f, es[1..]);
      if t.Some? && ts.Some? then Some([t.value] + ts.value) else None
  }

  /** The object instances a written type mentions under the frame. */
  function Needs(f: Frame, e: Expr): set<Key> {
    match e
    case PointerTo(element) => Needs(f, element)
    case Instance(n, arguments) =>
      var ts := EvalAll(f, arguments);
      NeedsAll(f, arguments) + if ts.Some? then {Key(ObjectNamed(n), ts.value)} else {}
    case _ => {}
  }

  function NeedsAll(f: Frame, es: seq<Expr>): set<Key> {
    if es == [] then {} else Needs(f, es[0]) + NeedsAll(f, es[1..])
  }

  function RequestNeeds(f: Frame, request: Request): set<Key> {
    match request
    case Use(e) => Needs(f, e)
    case Call(n, arguments) =>
      var ts := EvalAll(f, arguments);
      NeedsAll(f, arguments) + if ts.Some? then {Key(FunctionNamed(n), ts.value)} else {}
  }

  function BodyNeeds(f: Frame, body: seq<Request>): set<Key> {
    if body == [] then {} else RequestNeeds(f, body[0]) + BodyNeeds(f, body[1..])
  }

  /** What one instance requests of others: its members, or its signature and body, under its own
      arguments alone. */
  function KeyNeeds(w: World, k: Key): set<Key> {
    match k.template
    case ObjectNamed(n) =>
      if n in w.objects && |k.arguments| == |w.objects[n].parameters| then
        NeedsAll(ParameterFrame(w.objects[n].parameters, k.arguments), w.objects[n].members)
      else {}
    case FunctionNamed(n) =>
      if n in w.functions && |k.arguments| == |w.functions[n].parameters| then
        var f := ParameterFrame(w.functions[n].parameters, k.arguments);
        NeedsAll(f, w.functions[n].signature) + BodyNeeds(f, w.functions[n].body)
      else {}
  }

  predicate Chain(w: World, p: seq<Key>) {
    |p| > 0 && (|p| > 1 ==> p[1] in KeyNeeds(w, p[0]) && Chain(w, p[1..]))
  }

  ghost predicate Reachable(w: World, roots: set<Key>, k: Key) {
    exists p :: Chain(w, p) && p[0] in roots && p[|p| - 1] == k
  }

  lemma ReachableRoot(w: World, roots: set<Key>, k: Key)
    requires k in roots
    ensures Reachable(w, roots, k)
  {
    assert Chain(w, [k]);
  }

  lemma ReachableMore(w: World, roots: set<Key>, more: set<Key>, k: Key)
    requires roots <= more && Reachable(w, roots, k)
    ensures Reachable(w, more, k)
  {
  }

  lemma ReachableThrough(w: World, key: Key, k: Key)
    requires Reachable(w, KeyNeeds(w, key), k)
    ensures Reachable(w, {key}, k)
  {
    var p :| Chain(w, p) && p[0] in KeyNeeds(w, key) && p[|p| - 1] == k;
    assert ([key] + p)[1..] == p;
    assert Chain(w, [key] + p);
  }

  // ----- only own parameters are in scope -----

  predicate Scoped(e: Expr, ps: seq<Name>) {
    match e
    case Written(_) => true
    case Parameter(n) => n in ps
    case PointerTo(element) => Scoped(element, ps)
    case Instance(_, arguments) => AllScoped(arguments, ps)
  }

  predicate AllScoped(es: seq<Expr>, ps: seq<Name>) {
    es != [] ==> Scoped(es[0], ps) && AllScoped(es[1..], ps)
  }

  predicate RequestScoped(request: Request, ps: seq<Name>) {
    match request
    case Use(e) => Scoped(e, ps)
    case Call(_, arguments) => AllScoped(arguments, ps)
  }

  predicate BodyScoped(body: seq<Request>, ps: seq<Name>) {
    body != [] ==> RequestScoped(body[0], ps) && BodyScoped(body[1..], ps)
  }

  /** Function templates mention only their own parameters. */
  predicate WellScoped(w: World) {
    forall n | n in w.functions ::
      AllScoped(w.functions[n].signature, w.functions[n].parameters) &&
      BodyScoped(w.functions[n].body, w.functions[n].parameters)
  }

  predicate Agree(f: Frame, g: Frame, ps: seq<Name>) {
    forall n | n in ps :: n in f && n in g && f[n] == g[n]
  }

  lemma {:induction false} FrameHasParameters(ps: seq<Name>, ts: seq<Type>)
    requires |ps| == |ts|
    ensures forall n :: n in ps <==> n in ParameterFrame(ps, ts)
  {
    if ps != [] {
      var m := |ps| - 1;
      FrameHasParameters(ps[..m], ts[..m]);
      assert ps == ps[..m] + [ps[m]];
    }
  }

  lemma MergedAgrees(outer: Frame, ps: seq<Name>, ts: seq<Type>)
    requires |ps| == |ts|
    ensures Agree(MergedFrame(outer, ParameterFrame(ps, ts)), ParameterFrame(ps, ts), ps)
    ensures var merged := MergedFrame(outer, ParameterFrame(ps, ts));
      && (forall i | 0 <= i < |ps| && (forall j | i < j < |ps| :: ps[j] != ps[i]) :: ps[i] in merged && merged[ps[i]] == ts[i])
      && (forall n | n in outer && n !in ps :: n in merged && merged[n] == outer[n])
  {
    FrameHasParameters(ps, ts);
    forall i | 0 <= i < |ps| && (forall j | i < j < |ps| :: ps[j] != ps[i])
      ensures ps[i] in ParameterFrame(ps, ts) && ParameterFrame(ps, ts)[ps[i]] == ts[i]
    {
      ParameterReadsArgument(ps, ts, i);
    }
  }

  // ----- what a written type means -----

  /** The type written out. */
  function Quote(t: Type): Expr {
    match t
    case Scalar(id) => Written(id)
    case Pointer(element) => PointerTo(Quote(element))
    case Object(n, arguments) => Instance(n, QuoteAll(arguments))
  }

  function QuoteAll(ts: seq<Type>): seq<Expr> {
    if ts == [] then [] else [Quote(ts[0])] + QuoteAll(ts[1..])
  }

  /** The object instances inside a type. */
  function InstancesIn(t: Type): set<Key> {
    match t
    case Scalar(_) => {}
    case Pointer(element) => InstancesIn(element)
    case Object(n, arguments) => InstancesInAll(arguments) + {Key(ObjectNamed(n), arguments)}
  }

  function InstancesInAll(ts: seq<Type>): set<Key> {
    if ts == [] then {} else InstancesIn(ts[0]) + InstancesInAll(ts[1..])
  }

  /** A type written out means itself, and needs the instances inside it. */
  lemma {:induction false} EvalQuote(f: Frame, t: Type)
    ensures Eval(f, Quote(t)) == Some(t) && Needs(f, Quote(t)) == InstancesIn(t)
    decreases t, 0
  {
    match t
    case Pointer(element) => EvalQuote(f, element);
    case Object(_, arguments) => EvalAllQuote(f, arguments);
    case _ =>
  }

  lemma {:induction false} EvalAllQuote(f: Frame, ts: seq<Type>)
    ensures EvalAll(f, QuoteAll(ts)) == Some(ts) && NeedsAll(f, QuoteAll(ts)) == InstancesInAll(ts)
    decreases ts
  {
    if ts != [] {
      EvalQuote(f, ts[0]);
      EvalAllQuote(f, ts[1..]);
      assert QuoteAll(ts)[1..] == QuoteAll(ts[1..]) && [ts[0]] + ts[1..] == ts;
    }
  }

  /** The template's text with each parameter replaced by the argument written out. */
  function Instantiate(f: Frame, e: Expr): Expr {
    match e
    case Written(_) => e
    case Parameter(n) => if n in f then Quote(f[n]) else e
    case PointerTo(element) => PointerTo(Instantiate(f, element))
    case Instance(n, arguments) => Instance(n, InstantiateAll(f, arguments))
  }

  function InstantiateAll(f: Frame, es: seq<Expr>): seq<Expr> {
    if es == [] then [] else [Instantiate(f, es[0])] + InstantiateAll(f, es[1..])
  }

  /** Reading a template's text under a frame is reading it with the arguments put in. */
  lemma {:induction false} EvalIsSubstitution(f: Frame, e: Expr)
    ensures Eval(map[], Instantiate(f, e)) == Eval(f, e)
    decreases e, 0
  {
    match e
    case Parameter(n) => if n in f { EvalQuote(map[], f[n]); }
    case PointerTo(element) => EvalIsSubstitution(f, element);
    case Instance(_, arguments) => EvalAllIsSubstitution(f, arguments);
    case _ =>
  }

  lemma {:induction false} EvalAllIsSubstitution(f: Frame, es: seq<Expr>)
    ensures EvalAll(map[], InstantiateAll(f, es)) == EvalAll(f, es)
    decreases es
  {
    if es != [] {
      EvalIsSubstitution(f, es[0]);
      EvalAllIsSubstitution(f, es[1..]);
      assert InstantiateAll(f, es)[1..] == InstantiateAll(f, es[1..]);
    }
  }

  lemma {:induction false} EvalAgrees(f: Frame, g: Frame, ps: seq<Name>, e: Expr)
    requires Agree(f, g, ps) && Scoped(e, ps)
    ensures Eval(f, e) == Eval(g, e) && Needs(f, e) == Needs(g, e)
    decreases e, 0
  {
    match e
    case PointerTo(element) => EvalAgrees(f, g, ps, element);
    case Instance(_, arguments) => EvalAllAgrees(f, g, ps, arguments);
    case _ =>
  }

  lemma {:induction false} EvalAllAgrees(f: Frame, g: Frame, ps: seq<Name>, es: seq<Expr>)
    requires Agree(f, g, ps) && AllScoped(es, ps)
    ensures EvalAll(f, es) == EvalAll(g, es) && NeedsAll(f, es) == NeedsAll(g, es)
    decreases es
  {
    if es != [] {
      EvalAgrees(f, g, ps, es[0]);
      EvalAllAgrees(f, g, ps, es[1..]);
    }
  }

  lemma {:induction false} BodyAgrees(f: Frame, g: Frame, ps: seq<Name>, body: seq<Request>)
    requires Agree(f, g, ps) && BodyScoped(body, ps)
    ensures BodyNeeds(f, body) == BodyNeeds(g, body)
  {
    if body != [] {
      match body[0] {
        case Use(e) => EvalAgrees(f, g, ps, e);
        case Call(_, arguments) => EvalAllAgrees(f, g, ps, arguments);
      }
      BodyAgrees(f, g, ps, body[1..]);
    }
  }

  // ----- what success leaves in the caches -----

  function StatusOf(s: State, k: Key): Status
    requires Cached(s, k)
  {
    if k.template.FunctionNamed? then s.functions[k] else s.objects[k]
  }

  ghost predicate AllCached(s: State, ks: set<Key>) {
    forall k | k in ks :: Cached(s, k)
  }

  /** Nothing cached is lost or changed. */
  ghost predicate Keeps(before: State, after: State) {
    forall k | Cached(before, k) :: Cached(after, k) && StatusOf(after, k) == StatusOf(before, k)
  }

  /** Every entry that is new is complete, has all it needs cached, and was needed. */
  ghost predicate Grown(w: World, before: State, after: State, roots: set<Key>) {
    Keeps(before, after) && AllCached(after, roots) &&
    forall k | Cached(after, k) && !Cached(before, k) :: Sound(w, after, roots, k)
  }

  ghost predicate Sound(w: World, after: State, roots: set<Key>, k: Key)
    requires Cached(after, k)
  {
    StatusOf(after, k) == Complete && AllCached(after, KeyNeeds(w, k)) && Reachable(w, roots, k)
  }

  lemma GrownThen(w: World, a: State, b: State, c: State, first: set<Key>, second: set<Key>)
    requires Grown(w, a, b, first) && Grown(w, b, c, second)
    ensures Grown(w, a, c, first + second)
  {
    forall k | Cached(c, k) && !Cached(a, k) ensures Sound(w, c, first + second, k) {
      if Cached(b, k) {
        assert Sound(w, b, first, k);
        ReachableMore(w, first, first + second, k);
      } else {
        assert Sound(w, c, second, k);
        ReachableMore(w, second, first + second, k);
      }
    }
  }

  lemma {:induction false} TypeGrows(w: World, s: State, e: Expr)
    requires Kept(w, s) && WellScoped(w) && ResolveType(w, s, e).0.Some?
    ensures ResolveType(w, s, e).0 == Eval(s.frame, e)
    ensures Grown(w, s, ResolveType(w, s, e).1, Needs(s.frame, e))
    decreases Idle(w, s.active), 1, e
  {
    match e
    case PointerTo(element) => TypeGrows(w, s, element);
    case Instance(n, arguments) =>
      ArgumentsGrow(w, s, arguments);
      var (ts, after) := ResolveArguments(w, s, arguments);
      ObjectGrows(w, after, n, ts.value);
      GrownThen(w, s, after, ResolveType(w, s, e).1, NeedsAll(s.frame, arguments), {Key(ObjectNamed(n), ts.value)});
    case _ =>
  }

  lemma {:induction false} ArgumentsGrow(w: World, s: State, es: seq<Expr>)
    requires Kept(w, s) && WellScoped(w) && ResolveArguments(w, s, es).0.Some?
    ensures ResolveArguments(w, s, es).0 == EvalAll(s.frame, es)
    ensures Grown(w, s, ResolveArguments(w, s, es).1, NeedsAll(s.frame, es))
    decreases Idle(w, s.active), 1, es
  {
    if es != [] {
      TypeGrows(w, s, es[0]);
      var after := ResolveType(w, s, es[0]).1;
      ArgumentsGrow(w, after, es[1..]);
      GrownThen(w, s, after, ResolveArguments(w, s, es).1, Needs(s.frame, es[0]), NeedsAll(s.frame, es[1..]));
    }
  }

  lemma {:induction false} MembersGrow(w: World, s: State, es: seq<Expr>)
    requires Kept(w, s) && WellScoped(w) && ResolveMembers(w, s, es).0
    ensures Grown(w, s, ResolveMembers(w, s, es).1, NeedsAll(s.frame, es))
    decreases Idle(w, s.active), 1, es
  {
    if es != [] {
      TypeGrows(w, s, es[0]);
      var after := ResolveType(w, s, es[0]).1;
      MembersGrow(w, after, es[1..]);
      GrownThen(w, s, after, ResolveMembers(w, s, es).1, Needs(s.frame, es[0]), NeedsAll(s.frame, es[1..]));
    }
  }

  /** An instance entered before its needs were met, and completed after. */
  lemma GrownAround(w: World, s: State, entered: State, last: State, after: State, key: Key)
    requires !Cached(s, key) && Cached(after, key) && StatusOf(after, key) == Complete
    requires forall k :: Cached(entered, k) <==> Cached(s, k) || k == key
    requires forall k | Cached(s, k) :: StatusOf(entered, k) == StatusOf(s, k)
    requires forall k :: Cached(after, k) <==> Cached(last, k)
    requires forall k | Cached(last, k) && k != key :: StatusOf(after, k) == StatusOf(last, k)
    requires Grown(w, entered, last, KeyNeeds(w, key))
    ensures Grown(w, s, after, {key})
  {
    forall k | Cached(after, k) && !Cached(s, k) ensures Sound(w, after, {key}, k) {
      if k == key {
        ReachableRoot(w, {key}, key);
      } else {
        assert Sound(w, last, KeyNeeds(w, key), k);
        ReachableThrough(w, key, k);
      }
    }
  }

  lemma {:induction false} ObjectGrows(w: World, s: State, n: Name, arguments: seq<Type>)
    requires Kept(w, s) && WellScoped(w) && n in w.objects && |arguments| == |w.objects[n].parameters|
    requires SpecializeObject(w, s, n, arguments).0.Some?
    ensures SpecializeObject(w, s, n, arguments).0 == Some(Object(n, arguments))
    ensures Grown(w, s, SpecializeObject(w, s, n, arguments).1, {Key(ObjectNamed(n), arguments)})
    decreases Idle(w, s.active), 0, 0
  {
    var key := Key(ObjectNamed(n), arguments);
    if key !in s.objects {
      IdleShrinks(w, s, key);
      var entered := State(s.active + {key}, ParameterFrame(w.objects[n].parameters, arguments), s.functions,
                           s.objects[key := Provisional]);
      MembersGrow(w, entered, w.objects[n].members);
      var last := ResolveMembers(w, entered, w.objects[n].members).1;
      GrownAround(w, s, entered, last, SpecializeObject(w, s, n, arguments).1, key);
    }
  }

  lemma {:induction false} FunctionGrows(w: World, s: State, n: Name, arguments: seq<Type>)
    requires Kept(w, s) && WellScoped(w) && n in w.functions && |arguments| == |w.functions[n].parameters|
    requires SpecializeFunction(w, s, n, arguments).0
    ensures Grown(w, s, SpecializeFunction(w, s, n, arguments).1, {Key(FunctionNamed(n), arguments)})
    decreases Idle(w, s.active), 2, 1
  {
    var key := Key(FunctionNamed(n), arguments);
    if key !in s.functions {
      var own := ParameterFrame(w.functions[n].parameters, arguments);
      var framed := s.(frame := MergedFrame(s.frame, own));
      var signed := ResolveMembers(w, framed, w.functions[n].signature).1;
      IdleShrinks(w, signed, key);
      var entered := Entered(signed, key);
      var last := CheckBody(w, entered, w.functions[n].body).1;
      var start := framed.(functions := framed.functions[key := Provisional]);
      InsideGrows(w, framed, signed, start, entered, key, n, own);
      FunctionAround(w, s, start, last, SpecializeFunction(w, s, n, arguments).1, key);
    }
  }

  lemma FunctionAround(w: World, s: State, start: State, last: State, after: State, key: Key)
    requires key.template.FunctionNamed? && key !in s.functions && key in last.functions
    requires start.functions == s.functions[key := Provisional] && start.objects == s.objects
    requires after.functions == last.functions[key := Complete] && after.objects == last.objects
    requires Grown(w, start, last, KeyNeeds(w, key))
    ensures Grown(w, s, after, {key})
  {
    GrownAround(w, s, start, last, after, key);
  }

  /** The signature's needs and then the body's, under the instance's own arguments. */
  lemma {:induction false} InsideGrows(w: World, framed: State, signed: State, start: State, entered: State,
                                       key: Key, n: Name, own: Frame)
    requires WellScoped(w) && n in w.functions && key.template == FunctionNamed(n)
    requires |key.arguments| == |w.functions[n].parameters| && own == ParameterFrame(w.functions[n].parameters, key.arguments)
    requires Kept(w, framed) && exists outer :: framed.frame == MergedFrame(outer, own)
    requires ResolveMembers(w, framed, w.functions[n].signature) == (true, signed)
    requires key !in signed.functions && Kept(w, entered)
    requires start == framed.(functions := framed.functions[key := Provisional])
    requires entered == Entered(signed, key)
    requires Idle(w, entered.active) < Idle(w, framed.active)
    requires CheckBody(w, entered, w.functions[n].body).0
    ensures Grown(w, start, CheckBody(w, entered, w.functions[n].body).1, KeyNeeds(w, key))
    decreases Idle(w, framed.active), 2, 0
  {
    var t := w.functions[n];
    var outer :| framed.frame == MergedFrame(outer, own);
    MergedAgrees(outer, t.parameters, key.arguments);
    EvalAllAgrees(framed.frame, own, t.parameters, t.signature);
    BodyAgrees(framed.frame, own, t.parameters, t.body);
    MembersGrow(w, framed, t.signature);
    BodyGrows(w, entered, t.body);
    EnteredGrown(w, framed, signed, start, entered, NeedsAll(own, t.signature), key);
    GrownThen(w, start, entered, CheckBody(w, entered, t.body).1, NeedsAll(own, t.signature), BodyNeeds(own, t.body));
  }

  /** Entering a key on both sides changes nothing about what was new. */
  lemma EnteredGrown(w: World, a: State, b: State, start: State, entered: State, roots: set<Key>, key: Key)
    requires Grown(w, a, b, roots) && key.template.FunctionNamed? && key !in b.functions
    requires start.functions == a.functions[key := Provisional] && start.objects == a.objects
    requires entered.functions == b.functions[key := Provisional] && entered.objects == b.objects
    ensures Grown(w, start, entered, roots)
  {
    forall k | Cached(entered, k) && !Cached(start, k) ensures Sound(w, entered, roots, k) {
      assert Sound(w, b, roots, k);
    }
    forall k | Cached(start, k) ensures Cached(entered, k) && StatusOf(entered, k) == StatusOf(start, k) {
      assert k == key || Cached(a, k);
    }
  }

  lemma {:induction false} RequestGrows(w: World, s: State, request: Request)
    requires Kept(w, s) && WellScoped(w) && Answer(w, s, request).0
    ensures Grown(w, s, Answer(w, s, request).1, RequestNeeds(s.frame, request))
    decreases Idle(w, s.active), 3, request
  {
    match request
    case Use(e) => TypeGrows(w, s, e);
    case Call(n, arguments) =>
      ArgumentsGrow(w, s, arguments);
      var (ts, after) := ResolveArguments(w, s, arguments);
      FunctionGrows(w, after, n, ts.value);
      GrownThen(w, s, after, Answer(w, s, request).1, NeedsAll(s.frame, arguments), {Key(FunctionNamed(n), ts.value)});
  }

  lemma {:induction false} BodyGrows(w: World, s: State, body: seq<Request>)
    requires Kept(w, s) && WellScoped(w) && CheckBody(w, s, body).0
    ensures Grown(w, s, CheckBody(w, s, body).1, BodyNeeds(s.frame, body))
    decreases Idle(w, s.active), 3, body
  {
    if body != [] {
      RequestGrows(w, s, body[0]);
      var after := Answer(w, s, body[0]).1;
      BodyGrows(w, after, body[1..]);
      GrownThen(w, s, after, CheckBody(w, s, body).1, RequestNeeds(s.frame, body[0]), BodyNeeds(s.frame, body[1..]));
    }
  }

  lemma {:induction false} ChainStaysCached(w: World, s: State, p: seq<Key>)
    requires Chain(w, p) && Cached(s, p[0])
    requires forall k | Cached(s, k) :: AllCached(s, KeyNeeds(w, k))
    ensures Cached(s, p[|p| - 1])
  {
    if |p| > 1 { ChainStaysCached(w, s, p[1..]); }
  }

  /** A module whose requests are all accepted ends with exactly the instances they reach, each of
      them complete, and with no key active. */
  lemma AcceptedIsExactlyReachable(w: World, requests: seq<Request>)
    requires WellScoped(w) && CheckBody(w, State({}, map[], map[], map[]), requests).0
    ensures var s := CheckBody(w, State({}, map[], map[], map[]), requests).1;
      s.active == {} && s.frame == map[] &&
      (forall k :: Cached(s, k) <==> Reachable(w, BodyNeeds(map[], requests), k)) &&
      (forall k | Cached(s, k) :: StatusOf(s, k) == Complete)
  {
    var start := State({}, map[], map[], map[]);
    var s, roots := CheckBody(w, start, requests).1, BodyNeeds(map[], requests);
    BodyGrows(w, start, requests);
    forall k | Cached(s, k) ensures Sound(w, s, roots, k) {
    }
    forall k | Reachable(w, roots, k) ensures Cached(s, k) {
      var p :| Chain(w, p) && p[0] in roots && p[|p| - 1] == k;
      ChainStaysCached(w, s, p);
    }
  }

  // ----- when every order is accepted -----

  predicate ObjectsScoped(w: World) {
    forall n | n in w.objects :: AllScoped(w.objects[n].members, w.objects[n].parameters)
  }

  /** The instance exists and nothing but its requests could refuse it. */
  predicate Good(w: World, k: Key) {
    k !in w.badBodies &&
    match k.template
    case FunctionNamed(n) => k !in w.badSignatures && n in w.functions && |k.arguments| == |w.functions[n].parameters|
    case ObjectNamed(n) => n in w.objects && |k.arguments| == |w.objects[n].parameters|
  }

  /** Every instance reached is good, and no instance reaches another of its own template. */
  ghost predicate Tame(w: World, roots: set<Key>) {
    (forall k | Reachable(w, roots, k) :: Good(w, k)) &&
    (forall j, k | Reachable(w, roots, j) && Reachable(w, {j}, k) && j.template == k.template :: j == k)
  }

  /** The roots, and every active instance, reach all that is needed here. */
  ghost predicate Under(w: World, roots: set<Key>, active: set<Key>, needs: set<Key>) {
    forall k | k in needs :: ReachedByAll(w, roots, active, k)
  }

  ghost predicate ReachedByAll(w: World, roots: set<Key>, active: set<Key>, k: Key) {
    Reachable(w, roots, k) && forall j | j in active :: Reachable(w, roots, j) && Reachable(w, {j}, k)
  }

  lemma {:induction false} ChainGrows(w: World, p: seq<Key>, k: Key)
    requires Chain(w, p) && k in KeyNeeds(w, p[|p| - 1])
    ensures Chain(w, p + [k])
  {
    if |p| == 1 {
      assert (p + [k])[1..] == [k] && Chain(w, [k]);
    } else {
      ChainGrows(w, p[1..], k);
      assert (p + [k])[1..] == p[1..] + [k];
    }
  }

  lemma ReachableNeed(w: World, roots: set<Key>, key: Key, k: Key)
    requires Reachable(w, roots, key) && k in KeyNeeds(w, key)
    ensures Reachable(w, roots, k)
  {
    var p :| Chain(w, p) && p[0] in roots && p[|p| - 1] == key;
    ChainGrows(w, p, k);
    assert (p + [k])[0] in roots && (p + [k])[|p|] == k;
  }

  /** Entering an instance that is reached, its own needs are reached too, also by itself. */
  lemma UnderKey(w: World, roots: set<Key>, active: set<Key>, key: Key)
    requires ReachedByAll(w, roots, active, key)
    ensures Under(w, roots, active, KeyNeeds(w, key)) && Under(w, roots, active + {key}, KeyNeeds(w, key))
  {
    ReachableRoot(w, {key}, key);
    forall k | k in KeyNeeds(w, key) ensures ReachedByAll(w, roots, active + {key}, k) {
      ReachableNeed(w, roots, key, k);
      forall j | j in active + {key} ensures Reachable(w, roots, j) && Reachable(w, {j}, k) {
        ReachableNeed(w, {j}, key, k);
      }
    }
  }

  lemma NotGuarded(w: World, roots: set<Key>, s: State, key: Key)
    requires Tame(w, roots) && ReachedByAll(w, roots, s.active, key)
    ensures !ChangesArguments(s, key) && Good(w, key)
  {
  }

  predicate Binds(f: Frame, ps: seq<Name>) {
    forall n | n in ps :: n in f
  }

  lemma {:induction false} EvalTotal(f: Frame, ps: seq<Name>, e: Expr)
    requires Binds(f, ps) && Scoped(e, ps)
    ensures Eval(f, e).Some?
    decreases e, 0
  {
    match e
    case PointerTo(element) => EvalTotal(f, ps, element);
    case Instance(_, arguments) => EvalAllTotal(f, ps, arguments);
    case _ =>
  }

  lemma {:induction false} EvalAllTotal(f: Frame, ps: seq<Name>, es: seq<Expr>)
    requires Binds(f, ps) && AllScoped(es, ps)
    ensures EvalAll(f, es).Some? && |EvalAll(f, es).value| == |es|
    decreases es
  {
    if es != [] {
      EvalTotal(f, ps, es[0]);
      EvalAllTotal(f, ps, es[1..]);
    }
  }

  lemma {:induction false} TypePasses(w: World, roots: set<Key>, s: State, e: Expr, ps: seq<Name>)
    requires Kept(w, s) && WellScoped(w) && ObjectsScoped(w) && Tame(w, roots)
    requires Scoped(e, ps) && Binds(s.frame, ps) && Under(w, roots, s.active, Needs(s.frame, e))
    ensures ResolveType(w, s, e).0.Some?
    decreases Idle(w, s.active), 1, e
  {
    match e
    case PointerTo(element) => TypePasses(w, roots, s, element, ps);
    case Instance(n, arguments) =>
      EvalAllTotal(s.frame, ps, arguments);
      var key := Key(ObjectNamed(n), EvalAll(s.frame, arguments).value);
      NotGuarded(w, roots, s, key);
      ArgumentsPass(w, roots, s, arguments, ps);
      ArgumentsGrow(w, s, arguments);
      ObjectPasses(w, roots, ResolveArguments(w, s, arguments).1, n, key.arguments);
    case _ =>
  }

  lemma {:induction false} ArgumentsPass(w: World, roots: set<Key>, s: State, es: seq<Expr>, ps: seq<Name>)
    requires Kept(w, s) && WellScoped(w) && ObjectsScoped(w) && Tame(w, roots)
    requires AllScoped(es, ps) && Binds(s.frame, ps) && Under(w, roots, s.active, NeedsAll(s.frame, es))
    ensures ResolveArguments(w, s, es).0.Some?
    decreases Idle(w, s.active), 1, es
  {
    if es != [] {
      TypePasses(w, roots, s, es[0], ps);
      ArgumentsPass(w, roots, ResolveType(w, s, es[0]).1, es[1..], ps);
    }
  }

  lemma {:induction false} MembersPass(w: World, roots: set<Key>, s: State, es: seq<Expr>, ps: seq<Name>)
    requires Kept(w, s) && WellScoped(w) && ObjectsScoped(w) && Tame(w, roots)
    requires AllScoped(es, ps) && Binds(s.frame, ps) && Under(w, roots, s.active, NeedsAll(s.frame, es))
    ensures ResolveMembers(w, s, es).0
    decreases Idle(w, s.active), 1, es
  {
    if es != [] {
      TypePasses(w, roots, s, es[0], ps);
      MembersPass(w, roots, ResolveType(w, s, es[0]).1, es[1..], ps);
    }
  }

  lemma {:induction false} ObjectPasses(w: World, roots: set<Key>, s: State, n: Name, arguments: seq<Type>)
    requires Kept(w, s) && WellScoped(w) && ObjectsScoped(w) && Tame(w, roots)
    requires n in w.objects && |arguments| == |w.objects[n].parameters|
    requires ReachedByAll(w, roots, s.active, Key(ObjectNamed(n), arguments))
    ensures SpecializeObject(w, s, n, arguments).0.Some?
    decreases Idle(w, s.active), 0, 0
  {
    var key := Key(ObjectNamed(n), arguments);
    NotGuarded(w, roots, s, key);
    if key !in s.objects {
      IdleShrinks(w, s, key);
      UnderKey(w, roots, s.active, key);
      FrameHasParameters(w.objects[n].parameters, arguments);
      var entered := State(s.active + {key}, ParameterFrame(w.objects[n].parameters, arguments), s.functions,
                           s.objects[key := Provisional]);
      MembersPass(w, roots, entered, w.objects[n].members, w.objects[n].parameters);
    }
  }

  lemma {:induction false} FunctionPasses(w: World, roots: set<Key>, s: State, n: Name, arguments: seq<Type>)
    requires Kept(w, s) && WellScoped(w) && ObjectsScoped(w) && Tame(w, roots)
    requires n in w.functions && |arguments| == |w.functions[n].parameters|
    requires ReachedByAll(w, roots, s.active, Key(FunctionNamed(n), arguments))
    ensures SpecializeFunction(w, s, n, arguments).0
    decreases Idle(w, s.active), 2, 0
  {
    var key := Key(FunctionNamed(n), arguments);
    NotGuarded(w, roots, s, key);
    if key !in s.functions {
      var framed := s.(frame := MergedFrame(s.frame, ParameterFrame(w.functions[n].parameters, arguments)));
      SignaturePasses(w, roots, s, framed, key, n);
      var signed := ResolveMembers(w, framed, w.functions[n].signature).1;
      IdleShrinks(w, signed, key);
      EnteredKept(w, signed, key);
      var entered := Entered(signed, key);
      InsidePasses(w, roots, s, entered, key, n);
    }
  }

  lemma {:induction false} SignaturePasses(w: World, roots: set<Key>, s: State, framed: State, key: Key, n: Name)
    requires Kept(w, s) && WellScoped(w) && ObjectsScoped(w) && Tame(w, roots)
    requires n in w.functions && key.template == FunctionNamed(n) && |key.arguments| == |w.functions[n].parameters|
    requires framed == s.(frame := MergedFrame(s.frame, ParameterFrame(w.functions[n].parameters, key.arguments)))
    requires ReachedByAll(w, roots, s.active, key)
    ensures ResolveMembers(w, framed, w.functions[n].signature).0
    decreases Idle(w, s.active), 1, w.functions[n].signature, 0
  {
    OwnNeeds(w, s.frame, key, n);
    UnderKey(w, roots, s.active, key);
    MembersPass(w, roots, framed, w.functions[n].signature, w.functions[n].parameters);
  }

  lemma {:induction false} InsidePasses(w: World, roots: set<Key>, s: State, entered: State, key: Key, n: Name)
    requires Kept(w, entered) && WellScoped(w) && ObjectsScoped(w) && Tame(w, roots)
    requires n in w.functions && key.template == FunctionNamed(n) && |key.arguments| == |w.functions[n].parameters|
    requires entered.frame == MergedFrame(s.frame, ParameterFrame(w.functions[n].parameters, key.arguments))
    requires entered.active == s.active + {key} && ReachedByAll(w, roots, s.active, key)
    ensures CheckBody(w, entered, w.functions[n].body).0
    decreases Idle(w, entered.active), 4, 0
  {
    OwnNeeds(w, s.frame, key, n);
    UnderKey(w, roots, s.active, key);
    BodyPasses(w, roots, entered, w.functions[n].body, w.functions[n].parameters);
  }

  /** Under the merged frame a function's signature and body need what its key needs. */
  lemma OwnNeeds(w: World, outer: Frame, key: Key, n: Name)
    requires WellScoped(w) && n in w.functions && key.template == FunctionNamed(n)
    requires |key.arguments| == |w.functions[n].parameters|
    ensures var f := MergedFrame(outer, ParameterFrame(w.functions[n].parameters, key.arguments));
      Binds(f, w.functions[n].parameters) &&
      NeedsAll(f, w.functions[n].signature) <= KeyNeeds(w, key) && BodyNeeds(f, w.functions[n].body) <= KeyNeeds(w, key)
  {
    var t := w.functions[n];
    var own := ParameterFrame(t.parameters, key.arguments);
    MergedAgrees(outer, t.parameters, key.arguments);
    EvalAllAgrees(MergedFrame(outer, own), own, t.parameters, t.signature);
    BodyAgrees(MergedFrame(outer, own), own, t.parameters, t.body);
  }

  lemma {:induction false} RequestPasses(w: World, roots: set<Key>, s: State, request: Request, ps: seq<Name>)
    requires Kept(w, s) && WellScoped(w) && ObjectsScoped(w) && Tame(w, roots)
    requires RequestScoped(request, ps)
    requires Binds(s.frame, ps) && Under(w, roots, s.active, RequestNeeds(s.frame, request))
    ensures Answer(w, s, request).0
    decreases Idle(w, s.active), 3, request
  {
    match request
    case Use(e) => TypePasses(w, roots, s, e, ps);
    case Call(n, arguments) =>
      EvalAllTotal(s.frame, ps, arguments);
      var key := Key(FunctionNamed(n), EvalAll(s.frame, arguments).value);
      NotGuarded(w, roots, s, key);
      ArgumentsPass(w, roots, s, arguments, ps);
      ArgumentsGrow(w, s, arguments);
      FunctionPasses(w, roots, ResolveArguments(w, s, arguments).1, n, key.arguments);
  }

  lemma {:induction false} BodyPasses(w: World, roots: set<Key>, s: State, body: seq<Request>, ps: seq<Name>)
    requires Kept(w, s) && WellScoped(w) && ObjectsScoped(w) && Tame(w, roots)
    requires BodyScoped(body, ps) && Binds(s.frame, ps) && Under(w, roots, s.active, BodyNeeds(s.frame, body))
    ensures CheckBody(w, s, body).0
    decreases Idle(w, s.active), 3, body
  {
    if body != [] {
      RequestPasses(w, roots, s, body[0], ps);
      BodyPasses(w, roots, Answer(w, s, body[0]).1, body[1..], ps);
    }
  }

  /** When no instance reaches another of its own template and none is refused for itself, the guard
      never fires: every order of the requests is accepted. */
  lemma TameIsAccepted(w: World, requests: seq<Request>)
    requires WellScoped(w) && ObjectsScoped(w) && BodyScoped(requests, [])
    requires Tame(w, BodyNeeds(map[], requests))
    ensures CheckBody(w, State({}, map[], map[], map[]), requests).0
  {
    var roots := BodyNeeds(map[], requests);
    forall k | k in roots ensures ReachedByAll(w, roots, {}, k) {
      ReachableRoot(w, roots, k);
    }
    BodyPasses(w, roots, State({}, map[], map[], map[]), requests, []);
  }

  // ----- every instance on its own -----

  /** Asked for alone, with nothing cached and nothing active, the instance is accepted. */
  predicate AcceptedAlone(w: World, k: Key) {
    match k.template
    case FunctionNamed(n) =>
      n in w.functions && |k.arguments| == |w.functions[n].parameters| &&
      SpecializeFunction(w, State({}, map[], map[], map[]), n, k.arguments).0
    case ObjectNamed(n) =>
      n in w.objects && |k.arguments| == |w.objects[n].parameters| &&
      SpecializeObject(w, State({}, map[], map[], map[]), n, k.arguments).0.Some?
  }

  /** No instance is added of a template that is active. */
  ghost predicate AddsOutside(active: set<Key>, before: State, after: State) {
    forall a, k | a in active && Cached(after, k) && !Cached(before, k) :: a.template != k.template
  }

  lemma AddsThen(active: set<Key>, a: State, b: State, c: State)
    requires AddsOutside(active, a, b) && AddsOutside(active, b, c)
    ensures AddsOutside(active, a, c)
  {
  }

  lemma {:induction false} TypeAdds(w: World, s: State, e: Expr)
    requires Kept(w, s)
    ensures AddsOutside(s.active, s, ResolveType(w, s, e).1)
    decreases Idle(w, s.active), 1, e
  {
    match e
    case PointerTo(element) => TypeAdds(w, s, element);
    case Instance(n, arguments) =>
      if n in w.objects && |arguments| == |w.objects[n].parameters| {
        ArgumentsAdd(w, s, arguments);
        var (ts, after) := ResolveArguments(w, s, arguments);
        if ts.Some? {
          ObjectAdds(w, after, n, ts.value);
          AddsThen(s.active, s, after, SpecializeObject(w, after, n, ts.value).1);
        }
      }
    case _ =>
  }

  lemma {:induction false} ArgumentsAdd(w: World, s: State, es: seq<Expr>)
    requires Kept(w, s)
    ensures AddsOutside(s.active, s, ResolveArguments(w, s, es).1)
    decreases Idle(w, s.active), 1, es
  {
    if es != [] {
      TypeAdds(w, s, es[0]);
      var (t, after) := ResolveType(w, s, es[0]);
      if t.Some? {
        ArgumentsAdd(w, after, es[1..]);
        AddsThen(s.active, s, after, ResolveArguments(w, after, es[1..]).1);
      }
    }
  }

  lemma {:induction false} MembersAdd(w: World, s: State, es: seq<Expr>)
    requires Kept(w, s)
    ensures AddsOutside(s.active, s, ResolveMembers(w, s, es).1)
    decreases Idle(w, s.active), 1, es
  {
    if es != [] {
      TypeAdds(w, s, es[0]);
      var after := ResolveType(w, s, es[0]).1;
      MembersAdd(w, after, es[1..]);
      AddsThen(s.active, s, after, ResolveMembers(w, after, es[1..]).1);
    }
  }

  lemma {:induction false} ObjectAdds(w: World, s: State, n: Name, arguments: seq<Type>)
    requires Kept(w, s) && n in w.objects && |arguments| == |w.objects[n].parameters|
    ensures AddsOutside(s.active, s, SpecializeObject(w, s, n, arguments).1)
    decreases Idle(w, s.active), 0, 0
  {
    var key := Key(ObjectNamed(n), arguments);
    if key !in s.objects && !ChangesArguments(s, key) {
      IdleShrinks(w, s, key);
      var entered := State(s.active + {key}, ParameterFrame(w.objects[n].parameters, arguments), s.functions,
                           s.objects[key := Provisional]);
      MembersAdd(w, entered, w.objects[n].members);
      AddedInside(s, key, entered, ResolveMembers(w, entered, w.objects[n].members).1,
                  SpecializeObject(w, s, n, arguments).1);
    }
  }

  /** What an instance entered past the guard adds, itself included, is outside what was active. */
  lemma AddedInside(s: State, key: Key, entered: State, last: State, after: State)
    requires !Cached(s, key) && !ChangesArguments(s, key) && key !in s.active
    requires forall k | Cached(entered, k) && k != key :: Cached(s, k)
    requires AddsOutside(s.active + {key}, entered, last)
    requires forall k | Cached(after, k) && k != key :: Cached(last, k)
    ensures AddsOutside(s.active, s, after)
  {
    forall a, k | a in s.active && Cached(after, k) && !Cached(s, k) ensures a.template != k.template {
      assert a in s.active + {key};
      if k == key { assert a != key; }
    }
  }

  lemma {:induction false} FunctionAdds(w: World, s: State, n: Name, arguments: seq<Type>)
    requires Kept(w, s) && n in w.functions && |arguments| == |w.functions[n].parameters|
    ensures AddsOutside(s.active, s, SpecializeFunction(w, s, n, arguments).1)
    decreases Idle(w, s.active), 2, 0
  {
    var key := Key(FunctionNamed(n), arguments);
    if key !in s.functions && !ChangesArguments(s, key) {
      var framed := s.(frame := MergedFrame(s.frame, ParameterFrame(w.functions[n].parameters, arguments)));
      var (ok, signed) := ResolveMembers(w, framed, w.functions[n].signature);
      var after := SpecializeFunction(w, s, n, arguments).1;
      MembersAdd(w, framed, w.functions[n].signature);
      if !ok || key in w.badSignatures {
        FunctionStops(w, s, n, arguments, key, framed, ok, signed);
      } else {
        FunctionStands(w, s, n, arguments, key, framed, ok, signed);
        InsideAdds(w, signed, key, n, after);
        AddsThen(s.active, framed, signed, after);
      }
    }
  }

  /** Past the cache and the guard, a function whose signature does not stand leaves what that
      cached. */
  lemma FunctionStops(w: World, s: State, n: Name, arguments: seq<Type>, key: Key, framed: State, ok: bool, signed: State)
    requires Kept(w, s) && n in w.functions && |arguments| == |w.functions[n].parameters|
    requires key == Key(FunctionNamed(n), arguments) && key !in s.functions && !ChangesArguments(s, key)
    requires framed == s.(frame := MergedFrame(s.frame, ParameterFrame(w.functions[n].parameters, arguments)))
    requires (ok, signed) == ResolveMembers(w, framed, w.functions[n].signature)
    requires !ok || key in w.badSignatures
    ensures SpecializeFunction(w, s, n, arguments) == (false, signed.(frame := s.frame))
  {
  }

  /** One whose signature stands leaves what its body cached, and itself. */
  lemma FunctionStands(w: World, s: State, n: Name, arguments: seq<Type>, key: Key, framed: State, ok: bool, signed: State)
    requires Kept(w, s) && n in w.functions && |arguments| == |w.functions[n].parameters|
    requires key == Key(FunctionNamed(n), arguments) && key !in s.functions && !ChangesArguments(s, key)
    requires framed == s.(frame := MergedFrame(s.frame, ParameterFrame(w.functions[n].parameters, arguments)))
    requires (ok, signed) == ResolveMembers(w, framed, w.functions[n].signature)
    requires ok && key !in w.badSignatures
    ensures Kept(w, Entered(signed, key)) && key !in signed.functions && !ChangesArguments(signed, key)
    ensures var last := CheckBody(w, Entered(signed, key), w.functions[n].body).1;
      var after := SpecializeFunction(w, s, n, arguments).1;
      after.objects == last.objects && after.functions.Keys <= last.functions.Keys + {key}
  {
    assert signed.active == s.active && key !in signed.functions && !ChangesArguments(signed, key);
    EnteredKept(w, signed, key);
  }

  lemma {:induction false} InsideAdds(w: World, signed: State, key: Key, n: Name, after: State)
    requires Kept(w, signed) && n in w.functions && key.template == FunctionNamed(n)
    requires key !in signed.functions && !ChangesArguments(signed, key)
    requires Kept(w, Entered(signed, key))
    requires var last := CheckBody(w, Entered(signed, key), w.functions[n].body).1;
      after.objects == last.objects && after.functions.Keys <= last.functions.Keys + {key}
    ensures AddsOutside(signed.active, signed, after)
    decreases Idle(w, signed.active), 1, 0
  {
    IdleShrinks(w, signed, key);
    BodyAdds(w, Entered(signed, key), w.functions[n].body);
    AddedInside(signed, key, Entered(signed, key), CheckBody(w, Entered(signed, key), w.functions[n].body).1, after);
  }

  lemma {:induction false} BodyAdds(w: World, s: State, body: seq<Request>)
    requires Kept(w, s)
    ensures AddsOutside(s.active, s, CheckBody(w, s, body).1)
    decreases Idle(w, s.active), 3, body
  {
    if body != [] {
      RequestAdds(w, s, body[0]);
      var after := Answer(w, s, body[0]).1;
      BodyAdds(w, after, body[1..]);
      AddsThen(s.active, s, after, CheckBody(w, after, body[1..]).1);
    }
  }

  lemma {:induction false} RequestAdds(w: World, s: State, request: Request)
    requires Kept(w, s)
    ensures AddsOutside(s.active, s, Answer(w, s, request).1)
    decreases Idle(w, s.active), 3, request
  {
    match request
    case Use(e) => TypeAdds(w, s, e);
    case Call(n, arguments) =>
      if n in w.functions {
        ArgumentsAdd(w, s, arguments);
        var (ts, after) := ResolveArguments(w, s, arguments);
        if ts.Some? && |arguments| == |w.functions[n].parameters| {
          FunctionAdds(w, after, n, ts.value);
          AddsThen(s.active, s, after, SpecializeFunction(w, after, n, ts.value).1);
        }
      }
  }

  /** An object accepted alone is good, has cached all it reaches, and reaches no other instance of
      its template: it was active throughout. */
  lemma ObjectAlone(w: World, key: Key, k: Key)
    requires WellScoped(w) && key.template.ObjectNamed? && AcceptedAlone(w, key) && Reachable(w, {key}, k)
    ensures Good(w, key) && (k.template == key.template ==> k == key)
  {
    var n, s := key.template.name, State({}, map[], map[], map[]);
    var after := SpecializeObject(w, s, n, key.arguments).1;
    IdleShrinks(w, s, key);
    var entered := State(s.active + {key}, ParameterFrame(w.objects[n].parameters, key.arguments), s.functions,
                         s.objects[key := Provisional]);
    MembersAdd(w, entered, w.objects[n].members);
    assert key in entered.active;
    ObjectGrows(w, s, n, key.arguments);
    AllCachedFrom(w, key, after, k);
    assert Cached(after, k);
    if k != key { assert Cached(ResolveMembers(w, entered, w.objects[n].members).1, k) && !Cached(entered, k); }
  }

  lemma FunctionAlone(w: World, key: Key, k: Key)
    requires WellScoped(w) && key.template.FunctionNamed? && AcceptedAlone(w, key) && Reachable(w, {key}, k)
    ensures Good(w, key) && (k.template == key.template ==> k == key)
  {
    var n, s := key.template.name, State({}, map[], map[], map[]);
    var after := SpecializeFunction(w, s, n, key.arguments).1;
    var framed := s.(frame := MergedFrame(s.frame, ParameterFrame(w.functions[n].parameters, key.arguments)));
    var signed := ResolveMembers(w, framed, w.functions[n].signature).1;
    IdleShrinks(w, signed, key);
    var entered := Entered(signed, key);
    BodyAdds(w, entered, w.functions[n].body);
    assert key in entered.active;
    FunctionGrows(w, s, n, key.arguments);
    AllCachedFrom(w, key, after, k);
  }

  lemma AllCachedFrom(w: World, key: Key, after: State, k: Key)
    requires Grown(w, State({}, map[], map[], map[]), after, {key}) && Reachable(w, {key}, k)
    ensures Cached(after, k)
  {
    var s := State({}, map[], map[], map[]);
    forall j | Cached(after, j) ensures AllCached(after, KeyNeeds(w, j)) {
      assert !Cached(s, j) && Sound(w, after, {key}, j);
    }
    var p :| Chain(w, p) && p[0] in {key} && p[|p| - 1] == k;
    ChainStaysCached(w, after, p);
  }

  /** What no order of the requests can upset is exactly what needs no order: the requests reach only
      good instances, none of them another of its own template, if and only if every instance they
      reach is accepted when asked for alone. */
  lemma TameExactly(w: World, roots: set<Key>)
    requires WellScoped(w) && ObjectsScoped(w)
    ensures Tame(w, roots) <==> forall k | Reachable(w, roots, k) :: AcceptedAlone(w, k)
  {
    if Tame(w, roots) {
      forall k | Reachable(w, roots, k) ensures AcceptedAlone(w, k) {
        var s := State({}, map[], map[], map[]);
        NotGuarded(w, roots, s, k);
        if k.template.FunctionNamed? {
          FunctionPasses(w, roots, s, k.template.name, k.arguments);
        } else {
          ObjectPasses(w, roots, s, k.template.name, k.arguments);
        }
      }
    } else if forall k | Reachable(w, roots, k) :: AcceptedAlone(w, k) {
      forall k | Reachable(w, roots, k) ensures Good(w, k) {
        ReachableRoot(w, {k}, k);
        AloneIsGood(w, k, k);
      }
      forall j, k | Reachable(w, roots, j) && Reachable(w, {j}, k) && j.template == k.template ensures j == k {
        AloneIsGood(w, j, k);
      }
    }
  }

  lemma AloneIsGood(w: World, key: Key, k: Key)
    requires WellScoped(w) && AcceptedAlone(w, key) && Reachable(w, {key}, k)
    ensures Good(w, key) && (k.template == key.template ==> k == key)
  {
    if key.template.FunctionNamed? { FunctionAlone(w, key, k); } else { ObjectAlone(w, key, k); }
  }

  // ----- every request is answered -----

  /** A body's requests are answered one after the other, refused ones or not. */
  lemma {:induction false} EveryRequestIsAnswered(w: World, s: State, first: seq<Request>, second: seq<Request>)
    requires Kept(w, s)
    ensures var (one, middle) := CheckBody(w, s, first);
      var (two, last) := CheckBody(w, middle, second);
      CheckBody(w, s, first + second) == (one && two, last)
    decreases |first|
  {
    if first == [] {
      assert first + second == second;
    } else {
      assert (first + second)[1..] == first[1..] + second;
      EveryRequestIsAnswered(w, Answer(w, s, first[0]).1, first[1..], second);
    }
  }

  /** So are a template's members, */
  lemma {:induction false} EveryMemberIsResolved(w: World, s: State, first: seq<Expr>, second: seq<Expr>)
    requires Kept(w, s)
    ensures var (one, middle) := ResolveMembers(w, s, first);
      var (two, last) := ResolveMembers(w, middle, second);
      ResolveMembers(w, s, first + second) == (one && two, last)
    decreases |first|
  {
    if first == [] {
      assert first + second == second;
    } else {
      assert (first + second)[1..] == first[1..] + second;
      EveryMemberIsResolved(w, ResolveType(w, s, first[0]).1, first[1..], second);
    }
  }

  /** while arguments stop at the first that does not resolve. */
  lemma {:induction false} ArgumentsStop(w: World, s: State, first: seq<Expr>, e: Expr, rest: seq<Expr>)
    requires Kept(w, s) && ResolveArguments(w, s, first).0.Some?
    requires ResolveType(w, ResolveArguments(w, s, first).1, e).0.None?
    ensures ResolveArguments(w, s, first + [e] + rest) == (None, ResolveType(w, ResolveArguments(w, s, first).1, e).1)
    decreases |first|
  {
    var all := first + [e] + rest;
    if first == [] {
      assert all[0] == e && all[1..] == rest;
    } else {
      assert all[0] == first[0] && all[1..] == first[1..] + [e] + rest;
      ArgumentsStop(w, ResolveType(w, s, first[0]).1, first[1..], e, rest);
    }
  }

  // ----- what the guard and the caches do not promise -----

  /** A refused function instance stays in the cache exactly when it got as far as its body - past
      the guard and its signature - and the next request for it then succeeds. */
  lemma RefusedBodyIsRemembered(w: World, s: State, n: Name, arguments: seq<Type>)
    requires Kept(w, s) && n in w.functions && |arguments| == |w.functions[n].parameters|
    requires !SpecializeFunction(w, s, n, arguments).0
    ensures var after := SpecializeFunction(w, s, n, arguments).1;
      var key := Key(FunctionNamed(n), arguments);
      var framed := s.(frame := MergedFrame(s.frame, ParameterFrame(w.functions[n].parameters, arguments)));
      (key in after.functions <==>
        !ChangesArguments(s, key) && ResolveMembers(w, framed, w.functions[n].signature).0 && key !in w.badSignatures) &&
      (key in after.functions ==> SpecializeFunction(w, after, n, arguments) == (true, after))
  {
  }

  /** A refused object instance does not stay, and the next request starts afresh: it is refused
      again if the guard or the instance itself was the reason, and otherwise its members decide. */
  lemma RefusedObjectIsForgotten(w: World, s: State, n: Name, arguments: seq<Type>)
    requires Kept(w, s) && n in w.objects && |arguments| == |w.objects[n].parameters|
    requires SpecializeObject(w, s, n, arguments).0.None?
    ensures var key, after := Key(ObjectNamed(n), arguments), SpecializeObject(w, s, n, arguments).1;
      && key !in after.objects
      && (ChangesArguments(s, key) || key in w.badBodies ==> SpecializeObject(w, after, n, arguments).0.None?)
  {
  }

  /** J of any type holds a pointer to J of type 0, and R of any type holds J of types 1 and 0. */
  function Nesting(): World {
    World(map[], map["J" := ObjectTemplate(["T"], [PointerTo(Instance("J", [Written(0)]))]),
                     "R" := ObjectTemplate(["T"], [Instance("J", [Written(1)]), Instance("J", [Written(0)])])], {}, {})
  }

  function J(id: nat): Key {
    Key(ObjectNamed("J"), [Scalar(id)])
  }

  lemma OneMember(w: World, s: State, e: Expr)
    requires Kept(w, s)
    ensures var (t, after) := ResolveType(w, s, e); ResolveMembers(w, s, [e]) == (t.Some?, after)
  {
    var (t, after) := ResolveType(w, s, e);
    assert [e][1..] == [] && ResolveMembers(w, after, []) == (true, after);
  }

  lemma TwoMembers(w: World, s: State, e: Expr, f: Expr)
    requires Kept(w, s)
    ensures var (t, middle) := ResolveType(w, s, e);
      var (u, after) := ResolveType(w, middle, f);
      ResolveMembers(w, s, [e, f]) == (t.Some? && u.Some?, after)
  {
    assert [e, f][1..] == [f];
    OneMember(w, ResolveType(w, s, e).1, f);
  }

  lemma AskJ(s: State, id: nat)
    requires Kept(Nesting(), s)
    ensures ResolveType(Nesting(), s, Instance("J", [Written(id)])) == SpecializeObject(Nesting(), s, "J", [Scalar(id)])
  {
    OneArgument(Nesting(), s, Written(id), Scalar(id));
  }

  /** J entered asks for J of type 0: that is itself, or cached, or changes its arguments. */
  lemma InsideJ(s: State, id: nat)
    requires Kept(Nesting(), s) && (forall k | k in s.active :: k.template != ObjectNamed("J")) && J(id) !in s.objects
    ensures var entered := State(s.active + {J(id)}, ParameterFrame(["T"], [Scalar(id)]), s.functions,
                                 s.objects[J(id) := Provisional]);
      Kept(Nesting(), entered) && !ChangesArguments(s, J(id)) &&
      ResolveMembers(Nesting(), entered, [PointerTo(Instance("J", [Written(0)]))]) ==
        (id == 0 || J(0) in s.objects, entered)
  {
    IdleShrinks(Nesting(), s, J(id));
    var entered := State(s.active + {J(id)}, ParameterFrame(["T"], [Scalar(id)]), s.functions,
                         s.objects[J(id) := Provisional]);
    OneMember(Nesting(), entered, PointerTo(Instance("J", [Written(0)])));
    AskJ(entered, 0);
    if id != 0 && J(0) !in s.objects {
      assert J(id) in entered.active && J(id) != J(0) && ChangesArguments(entered, J(0));
    }
  }

  /** J passes where J of type 0 is cached, and is refused, leaving no trace, where it is not and
      another type was asked for. */
  lemma JPasses(s: State, id: nat)
    requires Kept(Nesting(), s) && (forall k | k in s.active :: k.template != ObjectNamed("J")) && J(id) !in s.objects
    ensures var (t, after) := SpecializeObject(Nesting(), s, "J", [Scalar(id)]);
      if id == 0 || J(0) in s.objects
      then t.Some? && after == s.(objects := s.objects[J(id) := Complete])
      else t.None? && after == s.(objects := s.objects - {J(id)})
  {
    InsideJ(s, id);
    var key := J(id);
    assert s.objects[key := Provisional][key := Complete] == s.objects[key := Complete];
    assert s.objects[key := Provisional] - {key} == s.objects - {key};
  }

  /** R of type 0. */
  function R(): Key {
    Key(ObjectNamed("R"), [Scalar(0)])
  }

  /** R entered, with some instances of J cached. */
  function InsideR(objects: map<Key, Status>): State {
    State({R()}, ParameterFrame(["T"], [Scalar(0)]), map[], objects[R() := Provisional])
  }

  lemma AskR(s: State)
    requires Kept(Nesting(), s) && s.active == {} && s.frame == map[] && s.functions == map[]
    requires R() !in s.objects
    ensures var key := R();
      Kept(Nesting(), InsideR(s.objects)) &&
      var (ok, last) := ResolveMembers(Nesting(), InsideR(s.objects), [Instance("J", [Written(1)]), Instance("J", [Written(0)])]);
      var (t, after) := SpecializeObject(Nesting(), s, "R", [Scalar(0)]);
      t.Some? == ok && after.active == {} && after.frame == map[] && after.functions == map[] &&
      (!ok ==> after.objects == last.objects - {key})
  {
    IdleShrinks(Nesting(), s, R());
    assert s.active + {R()} == {R()};
  }

  /** What R asks for, one after the other. */
  lemma InsideRAsks(s: State)
    requires Kept(Nesting(), s)
    ensures var (t, middle) := SpecializeObject(Nesting(), s, "J", [Scalar(1)]);
      var (u, last) := SpecializeObject(Nesting(), middle, "J", [Scalar(0)]);
      ResolveMembers(Nesting(), s, [Instance("J", [Written(1)]), Instance("J", [Written(0)])]) == (t.Some? && u.Some?, last)
  {
    TwoMembers(Nesting(), s, Instance("J", [Written(1)]), Instance("J", [Written(0)]));
    AskJ(s, 1);
    AskJ(SpecializeObject(Nesting(), s, "J", [Scalar(1)]).1, 0);
  }

  /** The members of R do not pass while J of type 0 is not cached, but they cache it. */
  lemma InsideRFirst(s: State)
    requires s == InsideR(map[])
    ensures Kept(Nesting(), s) &&
      ResolveMembers(Nesting(), s, [Instance("J", [Written(1)]), Instance("J", [Written(0)])]) ==
        (false, s.(objects := s.objects[J(0) := Complete]))
  {
    assert Kept(Nesting(), s);
    InsideRAsks(s);
    FirstJ(s);
    ThenJ(s);
  }

  lemma FirstJ(s: State)
    requires Kept(Nesting(), s) && s == InsideR(map[])
    ensures SpecializeObject(Nesting(), s, "J", [Scalar(1)]) == (None, s)
  {
    JPasses(s, 1);
    assert s.objects - {J(1)} == s.objects;
  }

  lemma ThenJ(s: State)
    requires Kept(Nesting(), s) && s == InsideR(map[])
    ensures SpecializeObject(Nesting(), s, "J", [Scalar(0)]).0.Some?
    ensures SpecializeObject(Nesting(), s, "J", [Scalar(0)]).1 == s.(objects := s.objects[J(0) := Complete])
  {
    JPasses(s, 0);
  }

  lemma InsideRAgain(s: State)
    requires s == InsideR(map[J(0) := Complete])
    ensures Kept(Nesting(), s) &&
      ResolveMembers(Nesting(), s, [Instance("J", [Written(1)]), Instance("J", [Written(0)])]).0
  {
    InsideRAsks(s);
    JPasses(s, 1);
  }

  /** R is refused at its first request, since J of type 1 asks for J of type 0 while active; but
      that request went on to J of type 0, and once that is cached the same request passes. */
  lemma RefusedObjectPassesLater()
    ensures var (first, after) := SpecializeObject(Nesting(), Empty(), "R", [Scalar(0)]);
      first.None? && after.active == {} && SpecializeObject(Nesting(), after, "R", [Scalar(0)]).0.Some?
  {
    InsideRFirst(InsideR(Empty().objects));
    AskR(Empty());
    var after := SpecializeObject(Nesting(), Empty(), "R", [Scalar(0)]).1;
    assert after.objects == map[J(0) := Complete];
    InsideRAgain(InsideR(after.objects));
    AskR(after);
  }

  /** f<T> calls g<T>, and g<T> calls f of the type Written(0). */
  function Swapping(): World {
    World(map["f" := FunctionTemplate(["T"], [], [Call("g", [Parameter("T")])]),
              "g" := FunctionTemplate(["T"], [], [Call("f", [Written(0)])])], map[], {}, {})
  }

  function Ask(id: nat): Request {
    Call("f", [Written(id)])
  }

  function Empty(): State {
    State({}, map[], map[], map[])
  }

  function Of(name: Name, id: nat): Key {
    Key(FunctionNamed(name), [Scalar(id)])
  }

  lemma OneArgument(w: World, s: State, e: Expr, t: Type)
    requires Kept(w, s) && ResolveType(w, s, e) == (Some(t), s)
    ensures ResolveArguments(w, s, [e]) == (Some([t]), s)
  {
    assert [e][1..] == [] && ResolveArguments(w, s, []) == (Some([]), s) && [t] + [] == [t];
  }

  /** A body of one call is that call. */
  lemma OneCall(w: World, s: State, n: Name, e: Expr, t: Type)
    requires Kept(w, s) && ResolveType(w, s, e) == (Some(t), s)
    requires n in w.functions && |w.functions[n].parameters| == 1
    ensures CheckBody(w, s, [Call(n, [e])]) == SpecializeFunction(w, s, n, [t])
  {
    OneArgument(w, s, e, t);
    assert [Call(n, [e])][1..] == [];
    var (ok, after) := SpecializeFunction(w, s, n, [t]);
    assert CheckBody(w, after, []) == (true, after);
  }

  lemma GuardedG(s: State, id: nat)
    requires Kept(Swapping(), s) && !ChangesArguments(s, Of("g", id)) && Of("g", id) !in s.functions
    requires Of("f", 0) in s.functions
    ensures SpecializeFunction(Swapping(), s, "g", [Scalar(id)]).0
  {
    var w := Swapping();
    var framed := s.(frame := MergedFrame(s.frame, ParameterFrame(["T"], [Scalar(id)])));
    assert ResolveMembers(w, framed, []) == (true, framed);
    IdleShrinks(w, framed, Of("g", id));
    var entered := framed.(active := framed.active + {Of("g", id)}, functions := framed.functions[Of("g", id) := Provisional]);
    OneCall(w, entered, "f", Written(0), Scalar(0));
  }

  /** f of any type passes once f of type 0 is there, or is what is asked for. */
  lemma PassesF(s: State, id: nat)
    requires Kept(Swapping(), s) && s.active == {} && (id == 0 || Of("f", 0) in s.functions)
    ensures SpecializeFunction(Swapping(), s, "f", [Scalar(id)]).0
    ensures Of("f", id) in SpecializeFunction(Swapping(), s, "f", [Scalar(id)]).1.functions
  {
    var w, key := Swapping(), Of("f", id);
    if key !in s.functions {
      var framed := s.(frame := MergedFrame(s.frame, ParameterFrame(["T"], [Scalar(id)])));
      assert ResolveMembers(w, framed, []) == (true, framed);
      IdleShrinks(w, framed, key);
      var entered := framed.(active := {key}, functions := framed.functions[key := Provisional]);
      assert framed.active + {key} == {key};
      OneCall(w, entered, "g", Parameter("T"), Scalar(id));
      if Of("g", id) !in entered.functions {
        GuardedG(entered, id);
      }
    }
  }

  /** While f of type 1 is active and f of type 0 is not cached, g of type 1 is refused. */
  lemma FailsG(s: State)
    requires Kept(Swapping(), s) && s.active == {Of("f", 1)}
    requires Of("f", 0) !in s.functions && Of("g", 1) !in s.functions
    ensures !SpecializeFunction(Swapping(), s, "g", [Scalar(1)]).0
  {
    var w, g := Swapping(), Of("g", 1);
    var framed := s.(frame := MergedFrame(s.frame, ParameterFrame(["T"], [Scalar(1)])));
    assert ResolveMembers(w, framed, []) == (true, framed);
    IdleShrinks(w, framed, g);
    var entered := framed.(active := framed.active + {g}, functions := framed.functions[g := Provisional]);
    OneCall(w, entered, "f", Written(0), Scalar(0));
    assert Of("f", 1) in entered.active && Of("f", 1) != Of("f", 0);
    assert ChangesArguments(entered, Of("f", 0));
  }

  /** f of type 1 alone, with nothing cached, is refused. */
  lemma FailsF()
    ensures !SpecializeFunction(Swapping(), Empty(), "f", [Scalar(1)]).0
  {
    var w, f := Swapping(), Of("f", 1);
    var framed := Empty().(frame := MergedFrame(map[], ParameterFrame(["T"], [Scalar(1)])));
    assert ResolveMembers(w, framed, []) == (true, framed);
    IdleShrinks(w, framed, f);
    var entered := framed.(active := framed.active + {f}, functions := framed.functions[f := Provisional]);
    OneCall(w, entered, "g", Parameter("T"), Scalar(1));
    FailsG(entered);
  }

  /** Which requests are accepted depends on their order: asked for f of type 1 first, g of type 1
      asks for f of type 0 while f is active, and is refused; asked for f of type 0 first, both
      pass. */
  lemma OrderDecides()
    ensures CheckBody(Swapping(), Empty(), [Ask(0), Ask(1)]).0
    ensures !CheckBody(Swapping(), Empty(), [Ask(1), Ask(0)]).0
  {
    var w, s := Swapping(), Empty();
    assert [Ask(0), Ask(1)][1..] == [Ask(1)] && [Ask(1), Ask(0)][1..] == [Ask(0)];
    OneArgument(w, s, Written(0), Scalar(0));
    OneArgument(w, s, Written(1), Scalar(1));
    PassesF(s, 0);
    var after := SpecializeFunction(w, s, "f", [Scalar(0)]).1;
    assert Answer(w, s, Ask(0)) == (true, after);
    PassesF(after, 1);
    OneCall(w, after, "f", Written(1), Scalar(1));
    FailsF();
    assert !Answer(w, s, Ask(1)).0;
  }
}
