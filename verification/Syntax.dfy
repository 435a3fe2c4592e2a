/** The statement forms the flow analysis distinguishes, with the expression detail it never
    looks at removed. A binding is the identity of one declared slot; a type is the set of its
    canonical union members, so a one-member type is not a union and `{}` is the zero type. */
module Syntax {

  /** Zero names no binding. */
  type BindingId = nat

  type Kind = nat
  const NIL: Kind := 0

  type Type = set<Kind>
  const NO_TYPE: Type := {}

  /** The declared type of every slot. */
  type Slots = map<BindingId, Type>

  /** `Copy` is an initializer that directly reads a pointer binding into a pointer slot;
      every other initializer produces a value the analysis knows nothing about. */
  datatype Init = Copy(source: BindingId) | Other

  /** A condition may take writable addresses while it evaluates (`Opaque`); the two tests
      read one bare binding. */
  datatype Cond =
    | Opaque(exposes: seq<BindingId>)
    | NilTest(operand: BindingId, equal: bool)
    | MemberTest(operand: BindingId, member: Kind)

  datatype Stmt =
    | Declare(binding: BindingId, trackable: bool, init: Init)
    | Assign(binding: BindingId, init: Init)
    | Free(binding: BindingId)
    | Deref(binding: BindingId)
    | Expose(binding: BindingId)
    | DeferFree(binding: BindingId)
    | Return
    | Break
    | Continue
    | If(cond: Cond, thn: seq<Stmt>, elifs: seq<Branch>, els: Else)
    | While(guard: Cond, loop: seq<Stmt>)
    | For(each: seq<Stmt>)
    | Unsafe(region: seq<Stmt>)

  datatype Branch = Branch(cond: Cond, body: seq<Stmt>)

  datatype Else = NoElse | Else(body: seq<Stmt>)

  /** The operand a `Copy` reads, or zero: what directPointerBinding returns. */
  function DirectSource(init: Init): BindingId {
    match init
    case Copy(source) => source
    case Other => 0
  }

  predicate IsUnion(t: Type) {
    |t| >= 2
  }

  predicate Simple(stmt: Stmt) {
    !stmt.If? && !stmt.While? && !stmt.For? && !stmt.Unsafe?
  }
}
