/**
 * Symbolic expressions used for zone starts and lengths and in memory
 * constraints: a tree of register accesses, indirections, domain values
 * and operations. Domain values and the plugin's operations are opaque;
 * the model gives the tree an integer meaning through an evaluator whose
 * register and memory readings are parameters.
 */
module Expressions {
  import opened Wrappers
  import opened JsonArguments

  /** The node kinds, as reported by getTypeExpression. */
  datatype TypeExpression = TERegisterAccess | TEIndirection | TEDomain | TEOperation

  /** Types a node reports; the plugin's other types are kept by number. */
  datatype DomainType = DTUndefined | DTInteger | DTForeign(code: nat)

  /** An opaque domain value: its type and the integer it stands for. */
  datatype DomainValue = DomainValue(valueType: DomainType, number: int)

  /**
   * Operation codes. The binary operations built by += and -= are the
   * plugin's signed plus and minus; every other code is kept by number.
   */
  datatype OperationCode = PlusSigned | MinusSigned | OtherCode(code: int)

  /**
   * A possibly null pointer to a node. Null stands for an expression
   * without content and for an unset child.
   */
  datatype Expr =
    | Null
    | RegisterAccess(registerName: string)
    | Indirection(address: Expr, sizeInBytes: int)
    | Domain(value: DomainValue)
    | Operation(code: OperationCode, dtType: DomainType, first: Expr, second: Expr)

  /** getTypeExpression: each node kind reports its own tag. */
  function GetTypeExpression(e: Expr): (t: TypeExpression)
    requires !e.Null?
    ensures t == TERegisterAccess <==> e.RegisterAccess?
    ensures t == TEIndirection <==> e.Indirection?
    ensures t == TEDomain <==> e.Domain?
    ensures t == TEOperation <==> e.Operation?
  {
    match e
    case RegisterAccess(_) => TERegisterAccess
    case Indirection(_, _) => TEIndirection
    case Domain(_) => TEDomain
    case Operation(_, _, _, _) => TEOperation
  }

  /** getType: registers and indirections are integers, the rest forward. */
  function GetType(e: Expr): (t: DomainType)
    requires !e.Null?
    ensures (e.RegisterAccess? || e.Indirection?) ==> t == DTInteger
    ensures e.Domain? ==> t == e.value.valueType
    ensures e.Operation? ==> t == e.dtType
  {
    match e
    case RegisterAccess(_) => DTInteger
    case Indirection(_, _) => DTInteger
    case Domain(v) => v.valueType
    case Operation(_, ty, _, _) => ty
  }

  /**
   * Integer meaning of an expression, given the value of each register and
   * the value loaded at an address for a size. A null pointer and an
   * operation that is not plus or minus have no meaning here.
   */
  function Eval(e: Expr, registers: string -> int, load: (int, int) -> int): Option<int>
  {
    match e
    case Null => None
    case RegisterAccess(name) => Some(registers(name))
    case Indirection(address, size) =>
      (match Eval(address, registers, load)
       case Some(a) => Some(load(a, size))
       case None => None)
    case Domain(v) => Some(v.number)
    case Operation(code, _, first, second) =>
      (match (code, Eval(first, registers, load), Eval(second, registers, load))
       case (PlusSigned, Some(a), Some(b)) => Some(a + b)
       case (MinusSigned, Some(a), Some(b)) => Some(a - b)
       case _ => None)
  }

  /** An expression standing for a known integer. */
  function Constant(n: int): (e: Expr)
    ensures forall registers, load :: Eval(e, registers, load) == Some(n)
  {
    Domain(DomainValue(DTInteger, n))
  }

  /**
   * operator+=: the content becomes a fresh operation node over the old
   * content and the source's content. The fresh node's type is left
   * undefined.
   */
  function PlusAssign(a: Expr, b: Expr): (r: Expr)
    ensures !r.Null?
    ensures GetTypeExpression(r) == TEOperation
    ensures GetType(r) == DTUndefined
    ensures forall registers, load ::
      Eval(r, registers, load) ==
        (if Eval(a, registers, load).Some? && Eval(b, registers, load).Some?
         then Some(Eval(a, registers, load).value + Eval(b, registers, load).value)
         else None)
  {
    Operation(PlusSigned, DTUndefined, a, b)
  }

  /** operator-=: as +=, with the signed minus. */
  function MinusAssign(a: Expr, b: Expr): (r: Expr)
    ensures !r.Null?
    ensures GetTypeExpression(r) == TEOperation
    ensures GetType(r) == DTUndefined
    ensures forall registers, load ::
      Eval(r, registers, load) ==
        (if Eval(a, registers, load).Some? && Eval(b, registers, load).Some?
         then Some(Eval(a, registers, load).value - Eval(b, registers, load).value)
         else None)
  {
    Operation(MinusSigned, DTUndefined, a, b)
  }

  /** Subtracting then adding back the same expression restores the value. */
  lemma MinusThenPlus(a: Expr, b: Expr, registers: string -> int, load: (int, int) -> int)
    requires Eval(a, registers, load).Some? && Eval(b, registers, load).Some?
    ensures Eval(PlusAssign(MinusAssign(a, b), b), registers, load) == Eval(a, registers, load)
  {
  }

  /** clear: the expression is left without content and has no meaning. */
  function Clear(e: Expr): (r: Expr)
    ensures forall registers, load :: Eval(r, registers, load).None?
  {
    Null
  }

  // ---------------------------------------------------------------------
  // Node kind text codec

  /** The kind names used as the "type" of an expression node in JSON. */
  function TextFromArgument(t: TypeExpression): (s: string)
    ensures |s| > 0
  {
    match t
    case TERegisterAccess => "register"
    case TEIndirection => "indirect"
    case TEDomain => "domain"
    case TEOperation => "operation"
  }

  /** A freshly allocated node of the given kind, as the reader creates it. */
  function NewNode(t: TypeExpression): (e: Expr)
    ensures !e.Null? && GetTypeExpression(e) == t
  {
    match t
    case TERegisterAccess => RegisterAccess("")
    case TEIndirection => Indirection(Null, 0)
    case TEDomain => Domain(DomainValue(DTUndefined, 0))
    case TEOperation => Operation(OtherCode(0), DTUndefined, Null, Null)
  }

  datatype ArgumentRead = ArgumentRead(argument: Expr, diag: Diagnostics, ok: bool)

  /**
   * setArgumentFromText: a kind name replaces the argument with a fresh
   * node of that kind; other text keeps the argument, records
   * "unknown type for expression" and answers whether reading may go on.
   */
  function ArgumentFromText(argument: Expr, text: string, d: Diagnostics): (r: ArgumentRead)
    ensures (exists t :: TextFromArgument(t) == text) ==>
      r.ok && r.diag == d && !r.argument.Null? &&
      TextFromArgument(GetTypeExpression(r.argument)) == text
    ensures (forall t :: TextFromArgument(t) != text) ==>
      r.argument == argument &&
      r.diag == AddErrorMessage(d, "unknown type for expression").diag &&
      r.ok == AddErrorMessage(d, "unknown type for expression").proceed
  {
    if text == "register" then ArgumentRead(NewNode(TERegisterAccess), d, true)
    else if text == "indirect" then ArgumentRead(NewNode(TEIndirection), d, true)
    else if text == "domain" then ArgumentRead(NewNode(TEDomain), d, true)
    else if text == "operation" then ArgumentRead(NewNode(TEOperation), d, true)
    else
      var logged := AddErrorMessage(d, "unknown type for expression");
      ArgumentRead(argument, logged.diag, logged.proceed)
  }

  /** Writing a node's kind and reading it back yields a node of the same kind. */
  lemma KindRoundTrip(e: Expr, argument: Expr, d: Diagnostics)
    requires !e.Null?
    ensures var r := ArgumentFromText(argument, TextFromArgument(GetTypeExpression(e)), d);
      r.ok && r.diag == d && GetTypeExpression(r.argument) == GetTypeExpression(e)
  {
  }

  /** The four kind names are distinct. */
  lemma KindTextInjective(t: TypeExpression, u: TypeExpression)
    ensures TextFromArgument(t) == TextFromArgument(u) ==> t == u
  {
  }
}
