/**
 * The operators of domain-value literals (DomainNode::Operator and
 * DomainNode::OperatorStack): the precedence/associativity/arity table,
 * the operator stack that reduces on precedence, and the reading of an
 * operation node's code from its text (OperationNode::setCodeFromText).
 *
 * Domain values are opaque (type parameter V); the plugin's unary minus,
 * merge and type query are parameters.
 */
module ExprOperators {
  import opened Wrappers
  import opened JsonArguments
  import Expressions

  // ---------------------------------------------------------------------
  // The operator table

  datatype OperatorType = OTUndefined | UnaryPlus | UnaryMinus | Merge | MergeSymbolic | Interval

  datatype Precedence = PUndefined | PMerge | PUnary | PPostFix

  /** Precedences in their declaration order: merge binds loosest. */
  function Rank(p: Precedence): (n: nat)
    ensures n <= 3
    ensures n == 0 <==> p == PUndefined
  {
    match p
    case PUndefined => 0 case PMerge => 1 case PUnary => 2 case PPostFix => 3
  }

  datatype Shape = Shape(precedence: Precedence, rightAssociative: bool)

  /**
   * Operator::setType: the precedence and associativity of each operator
   * type. The source asserts that the precedence is defined, which fails
   * for the undefined and the symbolic-merge types (None here).
   */
  function SetType(t: OperatorType): (r: Option<Shape>)
  {
    match t
    case UnaryPlus => Some(Shape(PUnary, true))
    case UnaryMinus => Some(Shape(PUnary, true))
    case Merge => Some(Shape(PMerge, false))
    case Interval => Some(Shape(PPostFix, false))
    case _ => None
  }

  /** Operator::queryArgumentsNumber. */
  function ArgumentsNumber(t: OperatorType): (n: nat)
  {
    if t == Merge || t == MergeSymbolic then 2
    else if t == UnaryPlus || t == UnaryMinus then 1
    else 0
  }

  /** Operator::queryOperatorName: the three operators that have a spelling. */
  function OperatorName(t: OperatorType): (s: string)
  {
    match t
    case UnaryPlus => "+" case UnaryMinus => "-" case Merge => "vv"
    case _ => ""
  }

  /**
   * The table agrees with itself: the operators setType accepts are the
   * unary ones (unary precedence, right-associative, one argument), merge
   * (merge precedence, left-associative, two arguments) and the interval
   * (postfix precedence, left-associative, applied apart); and the named
   * operators have distinct names.
   */
  lemma OperatorTableConsistent(t: OperatorType)
    ensures SetType(t).Some? ==> (SetType(t).value.rightAssociative <==> ArgumentsNumber(t) == 1)
    ensures SetType(t).Some? ==> (SetType(t).value.precedence == PMerge <==> ArgumentsNumber(t) == 2)
    ensures SetType(t).Some? ==> (SetType(t).value.precedence == PPostFix <==> ArgumentsNumber(t) == 0)
    ensures SetType(t).Some? <==> t in {UnaryPlus, UnaryMinus, Merge, Interval}
    ensures SetType(t).Some? ==> Rank(SetType(t).value.precedence) > 0
    ensures ArgumentsNumber(t) == 1 ==> SetType(t) == Some(Shape(PUnary, true))
    ensures OperatorName(t) != "" ==> ArgumentsNumber(t) > 0
  {
  }

  /** Each spelled operator is told apart by its name. */
  lemma OperatorNamesDistinct(t: OperatorType, u: OperatorType)
    requires OperatorName(t) != "" && OperatorName(t) == OperatorName(u)
    ensures t == u
  {
  }

  // ---------------------------------------------------------------------
  // Operators on the stack

  /** The plugin's type of a domain value; a missing value has the undefined type. */
  datatype DomainKind = KUndefined | KBit | KInteger | KFloating | KOther

  /** What the stack needs from the value domain. */
  datatype Domain<!V> = Domain(kindOf: V -> DomainKind, negate: V -> V, merge: (V, V) -> V)

  function KindOf<V>(dom: Domain<V>, v: Option<V>): DomainKind
  {
    if v.Some? then dom.kindOf(v.value) else KUndefined
  }

  /**
   * An operator on the stack: its type (OTUndefined for the placeholder
   * that only carries an argument), precedence, associativity, the count
   * of sub-expressions still to come, its two argument slots and the
   * symbolic flag.
   */
  datatype Operator<V> = Operator(kind: OperatorType, shape: Shape, left: nat,
                                  first: Option<V>, second: Option<V>, symbolic: bool)

  predicate IsValid<V>(op: Operator<V>) { op.kind != OTUndefined }
  predicate IsFinished<V>(op: Operator<V>) { op.left == 0 }

  /** A fresh operator of the type, expecting `left` sub-expressions. */
  function NewOperator<V>(t: OperatorType, left: nat): (r: Option<Operator<V>>)
    ensures r.Some? <==> SetType(t).Some? && left < 4
    ensures r.Some? ==> r.value.kind == t && r.value.left == left && r.value.shape == SetType(t).value
    ensures r.Some? ==> r.value.first.None? && r.value.second.None?
  {
    if SetType(t).Some? && left < 4 then Some(Operator(t, SetType(t).value, left, None, None, false)) else None
  }

  /** The argument-holding placeholder pushLastArgument creates on an empty stack. */
  function Placeholder<V>(): Operator<V>
  {
    Operator(OTUndefined, Shape(PUndefined, false), 0, None, None, false)
  }

  /**
   * absorbLastArgument: stores the value and counts one sub-expression
   * less. The intended slot is the second one when the first is already
   * taken; as written, the first slot is overwritten when it is taken.
   * None when no sub-expression was expected.
   */
  function AbsorbLast<V>(op: Operator<V>, v: V, asWritten: bool): (r: Option<Operator<V>>)
    ensures r.Some? <==> op.left > 0
    ensures r.Some? ==> r.value.left == op.left - 1 && r.value.kind == op.kind && r.value.shape == op.shape
    ensures r.Some? && !asWritten ==> (op.first.None? ==> r.value.first == Some(v) && r.value.second == op.second)
    ensures r.Some? && !asWritten ==> (op.first.Some? ==> r.value.first == op.first && r.value.second == Some(v))
    ensures r.Some? && asWritten ==> (op.first.Some? ==> r.value.first == Some(v) && r.value.second == op.second)
    ensures r.Some? && asWritten ==> (op.first.None? ==> r.value.first == op.first && r.value.second == Some(v))
  {
    if op.left == 0 then None
    else
      var takeFirst := if asWritten then op.first.Some? else op.first.None?;
      if takeFirst then Some(op.(first := Some(v), left := op.left - 1))
      else Some(op.(second := Some(v), left := op.left - 1))
  }

  /**
   * extractLastArgument: takes the second argument if there is one, the
   * first otherwise, and counts one more sub-expression to come. None
   * when three are already expected.
   */
  function ExtractLast<V>(op: Operator<V>): (r: Option<(Option<V>, Operator<V>)>)
    ensures r.Some? <==> op.left < 3
    ensures r.Some? ==> r.value.1.left == op.left + 1
    ensures r.Some? ==> r.value.0 == (if op.second.Some? then op.second else op.first)
    ensures r.Some? && op.second.Some? ==> r.value.1.second.None? && r.value.1.first == op.first
    ensures r.Some? && op.second.None? ==> r.value.1.first.None?
  {
    if op.left >= 3 then None
    else if op.second.Some? then Some((op.second, op.(second := None, left := op.left + 1)))
    else Some((op.first, op.(first := None, left := op.left + 1)))
  }

  /** The value an application produced (None: invalid), with the diagnostics. */
  datatype Applied<V> = Applied(value: Option<V>, diag: Diagnostics) | ApplyAborted

  /** Whether the plugin has binary operations for the kind (bits, multi-bit integers, floating point). */
  predicate IsArithmetic(k: DomainKind) { k == KBit || k == KInteger || k == KFloating }

  /** The error a two-argument operation other than merge records, by argument kind. */
  function UnknownBinaryMessage(k: DomainKind): (m: string)
    ensures |m| > 0
  {
    if k == KInteger then "unknown binary operation type for multibit"
    else if k == KBit then "unknown binary operation type for bit"
    else "unsupported binary operation for floating point type"
  }

  /**
   * OperatorStack::apply on a finished operator: unary plus gives its
   * argument back; unary minus negates integers and floating-point values
   * and records an error for any other argument; two-argument operators
   * need arguments of the same kind (otherwise an error, and the first
   * argument comes back) and merge them. Operators without arguments are
   * not applied here.
   */
  function Apply<V>(dom: Domain<V>, op: Operator<V>, d: Diagnostics): (r: Applied<V>)
    requires IsFinished(op)
    ensures ArgumentsNumber(op.kind) == 0 ==> r.ApplyAborted?
    ensures op.kind == UnaryPlus ==> r == Applied(if op.second.Some? then op.second else op.first, d)
    ensures op.kind == UnaryMinus ==> r.Applied? && |r.diag.messages.GetOr([])| <= |d.messages.GetOr([])| + 1
    ensures op.kind == UnaryMinus ==>
      var argument := if op.second.Some? then op.second else op.first;
      (r.diag == d <==> IsArithmetic(KindOf(dom, argument)) && KindOf(dom, argument) != KBit)
    ensures op.kind == UnaryMinus && r.diag == d ==> r.value == Some(dom.negate((if op.second.Some? then op.second else op.first).value))
    ensures ArgumentsNumber(op.kind) == 2 && KindOf(dom, op.first) != KindOf(dom, op.second) ==>
              r == Applied(op.first, AddErrorMessage(d, "arguments have incompatible types").diag)
    ensures ArgumentsNumber(op.kind) == 2 && KindOf(dom, op.first) == KindOf(dom, op.second) ==>
              (r.Applied? <==> IsArithmetic(KindOf(dom, op.first)))
    ensures op.kind == Merge && r.Applied? && KindOf(dom, op.first) == KindOf(dom, op.second) ==>
              r == Applied(Some(dom.merge(op.first.value, op.second.value)), d)
  {
    var n := ArgumentsNumber(op.kind);
    if n == 1 then
      var argument := if op.second.Some? then op.second else op.first;
      if op.kind == UnaryPlus then Applied(argument, d)
      else if KindOf(dom, argument) == KInteger || KindOf(dom, argument) == KFloating then
        Applied(Some(dom.negate(argument.value)), d)
      else Applied(argument, AddErrorMessage(d, "unsupported type for the unary - operation").diag)
    else if n == 2 then
      if KindOf(dom, op.first) != KindOf(dom, op.second) then
        Applied(op.first, AddErrorMessage(d, "arguments have incompatible types").diag)
      else if !IsArithmetic(KindOf(dom, op.first)) then ApplyAborted
      else if op.kind == Merge then Applied(Some(dom.merge(op.first.value, op.second.value)), d)
      else Applied(op.first, AddErrorMessage(d, UnknownBinaryMessage(KindOf(dom, op.first))).diag)
    else ApplyAborted
  }

  /** The stack of pending operators, innermost last, and the diagnostics. */
  datatype Stack<V> = Stack(ops: seq<Operator<V>>, diag: Diagnostics)

  /** The outcome of a stack operation: a stack, a failed application, or a violated assumption. */
  datatype StackStep<V> = Pushed(stack: Stack<V>) | Failed(stack: Stack<V>) | Aborted

  /** pushPrefixUnaryOperator / pushPrefixBinaryOperator / pushBinaryOperator without reduction. */
  function PushPrefix<V>(s: Stack<V>, t: OperatorType, left: nat): (r: StackStep<V>)
    ensures r.Pushed? <==> NewOperator<V>(t, left).Some?
    ensures r.Pushed? ==> r.stack == s.(ops := s.ops + [NewOperator<V>(t, left).value])
  {
    match NewOperator<V>(t, left)
    case None => Aborted
    case Some(op) => Pushed(s.(ops := s.ops + [op]))
  }

  /**
   * pushLastArgument: the innermost operator absorbs the value. On an
   * empty stack the placeholder created expects no sub-expression, so
   * the absorption aborts.
   */
  function PushLastArgument<V>(s: Stack<V>, v: V, asWritten: bool): (r: StackStep<V>)
    ensures |s.ops| == 0 ==> r == Aborted
    ensures |s.ops| > 0 ==> (r.Pushed? <==> s.ops[|s.ops| - 1].left > 0)
    ensures r.Pushed? ==> r.stack.diag == s.diag && |r.stack.ops| == |s.ops| + (if |s.ops| == 0 then 1 else 0)
    ensures r.Pushed? && |s.ops| > 0 ==>
      r.stack.ops == s.ops[..|s.ops| - 1] + [AbsorbLast(s.ops[|s.ops| - 1], v, asWritten).value]
  {
    if |s.ops| == 0 then
      match AbsorbLast(Placeholder<V>(), v, asWritten)
      case None => Aborted
      case Some(op) => Pushed(s.(ops := [op]))
    else
      match AbsorbLast(s.ops[|s.ops| - 1], v, asWritten)
      case None => Aborted
      case Some(op) => Pushed(s.(ops := s.ops[..|s.ops| - 1] + [op]))
  }

  /**
   * The reduction test of pushOperator: the innermost operator is reduced
   * while its precedence is at least the new one's, for a left-associative
   * new operator, or strictly above it, for a right-associative one.
   */
  predicate Reduces(top: Shape, incoming: Shape) {
    if incoming.rightAssociative then Rank(top.precedence) > Rank(incoming.precedence)
    else Rank(top.precedence) >= Rank(incoming.precedence)
  }

  /**
   * The loop of pushOperator: reduce finished operators that bind at least
   * as tightly as the incoming one, threading the value each produces into
   * the next one; then the incoming operator takes the last value as its
   * first argument.
   */
  function Reduce<V>(dom: Domain<V>, ops: seq<Operator<V>>, incoming: Operator<V>, carried: Option<V>,
                     d: Diagnostics, asWritten: bool): (r: StackStep<V>)
    ensures r.Pushed? ==> |r.stack.ops| <= |ops| + 1 && |r.stack.ops| > 0
    ensures r.Pushed? ==> r.stack.ops[|r.stack.ops| - 1].kind == incoming.kind
    ensures r.Pushed? && |ops| > 0 && carried.None? && !Reduces(ops[|ops| - 1].shape, incoming.shape) &&
            ops[|ops| - 1].left < 3 ==>
      r.stack.ops[..|r.stack.ops| - 1] == ops[..|ops| - 1] + [ExtractLast(ops[|ops| - 1]).value.1] &&
      r.stack.ops[|r.stack.ops| - 1] == incoming.(first := ExtractLast(ops[|ops| - 1]).value.0) &&
      r.stack.diag == d
    decreases |ops|, 1
  {
    if |ops| > 0 && Reduces(ops[|ops| - 1].shape, incoming.shape) then ReduceTop(dom, ops, incoming, carried, d, asWritten)
    else Stop(ops, incoming, carried, d)
  }

  /** One pass of the loop of pushOperator: the innermost operator takes the carried value and is applied. */
  function ReduceTop<V>(dom: Domain<V>, ops: seq<Operator<V>>, incoming: Operator<V>, carried: Option<V>,
                        d: Diagnostics, asWritten: bool): (r: StackStep<V>)
    requires |ops| > 0
    ensures r.Pushed? ==> |r.stack.ops| <= |ops| + 1 && |r.stack.ops| > 0
    ensures r.Pushed? ==> r.stack.ops[|r.stack.ops| - 1].kind == incoming.kind
    decreases |ops|, 0
  {
    var top := ops[|ops| - 1];
    var absorbed := if carried.Some? then AbsorbLast(top, carried.value, asWritten) else Some(top);
    match absorbed
    case None => Aborted
    case Some(top') =>
      if !IsFinished(top') then Stop(ops[..|ops| - 1] + [top'], incoming, None, d)
      else
        match Apply(dom, top', d)
        case ApplyAborted => Aborted
        case Applied(value, d') =>
          if value.None? then Failed(Stack(ops[..|ops| - 1] + [top'], d'))
          else Reduce(dom, ops[..|ops| - 1], incoming, value, d', asWritten)
  }

  /** The end of the loop: without a carried value, the innermost operator gives up its last argument. */
  function Stop<V>(ops: seq<Operator<V>>, incoming: Operator<V>, carried: Option<V>, d: Diagnostics): (r: StackStep<V>)
    ensures r.Pushed? ==> r.stack.diag == d && |r.stack.ops| > 0
    ensures r.Pushed? ==> r.stack.ops[|r.stack.ops| - 1] == incoming.(first := r.stack.ops[|r.stack.ops| - 1].first)
    ensures carried.Some? ==> r == Pushed(Stack(ops + [incoming.(first := carried)], d))
    ensures carried.None? && |ops| > 0 && ops[|ops| - 1].left < 3 ==>
      r == Pushed(Stack(ops[..|ops| - 1] + [ExtractLast(ops[|ops| - 1]).value.1] +
                        [incoming.(first := ExtractLast(ops[|ops| - 1]).value.0)], d))
    ensures r.Pushed? ==> |r.stack.ops| == |ops| + 1
  {
    if carried.Some? then Pushed(Stack(ops + [incoming.(first := carried)], d))
    else if |ops| == 0 then Aborted
    else
      match ExtractLast(ops[|ops| - 1])
      case None => Aborted
      case Some(pair) => Pushed(Stack(ops[..|ops| - 1] + [pair.1] + [incoming.(first := pair.0)], d))
  }

  /**
   * OperatorStack::pushOperator: a placeholder on top takes the type in
   * place; otherwise the stack is reduced and the new operator pushed.
   */
  function PushOperator<V>(dom: Domain<V>, s: Stack<V>, t: OperatorType, left: nat, asWritten: bool): (r: StackStep<V>)
    requires |s.ops| > 0
    ensures !IsValid(s.ops[|s.ops| - 1]) && IsFinished(s.ops[|s.ops| - 1]) && NewOperator<V>(t, left).Some? ==>
      r == Pushed(s.(ops := s.ops[..|s.ops| - 1] +
                           [s.ops[|s.ops| - 1].(kind := t, shape := SetType(t).value, left := left)]))
    ensures r.Pushed? ==> |r.stack.ops| > 0 && r.stack.ops[|r.stack.ops| - 1].kind == t
  {
    var top := s.ops[|s.ops| - 1];
    match NewOperator<V>(t, left)
    case None => Aborted
    case Some(incoming) =>
      if !IsValid(top) then
        if top.left != 0 then Aborted else Pushed(s.(ops := s.ops[..|s.ops| - 1] + [top.(kind := t, shape := incoming.shape, left := left)]))
      else Reduce(dom, s.ops, incoming, None, s.diag, asWritten)
  }

  /** The value of a finished expression, or why there is none. */
  datatype Cleared<V> = Value(value: Option<V>, diag: Diagnostics) | ClearAborted

  /**
   * OperatorStack::clear: a lone placeholder gives its argument back;
   * otherwise the operators are applied innermost first, each result
   * going to the next one; an operator still waiting for a
   * sub-expression records "unexpected end of expression".
   */
  function Clear<V>(dom: Domain<V>, s: Stack<V>, asWritten: bool): (r: Cleared<V>)
    ensures |s.ops| == 1 && !IsValid(s.ops[0]) ==>
      r == (if s.ops[0].left < 3 then Value(if s.ops[0].second.Some? then s.ops[0].second else s.ops[0].first, s.diag)
            else ClearAborted)
    ensures !(|s.ops| == 1 && !IsValid(s.ops[0])) && |s.ops| > 0 && !IsFinished(s.ops[|s.ops| - 1]) ==>
      r == Value(None, AddErrorMessage(s.diag, "unexpected end of expression").diag)
    ensures !(|s.ops| == 1 && !IsValid(s.ops[0])) && r.Value? && r.value.Some? ==>
      |s.ops| > 0 && IsFinished(s.ops[|s.ops| - 1]) && forall i :: 0 <= i < |s.ops| - 1 ==> s.ops[i].left == 1
  {
    if |s.ops| == 1 && !IsValid(s.ops[0]) then
      match ExtractLast(s.ops[0])
      case None => ClearAborted
      case Some(pair) => Value(pair.0, s.diag)
    else ClearFrom(dom, s.ops, None, s.diag, asWritten)
  }

  /**
   * The loop of clear from a carried result. A value comes out only when
   * every operator but the innermost was waiting for exactly one more
   * sub-expression, and the innermost for one when a result is carried
   * into it, none otherwise.
   */
  function ClearFrom<V>(dom: Domain<V>, ops: seq<Operator<V>>, result: Option<V>, d: Diagnostics,
                        asWritten: bool): (r: Cleared<V>)
    ensures |ops| == 0 ==> r == Value(result, d)
    ensures |ops| > 0 && ops[|ops| - 1].left > (if result.Some? then 1 else 0) ==>
      r == Value(None, AddErrorMessage(d, "unexpected end of expression").diag)
    ensures |ops| > 0 && r.Value? && r.value.Some? ==>
      ops[|ops| - 1].left == (if result.Some? then 1 else 0) &&
      forall i :: 0 <= i < |ops| - 1 ==> ops[i].left == 1
    decreases |ops|
  {
    if |ops| == 0 then Value(result, d)
    else
      var op := ops[|ops| - 1];
      var absorbed := if result.Some? then AbsorbLast(op, result.value, asWritten) else Some(op);
      match absorbed
      case None => ClearAborted
      case Some(op') =>
        if !IsFinished(op') then Value(None, AddErrorMessage(d, "unexpected end of expression").diag)
        else
          match Apply(dom, op', d)
          case ApplyAborted => ClearAborted
          case Applied(value, d') =>
            if value.None? then Value(None, d')
            else
              var rest := ClearFrom(dom, ops[..|ops| - 1], value, d', asWritten);
              assert rest.Value? && rest.value.Some? && |ops| > 1 ==> forall i :: 0 <= i < |ops| - 1 ==> ops[i] == ops[..|ops| - 1][i];
              rest
  }

  /** What clearing the outer operators makes of what the inner ones gave. */
  function ThenClear<V>(dom: Domain<V>, inner: Cleared<V>, outer: seq<Operator<V>>, asWritten: bool): Cleared<V>
  {
    match inner
    case Value(v, d) => if v.Some? then ClearFrom(dom, outer, v, d, asWritten) else inner
    case ClearAborted => ClearAborted
  }

  /**
   * Clearing applies the operators innermost first: the inner part of
   * the stack is cleared on its own, and the outer part starts from the
   * value it produced; a failure of the inner part is the result.
   */
  lemma {:induction false} ClearInnermostFirst<V>(dom: Domain<V>, outer: seq<Operator<V>>, inner: seq<Operator<V>>,
                                                  seed: Option<V>, d: Diagnostics, asWritten: bool)
    requires |inner| > 0
    ensures ClearFrom(dom, outer + inner, seed, d, asWritten)
         == ThenClear(dom, ClearFrom(dom, inner, seed, d, asWritten), outer, asWritten)
    decreases |inner|
  {
    var ops := outer + inner;
    var op := inner[|inner| - 1];
    assert ops[|ops| - 1] == op;
    assert ops[..|ops| - 1] == outer + inner[..|inner| - 1];
    var absorbed := if seed.Some? then AbsorbLast(op, seed.value, asWritten) else Some(op);
    if absorbed.Some? && IsFinished(absorbed.value) {
      match Apply(dom, absorbed.value, d)
      case ApplyAborted =>
      case Applied(value, d') =>
        if value.Some? && |inner| > 1 {
          ClearInnermostFirst(dom, outer, inner[..|inner| - 1], value, d', asWritten);
        }
    }
  }

  /**
   * An operator still waiting for two or more sub-expressions ends the
   * expression once the operators inside it have produced a value: there
   * is no value and "unexpected end of expression" is recorded, whatever
   * lies outside.
   */
  lemma UnfinishedOperatorEndsExpression<V>(dom: Domain<V>, outer: seq<Operator<V>>, op: Operator<V>,
                                            inner: seq<Operator<V>>, seed: Option<V>, d: Diagnostics,
                                            asWritten: bool, x: V, d': Diagnostics)
    requires op.left >= 2 && |inner| > 0
    requires ClearFrom(dom, inner, seed, d, asWritten) == Value(Some(x), d')
    ensures ClearFrom(dom, outer + [op] + inner, seed, d, asWritten)
         == Value(None, AddErrorMessage(d', "unexpected end of expression").diag)
  {
    ClearInnermostFirst(dom, outer + [op], inner, seed, d, asWritten);
  }

  // ---------------------------------------------------------------------
  // Whole expressions against their value

  /** A term: its prefix signs in reading order (true for '-', false for '+') and its primary value. */
  datatype Term<V> = Term(minus: seq<bool>, primary: V)

  function Sign(minus: bool): OperatorType { if minus then UnaryMinus else UnaryPlus }

  /** The operator pushPrefixUnaryOperator pushes for a sign. */
  function SignOperator<V>(minus: bool): (op: Operator<V>)
    ensures NewOperator<V>(Sign(minus), 1) == Some(op)
  {
    Operator(Sign(minus), Shape(PUnary, true), 1, None, None, false)
  }

  /** The operators the signs leave on the stack, outermost first. */
  function Pending<V>(minus: seq<bool>): seq<Operator<V>>
  {
    if minus == [] then [] else Pending<V>(minus[..|minus| - 1]) + [SignOperator(minus[|minus| - 1])]
  }

  /** The signs of a term pushed in reading order. */
  function PushSigns<V>(s: Stack<V>, minus: seq<bool>): (r: StackStep<V>)
    ensures r == Pushed(s.(ops := s.ops + Pending<V>(minus)))
  {
    if minus == [] then
      assert s.ops + Pending<V>(minus) == s.ops;
      Pushed(s)
    else
      var s' := PushSigns(s, minus[..|minus| - 1]).stack;
      assert s'.ops + [SignOperator<V>(minus[|minus| - 1])] == s.ops + Pending<V>(minus);
      PushPrefix(s', Sign(minus[|minus| - 1]), 1)
  }

  /** A term on the stack: its signs, then its primary as the last argument. */
  function PushTerm<V>(s: Stack<V>, t: Term<V>, asWritten: bool): StackStep<V>
  {
    match PushSigns(s, t.minus)
    case Pushed(s') => PushLastArgument(s', t.primary, asWritten)
    case other => other
  }

  /** Where the reading stands after a term: a lone primary, a stack, or a final result. */
  datatype Reading<V> = Primary(value: V, diag: Diagnostics) | Stacked(stack: Stack<V>) | Ended(result: Cleared<V>)

  /** The first term: a primary without signs stays apart from the stack. */
  function ReadFirstTerm<V>(t: Term<V>, d: Diagnostics, asWritten: bool): Reading<V>
  {
    if t.minus == [] then Primary(t.primary, d)
    else
      match PushTerm(Stack([], d), t, asWritten)
      case Pushed(s) => Stacked(s)
      case _ => Ended(ClearAborted)
  }

  /** The merge pushed after a lone primary: it holds the primary and waits for one sub-expression. */
  function WaitingMerge<V>(x: V): Operator<V>
  {
    Operator(Merge, Shape(PMerge, false), 1, Some(x), None, false)
  }

  /**
   * "vv" and the term after it: after a lone primary the merge starts a
   * stack holding it; after a stack, pushOperator reduces; a failed
   * reduction ends the expression without value.
   */
  function ReadMergeTerm<V>(dom: Domain<V>, r: Reading<V>, t: Term<V>, asWritten: bool): Reading<V>
  {
    match r
    case Primary(x, d) =>
      (match PushTerm(Stack([WaitingMerge(x)], d), t, asWritten)
       case Pushed(s) => Stacked(s)
       case _ => Ended(ClearAborted))
    case Stacked(s) =>
      if |s.ops| == 0 then Ended(ClearAborted)
      else
        (match PushOperator(dom, s, Merge, 1, asWritten)
         case Pushed(s') =>
           (match PushTerm(s', t, asWritten)
            case Pushed(s'') => Stacked(s'')
            case _ => Ended(ClearAborted))
         case Failed(s') => Ended(Value(None, s'.diag))
         case Aborted => Ended(ClearAborted))
    case Ended(_) => r
  }

  function ReadMergeTerms<V>(dom: Domain<V>, r: Reading<V>, ts: seq<Term<V>>, i: nat, asWritten: bool): Reading<V>
    requires i <= |ts|
    decreases |ts| - i
  {
    if i == |ts| then r else ReadMergeTerms(dom, ReadMergeTerm(dom, r, ts[i], asWritten), ts, i + 1, asWritten)
  }

  /** The end of the expression: a lone primary is its value; a stack is cleared. */
  function FinishReading<V>(dom: Domain<V>, r: Reading<V>, asWritten: bool): Cleared<V>
  {
    match r
    case Primary(x, d) => Value(Some(x), d)
    case Stacked(s) => Clear(dom, s, asWritten)
    case Ended(c) => c
  }

  /** "t0 vv t1 vv ... vv tn" read through the operator stack. */
  function ReadExpression<V>(dom: Domain<V>, ts: seq<Term<V>>, d: Diagnostics, asWritten: bool): Cleared<V>
    requires |ts| > 0
  {
    FinishReading(dom, ReadMergeTerms(dom, ReadFirstTerm(ts[0], d, asWritten), ts, 1, asWritten), asWritten)
  }

  /** The value of signs applied to a value, the innermost (rightmost) first. */
  function SignsValue<V>(dom: Domain<V>, minus: seq<bool>, x: V): V
    decreases |minus|
  {
    if minus == [] then x
    else SignsValue(dom, minus[..|minus| - 1], if minus[|minus| - 1] then dom.negate(x) else x)
  }

  function TermValue<V>(dom: Domain<V>, t: Term<V>): V
  {
    SignsValue(dom, t.minus, t.primary)
  }

  /** The value of an expression as a tree: merges associate to the left. */
  function MergeValue<V>(dom: Domain<V>, ts: seq<Term<V>>): V
    requires |ts| > 0
  {
    if |ts| == 1 then TermValue(dom, ts[0])
    else dom.merge(MergeValue(dom, ts[..|ts| - 1]), TermValue(dom, ts[|ts| - 1]))
  }

  /** A domain of multi-bit integers only: every value, negated or merged, is an integer. */
  ghost predicate AllIntegers<V(!new)>(dom: Domain<V>)
  {
    forall v :: dom.kindOf(v) == KInteger
  }

  /** The merge pushOperator pushes for "vv". */
  function IncomingMerge<V>(): Operator<V>
  {
    NewOperator<V>(Merge, 1).value
  }

  /** A value absorbed by the innermost operator, finishing it, clears and reduces as if it were carried there. */
  lemma AbsorbedTop<V>(dom: Domain<V>, ops: seq<Operator<V>>, v: V, incoming: Operator<V>, d: Diagnostics, asWritten: bool)
    requires |ops| > 0 && ops[|ops| - 1].left == 1
    requires Reduces(ops[|ops| - 1].shape, incoming.shape)
    ensures var ops' := ops[..|ops| - 1] + [AbsorbLast(ops[|ops| - 1], v, asWritten).value];
      ClearFrom(dom, ops', None, d, asWritten) == ClearFrom(dom, ops, Some(v), d, asWritten) &&
      Reduce(dom, ops', incoming, None, d, asWritten) == Reduce(dom, ops, incoming, Some(v), d, asWritten)
  {
    var ops' := ops[..|ops| - 1] + [AbsorbLast(ops[|ops| - 1], v, asWritten).value];
    assert ops'[..|ops'| - 1] == ops[..|ops| - 1];
  }

  /** A sign operator that takes an integer gives its value. */
  lemma SignApplied<V(!new)>(dom: Domain<V>, minus: bool, x: V, d: Diagnostics, asWritten: bool)
    requires AllIntegers(dom)
    ensures var op' := AbsorbLast(SignOperator<V>(minus), x, asWritten);
      op'.Some? && IsFinished(op'.value) &&
      Apply(dom, op'.value, d) == Applied(Some(if minus then dom.negate(x) else x), d)
  {
    assert dom.kindOf(x) == KInteger;
  }

  /** Signs waiting on the stack take a carried integer and apply themselves, innermost first, when cleared. */
  lemma {:induction false} SignsClear<V(!new)>(dom: Domain<V>, base: seq<Operator<V>>, minus: seq<bool>, x: V,
                                                d: Diagnostics, asWritten: bool)
    requires AllIntegers(dom)
    ensures ClearFrom(dom, base + Pending<V>(minus), Some(x), d, asWritten)
         == ClearFrom(dom, base, Some(SignsValue(dom, minus, x)), d, asWritten)
    decreases |minus|
  {
    if minus == [] {
      assert base + Pending<V>(minus) == base;
    } else {
      var k := |minus|;
      var ops := base + Pending<V>(minus);
      var rest := base + Pending<V>(minus[..k - 1]);
      assert ops == rest + [SignOperator(minus[k - 1])];
      assert ops[..|ops| - 1] == rest;
      var y := if minus[k - 1] then dom.negate(x) else x;
      SignApplied(dom, minus[k - 1], x, d, asWritten);
      assert ClearFrom(dom, ops, Some(x), d, asWritten) == ClearFrom(dom, rest, Some(y), d, asWritten);
      SignsClear(dom, base, minus[..k - 1], y, d, asWritten);
    }
  }

  /** Signs waiting on the stack take a carried integer and apply themselves, innermost first, before a merge. */
  lemma {:induction false} SignsReduce<V(!new)>(dom: Domain<V>, base: seq<Operator<V>>, minus: seq<bool>, x: V,
                                                 d: Diagnostics, asWritten: bool)
    requires AllIntegers(dom)
    ensures Reduce(dom, base + Pending<V>(minus), IncomingMerge(), Some(x), d, asWritten)
         == Reduce(dom, base, IncomingMerge(), Some(SignsValue(dom, minus, x)), d, asWritten)
    decreases |minus|
  {
    if minus == [] {
      assert base + Pending<V>(minus) == base;
    } else {
      var k := |minus|;
      var ops := base + Pending<V>(minus);
      var rest := base + Pending<V>(minus[..k - 1]);
      assert ops == rest + [SignOperator(minus[k - 1])];
      assert ops[..|ops| - 1] == rest;
      var y := if minus[k - 1] then dom.negate(x) else x;
      SignApplied(dom, minus[k - 1], x, d, asWritten);
      assert Reduces(SignOperator<V>(minus[k - 1]).shape, IncomingMerge<V>().shape);
      assert Reduce(dom, ops, IncomingMerge(), Some(x), d, asWritten)
          == ReduceTop(dom, ops, IncomingMerge(), Some(x), d, asWritten);
      assert ReduceTop(dom, ops, IncomingMerge(), Some(x), d, asWritten)
          == Reduce(dom, rest, IncomingMerge(), Some(y), d, asWritten);
      SignsReduce(dom, base, minus[..k - 1], y, d, asWritten);
    }
  }

  /** The stack a reading holds stands for the value x: clearing gives x, and "vv" reduces it to a merge holding x. */
  ghost predicate Represents<V>(dom: Domain<V>, r: Reading<V>, x: V, d: Diagnostics)
  {
    r == Primary(x, d) ||
    (r.Stacked? && r.stack.diag == d && |r.stack.ops| > 0 && IsValid(r.stack.ops[|r.stack.ops| - 1]) &&
     ClearFrom(dom, r.stack.ops, None, d, false) == Value(Some(x), d) &&
     Reduce(dom, r.stack.ops, IncomingMerge(), None, d, false) == Pushed(Stack([WaitingMerge(x)], d)))
  }

  /** A merge waiting with a takes an integer y: cleared, it gives their merge; before "vv", it reduces to a merge waiting with it. */
  lemma WaitingMergeTakes<V(!new)>(dom: Domain<V>, a: V, y: V, d: Diagnostics)
    requires AllIntegers(dom)
    ensures ClearFrom(dom, [WaitingMerge(a)], Some(y), d, false) == Value(Some(dom.merge(a, y)), d)
    ensures Reduce(dom, [WaitingMerge(a)], IncomingMerge(), Some(y), d, false)
         == Pushed(Stack([WaitingMerge(dom.merge(a, y))], d))
  {
    var m := WaitingMerge(a).(second := Some(y), left := 0);
    assert AbsorbLast(WaitingMerge(a), y, false) == Some(m);
    assert dom.kindOf(a) == KInteger && dom.kindOf(y) == KInteger;
    assert Apply(dom, m, d) == Applied(Some(dom.merge(a, y)), d);
    assert Reduce(dom, [], IncomingMerge(), Some(dom.merge(a, y)), d, false)
        == Pushed(Stack([WaitingMerge(dom.merge(a, y))], d));
  }

  /** The stack a term leaves on the waiting merge or empty stack: its top, the last sign or the merge, absorbed the primary. */
  lemma TermStack<V>(acc: Option<V>, t: Term<V>, d: Diagnostics)
    requires acc.None? ==> t.minus != []
    ensures var base := if acc.Some? then [WaitingMerge(acc.value)] else [];
      var ops := base + Pending<V>(t.minus);
      |ops| > 0 && ops[|ops| - 1].left == 1 && IsValid(ops[|ops| - 1]) &&
      Reduces(ops[|ops| - 1].shape, IncomingMerge<V>().shape) &&
      PushTerm(Stack(base, d), t, false)
        == Pushed(Stack(ops[..|ops| - 1] + [AbsorbLast(ops[|ops| - 1], t.primary, false).value], d))
  {
    var base := if acc.Some? then [WaitingMerge(acc.value)] else [];
    var ops := base + Pending<V>(t.minus);
    if t.minus != [] {
      assert ops == (base + Pending<V>(t.minus[..|t.minus| - 1])) + [SignOperator(t.minus[|t.minus| - 1])];
    }
  }

  /** The stack a term leaves clears to the term's value, merged with acc when a merge was waiting. */
  lemma TermClears<V(!new)>(dom: Domain<V>, acc: Option<V>, t: Term<V>, d: Diagnostics)
    requires AllIntegers(dom)
    requires acc.None? ==> t.minus != []
    ensures var base := if acc.Some? then [WaitingMerge(acc.value)] else [];
      var pushed := PushTerm(Stack(base, d), t, false);
      pushed.Pushed? &&
      ClearFrom(dom, pushed.stack.ops, None, d, false)
        == Value(Some(if acc.Some? then dom.merge(acc.value, TermValue(dom, t)) else TermValue(dom, t)), d)
  {
    var base := if acc.Some? then [WaitingMerge(acc.value)] else [];
    var ops := base + Pending<V>(t.minus);
    TermStack(acc, t, d);
    AbsorbedTop(dom, ops, t.primary, IncomingMerge(), d, false);
    SignsClear(dom, base, t.minus, t.primary, d, false);
    if acc.Some? {
      WaitingMergeTakes(dom, acc.value, TermValue(dom, t), d);
    }
  }

  /** Before "vv", the stack a term leaves reduces to a merge waiting with the term's value (merged with acc). */
  lemma TermReduces<V(!new)>(dom: Domain<V>, acc: Option<V>, t: Term<V>, d: Diagnostics)
    requires AllIntegers(dom)
    requires acc.None? ==> t.minus != []
    ensures var base := if acc.Some? then [WaitingMerge(acc.value)] else [];
      var pushed := PushTerm(Stack(base, d), t, false);
      var value := if acc.Some? then dom.merge(acc.value, TermValue(dom, t)) else TermValue(dom, t);
      pushed.Pushed? &&
      Reduce(dom, pushed.stack.ops, IncomingMerge(), None, d, false) == Pushed(Stack([WaitingMerge(value)], d))
  {
    var base := if acc.Some? then [WaitingMerge(acc.value)] else [];
    var ops := base + Pending<V>(t.minus);
    var y := TermValue(dom, t);
    TermStack(acc, t, d);
    AbsorbedTop(dom, ops, t.primary, IncomingMerge(), d, false);
    SignsReduce(dom, base, t.minus, t.primary, d, false);
    if acc.Some? {
      WaitingMergeTakes(dom, acc.value, y, d);
    } else {
      assert Reduce(dom, [], IncomingMerge(), Some(y), d, false) == Pushed(Stack([WaitingMerge(y)], d));
    }
  }

  /**
   * A term pushed onto an empty stack (it then has signs) or onto a
   * merge waiting with acc leaves a stack that stands for the term's
   * value, merged with acc in the second case.
   */
  lemma TermPushed<V(!new)>(dom: Domain<V>, acc: Option<V>, t: Term<V>, d: Diagnostics)
    requires AllIntegers(dom)
    requires acc.None? ==> t.minus != []
    ensures var base := if acc.Some? then [WaitingMerge(acc.value)] else [];
      var pushed := PushTerm(Stack(base, d), t, false);
      pushed.Pushed? &&
      Represents(dom, Stacked(pushed.stack), if acc.Some? then dom.merge(acc.value, TermValue(dom, t)) else TermValue(dom, t), d)
  {
    TermStack(acc, t, d);
    TermClears(dom, acc, t, d);
    TermReduces(dom, acc, t, d);
  }

  /** "vv t" after a reading that stands for x leaves one that stands for x merged with t's value. */
  lemma MergeTermStep<V(!new)>(dom: Domain<V>, r: Reading<V>, x: V, t: Term<V>, d: Diagnostics)
    requires AllIntegers(dom) && Represents(dom, r, x, d)
    ensures Represents(dom, ReadMergeTerm(dom, r, t, false), dom.merge(x, TermValue(dom, t)), d)
  {
    TermPushed(dom, Some(x), t, d);
    if r.Stacked? {
      assert PushOperator(dom, r.stack, Merge, 1, false) == Pushed(Stack([WaitingMerge(x)], d));
    }
  }

  lemma {:induction false} MergeTermsRead<V(!new)>(dom: Domain<V>, r: Reading<V>, ts: seq<Term<V>>, i: nat, d: Diagnostics)
    requires AllIntegers(dom) && 0 < i <= |ts| && Represents(dom, r, MergeValue(dom, ts[..i]), d)
    ensures Represents(dom, ReadMergeTerms(dom, r, ts, i, false), MergeValue(dom, ts), d)
    decreases |ts| - i
  {
    if i == |ts| {
      assert ts[..i] == ts;
    } else {
      MergeTermStep(dom, r, MergeValue(dom, ts[..i]), ts[i], d);
      assert ts[..i + 1][..i] == ts[..i];
      assert MergeValue(dom, ts[..i + 1]) == dom.merge(MergeValue(dom, ts[..i]), TermValue(dom, ts[i]));
      MergeTermsRead(dom, ReadMergeTerm(dom, r, ts[i], false), ts, i + 1, d);
    }
  }

  /**
   * Corrected, an expression of integers read through the operator stack
   * has the value of its tree: each term's signs applied innermost first,
   * merges associated to the left, and nothing recorded.
   */
  lemma ExpressionValue<V(!new)>(dom: Domain<V>, ts: seq<Term<V>>, d: Diagnostics)
    requires AllIntegers(dom) && |ts| > 0
    ensures ReadExpression(dom, ts, d, false) == Value(Some(MergeValue(dom, ts)), d)
  {
    if ts[0].minus != [] {
      TermPushed(dom, None, ts[0], d);
    }
    assert ts[..1] == [ts[0]];
    MergeTermsRead(dom, ReadFirstTerm(ts[0], d, false), ts, 1, d);
  }

  // ---------------------------------------------------------------------
  // The parser's use of the stack

  /**
   * "a vv b" as the parser drives the stack: merge is pushed expecting two
   * sub-expressions, absorbs a as its first argument and counts one less;
   * b is then pushed as the last argument and the stack is cleared.
   */
  function ParseMerge<V>(dom: Domain<V>, a: V, b: V, d: Diagnostics, asWritten: bool): (r: Cleared<V>)
  {
    var op := Operator(Merge, Shape(PMerge, false), 1, Some(a), None, false);
    match PushLastArgument(Stack([op], d), b, asWritten)
    case Pushed(s) => Clear(dom, s, asWritten)
    case _ => ClearAborted
  }

  /** "-a" as the parser drives the stack. */
  function ParseNegation<V>(dom: Domain<V>, a: V, d: Diagnostics, asWritten: bool): (r: Cleared<V>)
  {
    match PushPrefix(Stack([], d), UnaryMinus, 1)
    case Pushed(s) =>
      (match PushLastArgument(s, a, asWritten)
       case Pushed(s') => Clear(dom, s', asWritten)
       case _ => ClearAborted)
    case _ => ClearAborted
  }

  /**
   * "a vv b vv c": after b, the second merge is pushed through
   * pushOperator (one sub-expression to come), which reduces the first
   * merge since merge is left-associative; c follows.
   */
  function ParseMergeChain<V>(dom: Domain<V>, a: V, b: V, c: V, d: Diagnostics, asWritten: bool): (r: Cleared<V>)
  {
    var op := Operator(Merge, Shape(PMerge, false), 1, Some(a), None, false);
    match PushLastArgument(Stack([op], d), b, asWritten)
    case Pushed(s) =>
      (match PushOperator(dom, s, Merge, 1, asWritten)
       case Pushed(s') =>
         (match PushLastArgument(s', c, asWritten)
          case Pushed(s'') => Clear(dom, s'', asWritten)
          case _ => ClearAborted)
       case _ => ClearAborted)
    case _ => ClearAborted
  }

  /**
   * As written, "a vv b" loses a: b overwrites the first slot, the
   * second stays empty, and the application reports incompatible
   * argument types and gives b back. Corrected, the merge of a and b.
   */
  lemma MergeLosesFirstArgument<V>(dom: Domain<V>, a: V, b: V, d: Diagnostics)
    requires dom.kindOf(a) == KInteger && dom.kindOf(b) == KInteger
    ensures ParseMerge(dom, a, b, d, true) == Value(Some(b), AddErrorMessage(d, "arguments have incompatible types").diag)
    ensures ParseMerge(dom, a, b, d, false) == Value(Some(dom.merge(a, b)), d)
  {
    var op := Operator(Merge, Shape(PMerge, false), 1, Some(a), None, false);
    var written := Operator(Merge, Shape(PMerge, false), 0, Some(b), None, false);
    assert PushLastArgument(Stack([op], d), b, true) == Pushed(Stack([written], d));
    assert ClearFrom(dom, [], Some(b), AddErrorMessage(d, "arguments have incompatible types").diag, true)
        == Value(Some(b), AddErrorMessage(d, "arguments have incompatible types").diag);
    var fixed := Operator(Merge, Shape(PMerge, false), 0, Some(a), Some(b), false);
    assert PushLastArgument(Stack([op], d), b, false) == Pushed(Stack([fixed], d));
    assert ClearFrom(dom, [], Some(dom.merge(a, b)), d, false) == Value(Some(dom.merge(a, b)), d);
  }

  /** A prefix operator is not affected: "-a" negates a either way. */
  lemma NegationUnaffected<V>(dom: Domain<V>, a: V, d: Diagnostics, asWritten: bool)
    requires dom.kindOf(a) == KInteger
    ensures ParseNegation(dom, a, d, asWritten) == Value(Some(dom.negate(a)), d)
  {
    var op := NewOperator<V>(UnaryMinus, 1).value;
    var op' := AbsorbLast(op, a, asWritten).value;
    assert PushPrefix(Stack([], d), UnaryMinus, 1) == Pushed(Stack([op], d));
    assert PushLastArgument(Stack([op], d), a, asWritten) == Pushed(Stack([op'], d));
    assert IsValid(op') && IsFinished(op');
    assert Clear(dom, Stack([op'], d), asWritten) == ClearFrom(dom, [op'], None, d, asWritten);
    assert ClearFrom(dom, [op'], None, d, asWritten) == Value(Some(dom.negate(a)), d) by {
      assert Apply(dom, op', d) == Applied(Some(dom.negate(a)), d);
      assert ClearFrom(dom, [op'], None, d, asWritten) == ClearFrom(dom, [], Some(dom.negate(a)), d, asWritten);
    }
  }

  /** Corrected, merge chains associate to the left: (a vv b) vv c. */
  lemma MergeChainLeftAssociative<V>(dom: Domain<V>, a: V, b: V, c: V, d: Diagnostics)
    requires dom.kindOf(a) == KInteger && dom.kindOf(b) == KInteger && dom.kindOf(c) == KInteger
    requires dom.kindOf(dom.merge(a, b)) == KInteger
    ensures ParseMergeChain(dom, a, b, c, d, false) == Value(Some(dom.merge(dom.merge(a, b), c)), d)
  {
    var op := Operator(Merge, Shape(PMerge, false), 1, Some(a), None, false);
    var s := Stack([Operator(Merge, Shape(PMerge, false), 0, Some(a), Some(b), false)], d);
    assert PushLastArgument(Stack([op], d), b, false) == Pushed(s);
    var incoming := NewOperator<V>(Merge, 1).value;
    var ab := dom.merge(a, b);
    assert Reduce(dom, [], incoming, Some(ab), d, false) == Pushed(Stack([incoming.(first := Some(ab))], d));
    assert Apply(dom, s.ops[0], d) == Applied(Some(ab), d);
    assert ReduceTop(dom, s.ops, incoming, None, d, false) == Pushed(Stack([incoming.(first := Some(ab))], d));
    assert PushOperator(dom, s, Merge, 1, false) == Pushed(Stack([incoming.(first := Some(ab))], d));
    var last := Operator(Merge, Shape(PMerge, false), 0, Some(ab), Some(c), false);
    assert PushLastArgument(Stack([incoming.(first := Some(ab))], d), c, false) == Pushed(Stack([last], d));
    assert ClearFrom(dom, [], Some(dom.merge(ab, c)), d, false) == Value(Some(dom.merge(ab, c)), d);
  }

  // ---------------------------------------------------------------------
  // OperationNode::setCodeFromText

  /** The code and symbolic flag of an operation node. */
  datatype OperationFields = OperationFields(code: int, symbolic: bool)

  datatype CodeRead = CodeRead(fields: OperationFields, diag: Diagnostics, proceed: bool)

  /**
   * The type field of a table code: bits 1 to 7 (FType = 1, FSymbolic =
   * 8). As written the expression `code & ~(~0U << FType) >> FExtended`
   * parses as `code & (1 >> 0)`, the extended bit, which is 0 on the
   * path that uses it.
   */
  function TypeField(code: nat, asWritten: bool): (t: nat)
    ensures asWritten ==> t == code % 2
    ensures !asWritten ==> t < 128
  {
    if asWritten then code % 2 else (code % 256) / 2
  }

  /**
   * setCodeFromText. `codes` is the text-to-code table, `resolve` the
   * switch from an operation type, the first argument's type and the
   * arity to the plugin's operation number (0 when none fits; the
   * undefined operation type 0 has no case). As written the "unknown
   * operation" error is recorded after every lookup, found or not;
   * corrected, only when the text is not in the table.
   */
  function SetCodeFromText(hasFirst: bool, text: string, firstType: Expressions.DomainType, arity: nat,
                           codes: string -> Option<nat>, resolve: (nat, Expressions.DomainType, nat) -> nat,
                           node: OperationFields, d: Diagnostics, asWritten: bool): (r: CodeRead)
    requires forall ty, n :: resolve(0, ty, n) == 0
    ensures !hasFirst ==>
      r.fields == node && r.diag == AddErrorMessage(d, "operation requires at lease a \"first\" argument").diag
    ensures r.fields != node ==> hasFirst && codes(text).Some?
    ensures r.proceed && r.fields != node ==> r.fields.symbolic == (codes(text).value / 256 != 0)
  {
    if !hasFirst then
      var logged := AddErrorMessage(d, "operation requires at lease a \"first\" argument");
      CodeRead(node, logged.diag, logged.proceed)
    else
      match codes(text)
      case None =>
        var logged := AddErrorMessage(d, "unknown operation");
        CodeRead(node, logged.diag, logged.proceed)
      case Some(code) =>
        var found :=
          if code % 2 == 0 then
            var result := resolve(TypeField(code, asWritten), firstType, arity);
            var logged := if result == 0 then AddErrorMessage(d, "operation not in adequation with the types of operands")
                          else Logged(d, true);
            if !logged.proceed then CodeRead(node, logged.diag, false)
            else CodeRead(OperationFields(result, code / 256 != 0), logged.diag, true)
          else CodeRead(OperationFields(code % 256, code / 256 != 0), d, true);
        if !found.proceed then found
        else if asWritten then
          var logged := AddErrorMessage(found.diag, "unknown operation");
          CodeRead(found.fields, logged.diag, logged.proceed)
        else found
  }

  /**
   * As written, a text found in the table with an extended code still
   * ends with the error "unknown operation".
   */
  lemma FoundCodeReportedUnknown(text: string, firstType: Expressions.DomainType, arity: nat,
                                 codes: string -> Option<nat>, resolve: (nat, Expressions.DomainType, nat) -> nat,
                                 node: OperationFields, d: Diagnostics)
    requires forall ty, n :: resolve(0, ty, n) == 0
    requires codes(text).Some? && codes(text).value % 2 == 1
    requires d.messages.Some? && !d.stopOnError && d.count + 1 < MaxErrors
    ensures var r := SetCodeFromText(true, text, firstType, arity, codes, resolve, node, d, true);
      r.diag.messages == Some(d.messages.value + [ErrorMessage("unknown operation", d.line.GetOr(0), d.column.GetOr(0))])
  {
  }

  /** Corrected, a found extended code records nothing and sets the node's fields from the code. */
  lemma FoundCodeSetsFields(text: string, firstType: Expressions.DomainType, arity: nat,
                            codes: string -> Option<nat>, resolve: (nat, Expressions.DomainType, nat) -> nat,
                            node: OperationFields, d: Diagnostics)
    requires forall ty, n :: resolve(0, ty, n) == 0
    requires codes(text).Some? && codes(text).value % 2 == 1
    ensures var r := SetCodeFromText(true, text, firstType, arity, codes, resolve, node, d, false);
      r == CodeRead(OperationFields(codes(text).value % 256, codes(text).value / 256 != 0), d, true)
  {
  }

  /**
   * As written, every non-extended code resolves through the undefined
   * type 0: the node gets operation code 0 and the error "operation not
   * in adequation with the types of operands", then "unknown operation".
   */
  lemma TypeFieldAlwaysUndefined(text: string, firstType: Expressions.DomainType, arity: nat,
                                 codes: string -> Option<nat>, resolve: (nat, Expressions.DomainType, nat) -> nat,
                                 node: OperationFields, d: Diagnostics)
    requires forall ty, n :: resolve(0, ty, n) == 0
    requires codes(text).Some? && codes(text).value % 2 == 0
    requires d.messages.Some? && !d.stopOnError && d.count + 2 < MaxErrors
    ensures var r := SetCodeFromText(true, text, firstType, arity, codes, resolve, node, d, true);
      r.fields.code == 0 &&
      r.diag.messages == Some(d.messages.value +
        [ErrorMessage("operation not in adequation with the types of operands", d.line.GetOr(0), d.column.GetOr(0)),
         ErrorMessage("unknown operation", d.line.GetOr(0), d.column.GetOr(0))])
  {
    var code := codes(text).value;
    assert resolve(TypeField(code, true), firstType, arity) == 0;
    var first := AddErrorMessage(d, "operation not in adequation with the types of operands");
    assert first.proceed;
    var second := AddErrorMessage(first.diag, "unknown operation");
    var e1 := ErrorMessage("operation not in adequation with the types of operands", d.line.GetOr(0), d.column.GetOr(0));
    var e2 := ErrorMessage("unknown operation", d.line.GetOr(0), d.column.GetOr(0));
    assert second.diag.messages.value == d.messages.value + [e1] + [e2] == d.messages.value + [e1, e2];
    assert SetCodeFromText(true, text, firstType, arity, codes, resolve, node, d, true)
        == CodeRead(OperationFields(0, code / 256 != 0), second.diag, second.proceed);
  }

  /**
   * Corrected, the type field (bits 1 to 7) selects the case, and a case
   * that fits the operands sets the operation code without any error.
   */
  lemma TypeFieldSelectsCase(text: string, firstType: Expressions.DomainType, arity: nat,
                             codes: string -> Option<nat>, resolve: (nat, Expressions.DomainType, nat) -> nat,
                             node: OperationFields, d: Diagnostics)
    requires forall ty, n :: resolve(0, ty, n) == 0
    requires codes(text).Some? && codes(text).value % 2 == 0
    requires resolve((codes(text).value % 256) / 2, firstType, arity) != 0
    ensures var c := codes(text).value;
      SetCodeFromText(true, text, firstType, arity, codes, resolve, node, d, false)
        == CodeRead(OperationFields(resolve((c % 256) / 2, firstType, arity), c / 256 != 0), d, true)
  {
  }

  /** Either way, a text missing from the table records exactly one "unknown operation" and keeps the node. */
  lemma UnknownTextReported(text: string, firstType: Expressions.DomainType, arity: nat,
                            codes: string -> Option<nat>, resolve: (nat, Expressions.DomainType, nat) -> nat,
                            node: OperationFields, d: Diagnostics, asWritten: bool)
    requires forall ty, n :: resolve(0, ty, n) == 0
    requires codes(text).None?
    ensures var r := SetCodeFromText(true, text, firstType, arity, codes, resolve, node, d, asWritten);
      r.fields == node && r.diag == AddErrorMessage(d, "unknown operation").diag
  {
  }

  /**
   * An entry of the operation table: the extended flag in bit 0
   * (FExtended), the operation type from bit 1 (FType) and the symbolic
   * flag in bit 8 (FSymbolic).
   */
  function TableCode(extended: bool, t: nat, symbolic: bool): nat
    requires t < 128
  {
    (if extended then 1 else 0) + 2 * t + (if symbolic then 256 else 0)
  }

  /**
   * Corrected, a text whose table entry was built from a type and a
   * symbolic flag reads back into them: an extended entry sets its own
   * code (flag and type bits) and the flag; another entry sets the
   * operation its type resolves to for the operands, or records
   * "operation not in adequation with the types of operands" when none
   * fits; nothing else is recorded.
   */
  lemma TableCodeReadBack(text: string, firstType: Expressions.DomainType, arity: nat,
                          codes: string -> Option<nat>, resolve: (nat, Expressions.DomainType, nat) -> nat,
                          node: OperationFields, d: Diagnostics, extended: bool, t: nat, symbolic: bool)
    requires forall ty, n :: resolve(0, ty, n) == 0
    requires t < 128 && codes(text) == Some(TableCode(extended, t, symbolic))
    ensures var r := SetCodeFromText(true, text, firstType, arity, codes, resolve, node, d, false);
      (extended ==> r == CodeRead(OperationFields(1 + 2 * t, symbolic), d, true)) &&
      (!extended && resolve(t, firstType, arity) != 0 ==>
         r == CodeRead(OperationFields(resolve(t, firstType, arity), symbolic), d, true)) &&
      (!extended && resolve(t, firstType, arity) == 0 ==>
         var logged := AddErrorMessage(d, "operation not in adequation with the types of operands");
         r.diag == logged.diag && r.proceed == logged.proceed &&
         r.fields == (if logged.proceed then OperationFields(0, symbolic) else node))
  {
    var low := (if extended then 1 else 0) + 2 * t;
    var c := TableCode(extended, t, symbolic);
    assert c == low + 256 * (if symbolic then 1 else 0);
    assert c % 256 == low && c / 256 == (if symbolic then 1 else 0);
    assert c % 2 == (if extended then 1 else 0);
    assert (c % 256) / 2 == t;
  }
}
