/** The four-way arithmetic switch behind the operator and equals keys. */
module Arithmetic {
  import opened Optional

  datatype Operator = Add | Sub | Mul | Div

  /** The text each operator key hands to the engine; multiplication and division use
      the typographic signs U+00D7 and U+00F7. */
  function Symbol(op: Operator): (sym: string)
    ensures |sym| == 1
  {
    match op
    case Add => "+"
    case Sub => "-"
    case Mul => "\U{00D7}"
    case Div => "\U{00F7}"
  }

  /** Recognises an operator symbol; any other text is not an operator. */
  function OperatorOf(sym: string): (r: Option<Operator>)
    ensures r.Some? ==> Symbol(r.value) == sym
    ensures r.None? ==> forall op: Operator :: Symbol(op) != sym
  {
    if sym == "+" then Some(Add)
    else if sym == "-" then Some(Sub)
    else if sym == "\U{00D7}" then Some(Mul)
    else if sym == "\U{00F7}" then Some(Div)
    else None
  }

  /** Every operator key is recognised as itself, so no two operators share a text. */
  lemma SymbolRoundTrip(op: Operator)
    ensures OperatorOf(Symbol(op)) == Some(op)
    ensures forall o: Operator :: Symbol(o) == Symbol(op) ==> o == op
  {
  }

  /** Applies one operator. Each case is characterised by the operation that undoes it;
      division by zero, and only that, falls back to 0. */
  function Apply(op: Operator, prev: real, cur: real): (r: real)
    ensures op == Add ==> r - cur == prev
    ensures op == Sub ==> r + cur == prev
    ensures op == Mul && cur != 0.0 ==> r / cur == prev
    ensures op == Mul && cur == 0.0 ==> r == 0.0
    ensures op == Div && cur != 0.0 ==> r * cur == prev
    ensures op == Div && cur == 0.0 ==> r == 0.0
  {
    match op
    case Add => prev + cur
    case Sub => prev - cur
    case Mul => prev * cur
    case Div => if cur != 0.0 then prev / cur else 0.0
  }

  /** The component's `calculate`: the pending operator is kept as text, a known symbol selects
      its arithmetic and any other text yields the current operand unchanged. */
  function Calculate(prev: real, cur: real, op: string): (r: real)
    ensures forall o: Operator :: op == Symbol(o) ==> r == Apply(o, prev, cur)
    ensures OperatorOf(op).None? ==> r == cur
  {
    match OperatorOf(op)
    case Some(o) => Apply(o, prev, cur)
    case None => cur
  }

  /** Addition and subtraction undo each other; so do multiplication and division by a
      non-zero operand. */
  lemma ApplyInverse(prev: real, cur: real)
    ensures Apply(Sub, Apply(Add, prev, cur), cur) == prev
    ensures Apply(Add, Apply(Sub, prev, cur), cur) == prev
    ensures cur != 0.0 ==> Apply(Div, Apply(Mul, prev, cur), cur) == prev
    ensures cur != 0.0 ==> Apply(Mul, Apply(Div, prev, cur), cur) == prev
  {
    if cur != 0.0 {
      var m := Apply(Mul, prev, cur);
      assert m / cur == prev;
      var d := Apply(Div, prev, cur);
      assert d * cur == prev;
    }
  }

  /** Dividing by zero never faults: whatever the dividend, the result is 0. */
  lemma DivideByZero(prev: real)
    ensures Calculate(prev, 0.0, Symbol(Div)) == 0.0
  {
  }
}
