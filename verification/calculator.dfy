/** The calculator's input state machine: one state record and one handler per key. */
module Calculator {
  import opened Optional
  import opened Numerals
  import opened Arithmetic

  /** `display` is the text on screen, `previousValue` the saved left operand, `operation`
      the pending operator's text, and `newNumber` says whether the next digit starts a
      fresh number instead of extending the display. */
  datatype State = State(
    display: string,
    previousValue: Option<real>,
    operation: Option<string>,
    newNumber: bool)

  /** The state the widget starts in. */
  const Initial: State := State("0", None, None, true)

  /** The saved operand and the pending operator are set and cleared together. */
  predicate Paired(s: State)
  {
    s.previousValue.Some? <==> s.operation.Some?
  }

  /** An operation is pending: a saved operand exists and the stored operator text is
      non-empty (the empty string counts as absent in JavaScript's truthiness test, `operation && …`). */
  predicate HasPending(s: State)
  {
    s.previousValue.Some? && s.operation.Some? && s.operation.value != ""
  }

  /** The start state shows "0", holds no operand and no operator, and arms new entry. */
  lemma InitialState()
    ensures Initial.display == "0" && Initial.newNumber
    ensures Initial.previousValue.None? && Initial.operation.None?
    ensures Paired(Initial) && !HasPending(Initial)
  {
  }

  /** The guard shared by the operator and equals keys. A saved operand with an empty operator
      text is not pending: equals leaves it alone and the operator key does not evaluate. */
  lemma PendingGuard(c: Codec, s: State, op: string)
    ensures HasPending(s) <==>
              s.previousValue.Some? && s.operation.Some? && s.operation.value != ""
    ensures s.previousValue.Some? && s.operation == Some("") ==>
              HandleEquals(c, s) == s &&
              HandleOperation(c, s, op).previousValue == Some(c.parse(s.display))
  {
  }

  /** The parts of the state that arithmetic keys act on stay as they were. */
  predicate SamePending(s: State, r: State)
  {
    r.previousValue == s.previousValue && r.operation == s.operation
  }

  /** A digit key. The digit starts a new number, replaces a lone "0", or is appended. */
  function HandleNumber(s: State, num: string): (r: State)
    ensures SamePending(s, r) && !r.newNumber
    ensures s.newNumber || s.display == "0" ==> r.display == num
    ensures !s.newNumber && s.display != "0" ==>
              && |r.display| == |s.display| + |num|
              && r.display[..|s.display|] == s.display
              && r.display[|s.display|..] == num
  {
    if s.newNumber then
      s.(display := num, newNumber := false)
    else
      s.(display := if s.display == "0" then num else s.display + num)
  }

  /** The decimal-point key. Afterwards the display holds a point; a point is only ever
      added at the end, and only when none was there. */
  function HandleDecimal(s: State): (r: State)
    ensures SamePending(s, r) && !r.newNumber
    ensures '.' in r.display
    ensures s.newNumber ==> r.display == "0."
    ensures !s.newNumber && '.' in s.display ==> r == s
    ensures !s.newNumber && '.' !in s.display ==>
              |r.display| == |s.display| + 1 && r.display[..|s.display|] == s.display
  {
    if s.newNumber then
      s.(display := "0.", newNumber := false)
    else if '.' !in s.display then
      s.(display := s.display + ".")
    else
      s
  }

  /** An operator key. With an operation pending and a second operand entered, the pending
      operation is evaluated, shown and kept as the new left operand; otherwise the display's
      value becomes the left operand. Either way `op` becomes the pending operator. */
  function HandleOperation(c: Codec, s: State, op: string): (r: State)
    ensures r.operation == Some(op) && r.newNumber && r.previousValue.Some?
    ensures HasPending(s) && !s.newNumber ==>
              var v := Calculate(s.previousValue.value, c.parse(s.display), s.operation.value);
              r.previousValue == Some(v) && r.display == c.format(v)
    ensures !(HasPending(s) && !s.newNumber) ==>
              r.previousValue == Some(c.parse(s.display)) && r.display == s.display
  {
    var current := c.parse(s.display);
    if HasPending(s) && !s.newNumber then
      var result := Calculate(s.previousValue.value, current, s.operation.value);
      State(c.format(result), Some(result), Some(op), true)
    else
      s.(previousValue := Some(current), operation := Some(op), newNumber := true)
  }

  /** The equals key: a no-op unless an operation is pending; otherwise the result is shown
      and the pending operation is consumed. */
  function HandleEquals(c: Codec, s: State): (r: State)
    ensures !HasPending(s) ==> r == s
    ensures HasPending(s) ==>
              r.display == c.format(Calculate(s.previousValue.value, c.parse(s.display), s.operation.value))
    ensures HasPending(s) ==> r.previousValue.None? && r.operation.None? && r.newNumber
    ensures !HasPending(r)
  {
    if HasPending(s) then
      var result := Calculate(s.previousValue.value, c.parse(s.display), s.operation.value);
      State(c.format(result), None, None, true)
    else
      s
  }

  /** The clear key. */
  function HandleClear(s: State): (r: State)
    ensures r.display == "0" && r.newNumber
    ensures r.previousValue.None? && r.operation.None?
  {
    Initial
  }

  /** The backspace key. A one-character display falls back to "0" and re-arms new entry;
      otherwise the last character goes (an empty display stays empty) and the rest of the
      state is kept. */
  function HandleBackspace(s: State): (r: State)
    ensures SamePending(s, r)
    ensures |s.display| == 1 ==> r.display == "0" && r.newNumber
    ensures |s.display| == 0 ==> r == s
    ensures |s.display| >= 2 ==>
              r.newNumber == s.newNumber && r.display + [s.display[|s.display| - 1]] == s.display
  {
    if |s.display| == 1 then
      s.(display := "0", newNumber := true)
    else if |s.display| == 0 then
      s
    else
      s.(display := s.display[..|s.display| - 1])
  }

  /** The percent key: the display's value divided by 100, and new entry re-armed. */
  function HandlePercentage(c: Codec, s: State): (r: State)
    ensures SamePending(s, r) && r.newNumber
    ensures ExactAt(c, c.parse(s.display) / 100.0) ==> c.parse(r.display) * 100.0 == c.parse(s.display)
  {
    var value := c.parse(s.display);
    s.(display := c.format(value / 100.0), newNumber := true)
  }

  /** The sign key: only the display changes, to the negated value. */
  function HandleToggleSign(c: Codec, s: State): (r: State)
    ensures SamePending(s, r) && r.newNumber == s.newNumber
    ensures ExactAt(c, -c.parse(s.display)) ==> c.parse(r.display) + c.parse(s.display) == 0.0
  {
    var value := c.parse(s.display);
    s.(display := c.format(value * -1.0))
  }

  /** One key press. */
  datatype Event =
    | Number(num: string)
    | Decimal
    | Operation(op: string)
    | Equals
    | Clear
    | Backspace
    | Percent
    | ToggleSign

  /** Dispatches a key press to its handler; every handler keeps the operand and the
      operator paired. */
  function Step(c: Codec, s: State, e: Event): (r: State)
    ensures Paired(s) ==> Paired(r)
    ensures e.Clear? ==> r == Initial
  {
    match e
    case Number(num) => HandleNumber(s, num)
    case Decimal => HandleDecimal(s)
    case Operation(op) => HandleOperation(c, s, op)
    case Equals => HandleEquals(c, s)
    case Clear => HandleClear(s)
    case Backspace => HandleBackspace(s)
    case Percent => HandlePercentage(c, s)
    case ToggleSign => HandleToggleSign(c, s)
  }

  /** The state after a sequence of key presses, applied in order. */
  function Run(c: Codec, s: State, es: seq<Event>): (r: State)
    ensures Paired(s) ==> Paired(r)
    decreases |es|
  {
    if es == [] then s
    else Step(c, Run(c, s, es[..|es| - 1]), es[|es| - 1])
  }
}
