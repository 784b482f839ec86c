# Calculator input state machine

A Dafny model of the logic of a single-screen calculator widget. The widget keeps four
pieces of state: the `display` text, the saved left operand `previousValue`, the pending
`operation`, and the `newNumber` flag that says whether the next digit starts a fresh
number. Eight key handlers change that state: digit, decimal point, operator, equals,
clear, backspace, percent and sign toggle. The operator and equals handlers share one
arithmetic helper, `calculate`.

The model follows the component in `src/pages/Index.tsx`:

- `numerals.dfy`: `Optional.Option` stands for the `null`-able fields. `Numerals.Codec`
  holds the two conversions the handlers call, `parseFloat` and `String(number)`. The caller
  supplies them as total functions over exact reals. `Numerals.ExactAt(c, x)` says the pair
  round-trips at `x`. Properties that depend on the round trip assume it only at the values
  they need.
- `arithmetic.dfy`: the operator keys' symbols (`+`, `-`, `×`, `÷`) and `calculate`. Each
  case is described by the operation that undoes it. Division by zero yields 0. Any other
  operator text returns the current operand.
- `calculator.dfy`: the state record, one pure function per handler, the `Event` type,
  `Step` for one key press and `Run` for a sequence of key presses.
- `entry.dfy`: multi-press facts about number entry. These cover typed digits against an
  independent "strip leading zeros" definition, backspace undoing a digit or a point, and
  the decimal key's idempotence.
- `session.dfy`: session facts. These cover splitting a run, clear forgetting history,
  operator chaining, equals idempotence and negating twice. There are also two worked key
  sequences: `5 + 3 × 2 =` and `5 ÷ 0 =`.

Behaviour of the code that the model keeps:

- The display is not always a number. `SignLeftAlone` shows a reachable display of `"-"`,
  produced by backspace on `"-5"`.
- The sign key does not give back the same text when pressed twice. It gives back the same
  parsed value, and only when the formatter round-trips (`ToggleTwice`).
- The stored operator is any string, not one of four symbols. An empty string counts as "no
  operator" in the code's truthiness test (`HasPending`).
- Backspace on an empty display leaves it empty.
- The operator key evaluates only when a saved operand exists, the operator text is
  non-empty and `newNumber` is false.

## Model

| member | source | states |
|---|---|---|
| Arithmetic.Symbol | src/pages/Index.tsx:45-51 | each operator key hands over a one-character text |
| Arithmetic.OperatorOf | src/pages/Index.tsx:44-53 | only the four key symbols select an operator, and the chosen operator's symbol is exactly the text given; every other text selects none |
| Arithmetic.SymbolRoundTrip | src/pages/Index.tsx:44-52 | each operator key's symbol is recognised as that operator, so no two operators share a text |
| Arithmetic.Apply | src/pages/Index.tsx:45-52 | addition is undone by subtracting the operand, subtraction by adding it, multiplication and division by the opposite operation when the operand is non-zero; multiplying or dividing by zero gives 0 |
| Arithmetic.Calculate | src/pages/Index.tsx:43-56 | a recognised operator symbol applies that operator; any other operator text returns the current operand unchanged |
| Arithmetic.ApplyInverse | src/pages/Index.tsx:45-52 | add/subtract undo each other, and multiply/divide undo each other for a non-zero operand |
| Arithmetic.DivideByZero | src/pages/Index.tsx:51-52 | dividing any value by zero gives 0, with no fault |
| Calculator.PendingGuard | src/pages/Index.tsx:28-67 | an operation counts as pending exactly when a saved operand exists and the stored operator text is non-empty; a saved operand with the empty operator text makes equals a no-op and the operator key skip evaluation |
| Calculator.InitialState | src/pages/Index.tsx:5-8 | the widget starts showing "0", with nothing saved or pending, new entry armed, and the operand and operator paired |
| Calculator.HandleNumber | src/pages/Index.tsx:10-17 | a digit starts a fresh number or replaces a lone "0"; otherwise the old display is kept as a prefix and the digit follows it; the flag ends false and the pending pair is untouched |
| Calculator.HandleDecimal | src/pages/Index.tsx:19-26 | the display always holds a point afterwards; a fresh number becomes "0."; an existing point means no change; otherwise exactly one point is appended |
| Calculator.HandleOperation | src/pages/Index.tsx:28-41 | with a pending operation and a second operand, the result is shown and saved; otherwise the display's value is saved and the display kept; the operator always becomes pending and the flag true |
| Calculator.HandleEquals | src/pages/Index.tsx:58-67 | with nothing pending, nothing changes; otherwise the formatted result is shown, both pending fields are cleared and the flag is set; nothing is pending afterwards |
| Calculator.HandleClear | src/pages/Index.tsx:69-74 | whatever the state before, the display is "0", nothing is pending and the flag is set |
| Calculator.HandleBackspace | src/pages/Index.tsx:76-83 | a one-character display becomes "0" with the flag set; a longer display loses exactly its last character with the flag unchanged; the pending pair is never touched |
| Calculator.HandlePercentage | src/pages/Index.tsx:85-89 | the flag is set and the pending pair untouched; when the formatter round-trips, the new display's value times 100 is the old value |
| Calculator.HandleToggleSign | src/pages/Index.tsx:91-94 | only the display changes; when the formatter round-trips, the new value is the negation of the old |
| Calculator.Step | src/pages/Index.tsx:5-94 | every handler keeps the saved operand and the operator both set or both absent; the clear key yields the initial state from any state |
| Calculator.Run | src/pages/Index.tsx:5-8 | a sequence of key presses from a paired state keeps the operand and operator paired |
| Entry.TypedDigits | src/pages/Index.tsx:10-17 | typing characters into a fresh number shows them without leading zeros ("0" if nothing remains), the flag ends false and the pending pair is untouched |
| Entry.TypedOneTwoThree | src/pages/Index.tsx:10-17 | typing 1, 2, 3 after the clear key shows "123" |
| Entry.ZeroOnZero | src/pages/Index.tsx:15 | pressing 0 on a display of "0" leaves "0" |
| Entry.DecimalIdempotent | src/pages/Index.tsx:19-26 | a second press of the decimal key changes nothing |
| Entry.BackspaceUndoesDigit | src/pages/Index.tsx:76-83 | backspace exactly undoes a digit appended to a number being entered |
| Entry.BackspaceUndoesDecimal | src/pages/Index.tsx:76-83 | backspace exactly undoes a point appended to a number being entered |
| Entry.SignLeftAlone | src/pages/Index.tsx:76-94 | a display that is not a number is reachable: 5, sign, backspace shows "-" |
| Session.RunAppend | src/pages/Index.tsx:10-94 | running two key sequences one after the other equals running their concatenation |
| Session.ReachablePaired | src/pages/Index.tsx:5-8 | every state reachable from the initial one has the operand and operator both set or both absent |
| Session.ClearForgetsHistory | src/pages/Index.tsx:69-74 | after the clear key, a session behaves as if it had just started, whatever came before |
| Session.OperatorTwice | src/pages/Index.tsx:28-41 | a second operator key in a row keeps the saved operand and only replaces the operator; when the first press evaluated a pending operation, this needs the formatter to round-trip at its result |
| Session.OperatorEvaluatesLikeEquals | src/pages/Index.tsx:28-67 | an operator key after a second operand shows the same result equals would, and saves that result as the next left operand |
| Session.EqualsIdempotent | src/pages/Index.tsx:58-67 | pressing equals twice is the same as pressing it once |
| Session.ToggleTwice | src/pages/Index.tsx:91-94 | negating twice restores the displayed value and leaves the rest of the state alone, when the formatter round-trips at the value and its negation |
| Session.ChainWithoutEquals | src/pages/Index.tsx:28-67 | 5 + 3 × shows and saves 8 with × pending, and 2 = then shows 16 |
| Session.DivisionByZeroShowsZero | src/pages/Index.tsx:43-67 | 5 ÷ 0 = shows the formatted 0, whatever the dividend parses to |

## Left out

- Floating point: values are exact reals. IEEE-754 rounding, NaN and Infinity are not modelled. `parseFloat` and `String(number)` are caller-supplied functions (`Numerals.Codec`), not their JavaScript definitions.
- Calculator.HandlePercentage: relates the new display to the old value only when the formatter round-trips, because the text `String(number)` produces is not modelled.
- Calculator.HandleToggleSign: relates the new display to the old value only when the formatter round-trips, for the same reason.
- Rendering: the React `useState` setters and re-rendering become one pure state-transition function per key.
- Presentation: the JSX layout, the styling, the button wiring and the `CalcButton` component are not modelled. The buttons only decide which events exist.
- The imported `Button` component is a library wrapper and is not part of this model.
- Display length counts characters (Unicode scalar values), not JavaScript's UTF-16 code units. The two agree on every text the keys can produce.
