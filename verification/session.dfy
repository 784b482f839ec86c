/** Properties of whole key-press sessions and of the operator, equals, clear, percent and
    sign keys in combination. */
module Session {
  import opened Optional
  import opened Numerals
  import opened Arithmetic
  import opened Calculator

  /** A session can be split anywhere: running `a` then `b` is running `a + b`. */
  lemma {:induction false} RunAppend(c: Codec, s: State, a: seq<Event>, b: seq<Event>)
    ensures Run(c, s, a + b) == Run(c, Run(c, s, a), b)
    decreases |b|
  {
    if b != [] {
      var n := |b|;
      assert (a + b)[..|a + b| - 1] == a + b[..n - 1];
      assert (a + b)[|a + b| - 1] == b[n - 1];
      RunAppend(c, s, a, b[..n - 1]);
    } else {
      assert a + b == a;
    }
  }

  /** Every state reachable from the initial one keeps the operand and the operator paired. */
  lemma ReachablePaired(c: Codec, es: seq<Event>)
    ensures Paired(Run(c, Initial, es))
  {
  }

  /** The clear key forgets all history: whatever was pressed before it, the session
      continues as if it had just started. */
  lemma ClearForgetsHistory(c: Codec, s: State, before: seq<Event>, after: seq<Event>)
    ensures Run(c, s, before + [Clear] + after) == Run(c, Initial, after)
  {
    RunAppend(c, s, before + [Clear], after);
    RunAppend(c, s, before, [Clear]);
    assert [Clear][..0] == [];
  }

  /** Two operator keys in a row: the second keeps the saved operand and only replaces the
      pending operator, provided that, when the first press evaluated, its displayed result re-parses to the saved operand. */
  lemma OperatorTwice(c: Codec, s: State, a: string, b: string)
    requires HasPending(s) && !s.newNumber ==>
               ExactAt(c, Calculate(s.previousValue.value, c.parse(s.display), s.operation.value))
    ensures HandleOperation(c, HandleOperation(c, s, a), b)
              == HandleOperation(c, s, a).(operation := Some(b))
  {
  }

  /** An operator key pressed after a second operand evaluates the pending operation exactly
      as the equals key would, and keeps its result as the next left operand. */
  lemma OperatorEvaluatesLikeEquals(c: Codec, s: State, op: string)
    requires HasPending(s) && !s.newNumber
    ensures HandleOperation(c, s, op).display == HandleEquals(c, s).display
    ensures HandleOperation(c, s, op).previousValue.Some?
    ensures ExactAt(c, HandleOperation(c, s, op).previousValue.value) ==>
              c.parse(HandleEquals(c, s).display) == HandleOperation(c, s, op).previousValue.value
  {
  }

  /** The equals key consumes the pending operation, so pressing it again changes nothing. */
  lemma EqualsIdempotent(c: Codec, s: State)
    ensures HandleEquals(c, HandleEquals(c, s)) == HandleEquals(c, s)
  {
  }

  /** Negating twice restores the displayed value (and everything else), provided the
      conversions round-trip at the value and at its negation. */
  lemma ToggleTwice(c: Codec, s: State)
    requires ExactAt(c, c.parse(s.display)) && ExactAt(c, -c.parse(s.display))
    ensures var t := HandleToggleSign(c, HandleToggleSign(c, s));
            c.parse(t.display) == c.parse(s.display) && t == s.(display := t.display)
  {
  }

  /** Example: 5 + 3 x 2 = chains without equals: the x key shows and saves 8, and the final
      equals shows 16. */
  lemma ChainWithoutEquals(c: Codec)
    requires c.parse("5") == 5.0 && c.parse("3") == 3.0 && c.parse("2") == 2.0
    ensures var s := Run(c, Initial, [Number("5"), Operation("+"), Number("3"), Operation(Symbol(Mul))]);
            s.display == c.format(8.0) && s.previousValue == Some(8.0) && s.operation == Some(Symbol(Mul))
    ensures Run(c, Initial, [Number("5"), Operation("+"), Number("3"), Operation(Symbol(Mul)),
                             Number("2"), Equals]).display == c.format(16.0)
  {
    var es := [Number("5"), Operation("+"), Number("3"), Operation(Symbol(Mul)), Number("2"), Equals];
    var s1 := Step(c, Initial, es[0]);
    var s2 := Step(c, s1, es[1]);
    var s3 := Step(c, s2, es[2]);
    var s4 := Step(c, s3, es[3]);
    var s5 := Step(c, s4, es[4]);
    assert s4.previousValue == Some(8.0);
    assert Run(c, Initial, es[..1]) == s1;
    assert Run(c, Initial, es[..2]) == s2 by { assert es[..2][..1] == es[..1]; }
    assert Run(c, Initial, es[..3]) == s3 by { assert es[..3][..2] == es[..2]; }
    assert Run(c, Initial, es[..4]) == s4 by { assert es[..4][..3] == es[..3]; }
    assert es[..4] == [Number("5"), Operation("+"), Number("3"), Operation(Symbol(Mul))];
    assert Run(c, Initial, es[..5]) == s5 by { assert es[..5][..4] == es[..4]; }
  }

  /** Example: 5 / 0 = shows the formatted 0 rather than an error, whatever 5 parses to. */
  lemma DivisionByZeroShowsZero(c: Codec)
    requires c.parse("0") == 0.0
    ensures Run(c, Initial, [Number("5"), Operation(Symbol(Div)), Number("0"), Equals]).display
              == c.format(0.0)
  {
    var es := [Number("5"), Operation(Symbol(Div)), Number("0"), Equals];
    var s1 := Step(c, Initial, es[0]);
    var s2 := Step(c, s1, es[1]);
    var s3 := Step(c, s2, es[2]);
    assert s2.operation == Some(Symbol(Div)) && s3.display == "0";
    assert Run(c, Initial, es[..1]) == s1;
    assert Run(c, Initial, es[..2]) == s2 by { assert es[..2][..1] == es[..1]; }
    assert Run(c, Initial, es[..3]) == s3 by { assert es[..3][..2] == es[..2]; }
  }
}
