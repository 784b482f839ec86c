/** Number entry: what the digit, decimal-point and backspace keys do to the display
    over several presses. */
module Entry {
  import opened Optional
  import opened Numerals
  import opened Calculator

  /** `s` with its leading '0' characters removed. */
  function StripZeros(s: string): (r: string)
    ensures |r| <= |s| && r == s[|s| - |r|..]
    ensures r == [] || r[0] != '0'
    ensures forall i :: 0 <= i < |s| - |r| ==> s[i] == '0'
  {
    if |s| > 0 && s[0] == '0' then StripZeros(s[1..]) else s
  }

  /** The display expected after typing the characters of `ds` into a fresh number: the
      typed text without its leading zeros, or "0" when nothing else remains. */
  function Typed(ds: string): (r: string)
  {
    var t := StripZeros(ds);
    if t == [] then "0" else t
  }

  /** One key press per character of `ds`, in order. */
  function Keystrokes(ds: string): (es: seq<Event>)
    ensures |es| == |ds|
    ensures forall i :: 0 <= i < |ds| ==> es[i] == Number([ds[i]])
  {
    if ds == [] then [] else Keystrokes(ds[..|ds| - 1]) + [Number([ds[|ds| - 1]])]
  }

  /** Stripping commutes with appending a character unless everything before it was zeros. */
  lemma {:induction false} StripZerosAppend(ds: string, d: char)
    ensures StripZeros(ds + [d]) ==
              if StripZeros(ds) == [] then StripZeros([d]) else StripZeros(ds) + [d]
  {
    if ds != [] && ds[0] == '0' {
      assert (ds + [d])[1..] == ds[1..] + [d];
      StripZerosAppend(ds[1..], d);
    }
  }

  /** Typing a run of characters into a fresh number leaves exactly `Typed(ds)` on the
      display, ready to be extended, with the pending operation untouched. In particular a
      leading "0" is replaced rather than kept. */
  lemma {:induction false} TypedDigits(c: Codec, s: State, ds: string)
    requires s.newNumber && |ds| > 0
    ensures Run(c, s, Keystrokes(ds)) == s.(display := Typed(ds), newNumber := false)
  {
    var es := Keystrokes(ds);
    var n := |ds|;
    var d := ds[n - 1];
    var init := ds[..n - 1];
    assert es[..n - 1] == Keystrokes(init);
    assert ds == init + [d];
    if n == 1 {
      assert Run(c, s, es[..n - 1]) == s;
    } else {
      TypedDigits(c, s, init);
      StripZerosAppend(init, d);
      assert StripZeros(init) != "0";
    }
  }

  /** Example: typing 1, 2, 3 after the clear key shows "123". */
  lemma TypedOneTwoThree(c: Codec)
    ensures Run(c, Initial, Keystrokes("123")).display == "123"
  {
    TypedDigits(c, Initial, "123");
  }

  /** Pressing 0 while the display is "0" leaves it "0": no leading zeros pile up. */
  lemma ZeroOnZero(s: State)
    requires s.display == "0"
    ensures HandleNumber(s, "0").display == "0"
  {
  }

  /** The decimal-point key is idempotent: a second press changes nothing. */
  lemma DecimalIdempotent(s: State)
    ensures HandleDecimal(HandleDecimal(s)) == HandleDecimal(s)
  {
  }

  /** Backspace takes back a digit appended to a number being entered. */
  lemma BackspaceUndoesDigit(s: State, d: char)
    requires !s.newNumber && s.display != "0" && |s.display| >= 1
    ensures HandleBackspace(HandleNumber(s, [d])) == s
  {
    assert (s.display + [d])[..|s.display|] == s.display;
  }

  /** Backspace takes back a decimal point appended to a number being entered. */
  lemma BackspaceUndoesDecimal(s: State)
    requires !s.newNumber && '.' !in s.display && |s.display| >= 1
    ensures HandleBackspace(HandleDecimal(s)) == s
  {
    assert (s.display + ".")[..|s.display|] == s.display;
  }

  /** The display need not hold a number: with a formatter that writes -5 as "-5", typing 5,
      pressing the sign key and then backspace leaves a lone "-". */
  lemma SignLeftAlone(c: Codec)
    requires c.parse("5") == 5.0 && c.format(-5.0) == "-5"
    ensures Run(c, Initial, [Number("5"), ToggleSign, Backspace]).display == "-"
  {
    var es := [Number("5"), ToggleSign, Backspace];
    assert es[..2][..1] == [Number("5")];
    assert Run(c, Initial, es[..2][..1]).display == "5";
    assert Run(c, Initial, es[..2]).display == "-5";
  }
}
