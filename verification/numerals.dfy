/** Optional values, standing for the calculator's `number | null` and `string | null` fields. */
module Optional {

  datatype Option<+T> = None | Some(value: T)
}

/** The text/number conversions the calculator relies on (parseFloat and String(number)).
    Their floating-point behaviour is not modelled: they are supplied by the caller as a pair
    of total functions over exact reals. */
module Numerals {

  datatype Codec = Codec(parse: string -> real, format: real -> string)

  /** Formatting `x` and parsing the text back yields `x` again. */
  predicate ExactAt(c: Codec, x: real)
  {
    c.parse(c.format(x)) == x
  }
}
