/** The primitive values that the records of the uncontrolled form and of the
    store hold: strings, numbers (modelled as reals, with no NaN or infinity)
    and booleans. */
module Values {
  datatype Value = Str(s: string) | Num(n: real) | Bool(b: bool)
}
