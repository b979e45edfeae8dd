/** JavaScript truthiness of the string values the widget tests with `if (x)` or `x ? … : …`. */
module Truthiness {
  import opened Wrappers

  /** A string is truthy exactly when it is not empty. */
  predicate TruthyString(s: string) {
    s != ""
  }

  /** An optional string is truthy when it is present and truthy. */
  predicate TruthyOption(p: Option<string>) {
    p.Some? && TruthyString(p.value)
  }
}
