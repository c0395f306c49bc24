/** Character tests shared by the record identifiers, the password pattern
    and the origin pattern. */
module Chars {

  /** An ASCII decimal digit, which is also what `\d` matches in a
      JavaScript pattern without the `u` flag. */
  predicate IsDigit(c: char) { '0' <= c <= '9' }
}
