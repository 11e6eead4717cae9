/** The character classes that several texts refuse or replace. */
module Characters {
  /** The general category Cc of the Unicode Character Database. */
  predicate IsControl(c: char) {
    c <= '\U{001F}' || '\U{007F}' <= c <= '\U{009F}'
  }
}
