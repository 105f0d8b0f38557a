/** Which strings name a release version (crates/installer/src/version.rs). */
module ReleaseVersion {
  predicate IsVersionChar(c: char) {
    'A' <= c <= 'Z' || 'a' <= c <= 'z' || '0' <= c <= '9' || c == '.' || c == '+' || c == '-'
  }

  predicate HasDoubleDot(value: string) {
    exists i :: 0 <= i < |value| - 1 && value[i] == '.' && value[i + 1] == '.'
  }

  /** One to 100 safe characters: one path segment, never `.`, no traversal, never a flag. */
  predicate IsValidReleaseVersion(value: string) {
    && 1 <= |value| <= 100
    && (forall i :: 0 <= i < |value| ==> IsVersionChar(value[i]))
    && value != "."
    && !HasDoubleDot(value)
    && value[0] != '-'
  }
}
