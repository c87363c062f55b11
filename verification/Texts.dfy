/** Strings and lists of strings. */
module Texts {
  ghost predicate Distinct(words: seq<string>) {
    forall i, j | 0 <= i < j < |words| :: words[i] != words[j]
  }

  predicate StartsWith(s: string, prefix: string) {
    prefix <= s
  }

  /** The parts with a separator between any two. */
  function Join(parts: seq<string>, separator: char): string {
    if parts == [] then ""
    else if |parts| == 1 then parts[0]
    else Join(parts[..|parts| - 1], separator) + [separator] + parts[|parts| - 1]
  }
}
