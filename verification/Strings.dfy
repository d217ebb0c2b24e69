/** The text operations the modelled code uses: `startsWith`, `endsWith`, `includes`, `split(c)[0]` and the like. */
module Strings {
  import opened Results

  predicate StartsWith(s: string, prefix: string) {
    prefix <= s
  }

  predicate EndsWith(s: string, suffix: string) {
    |suffix| <= |s| && s[|s| - |suffix|..] == suffix
  }

  predicate Includes(s: string, part: string) {
    exists i | 0 <= i <= |s| :: part <= s[i..]
  }

  /** The part of `s` before the first character of `stops`: `s.split(c)[0]` when `stops` is `{c}`. */
  function Before(s: string, stops: set<char>): (r: string)
    ensures r <= s
    ensures forall c | c in r :: c !in stops
    ensures |r| < |s| ==> s[|r|] in stops
  {
    if s == [] || s[0] in stops then [] else [s[0]] + Before(s[1..], stops)
  }

  /** How often a list names a text. */
  function Occurrences(texts: seq<string>, text: string): nat {
    if texts == [] then 0
    else Occurrences(texts[..|texts| - 1], text) + if texts[|texts| - 1] == text then 1 else 0
  }

  /** A missing text as the empty one. */
  function OrEmpty(s: Option<string>): string {
    if s.Some? then s.value else ""
  }
}
