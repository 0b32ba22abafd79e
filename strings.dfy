/** The part of Go's `strings` package that the loader uses. */
module Strings {

  /** `strings.TrimRight(s, cutset)`: `s` with every trailing character that occurs in `cutset` removed. */
  function TrimRight(s: string, cutset: string): (r: string)
    ensures |r| <= |s| && r == s[..|r|]
    ensures r == [] || r[|r| - 1] !in cutset
    ensures forall k :: |r| <= k < |s| ==> s[k] in cutset
    decreases |s|
  {
    if |s| > 0 && s[|s| - 1] in cutset then TrimRight(s[..|s| - 1], cutset) else s
  }

  /** A string none of whose characters is in the cutset is left as it is. */
  lemma TrimRightNothingToTrim(s: string, cutset: string)
    requires forall k :: 0 <= k < |s| ==> s[k] !in cutset
    ensures TrimRight(s, cutset) == s
  {
  }

  /** Trimming a terminated line `x + [c]` whose body `x` holds no cutset character gives back `x`. */
  lemma TrimRightTerminated(x: string, c: char, cutset: string)
    requires c in cutset
    requires forall k :: 0 <= k < |x| ==> x[k] !in cutset
    ensures TrimRight(x + [c], cutset) == x
  {
  }
}
