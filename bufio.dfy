/** The part of Go's `bufio` package that the loader uses: a reader over the rest of an input. */
module Bufio {
  import opened Wrappers

  /** The text of `io.EOF`, the error a read at the end of the input reports. */
  const EOF: string := "EOF"

  /** The position of the first `delim` in `s`, or `|s|` when there is none. */
  function IndexOf(s: string, delim: char): (k: nat)
    ensures k <= |s|
    ensures k < |s| ==> s[k] == delim
    ensures forall j :: 0 <= j < k ==> s[j] != delim
    ensures k == |s| <==> delim !in s
  {
    if s == [] then 0
    else if s[0] == delim then 0
    else 1 + IndexOf(s[1..], delim)
  }

  /** A `bufio.Reader` over an in-memory input; the file it wraps is its content. */
  class Reader {
    /** The input not yet consumed. */
    var rest: string

    constructor (input: string)
      ensures rest == input
    {
      rest := input;
    }

    /**
     * `ReadString(delim)`: reads up to and including the first `delim`. When the input holds
     * no `delim`, it returns everything that is left together with `io.EOF`. The error is
     * reported exactly when the returned data does not end in `delim`.
     */
    method ReadString(delim: char) returns (line: string, err: Option<string>)
      modifies this
      ensures delim in old(rest) ==>
                && err == None
                && line + rest == old(rest)
                && |line| > 0 && line[|line| - 1] == delim
                && delim !in line[..|line| - 1]
      ensures delim !in old(rest) ==> err == Some(EOF) && line == old(rest) && rest == []
    {
      var k := IndexOf(rest, delim);
      if k < |rest| {
        line, rest := rest[..k + 1], rest[k + 1..];
        assert line[..|line| - 1] == old(rest)[..k];
        err := None;
      } else {
        line, rest := rest, [];
        err := Some(EOF);
      }
    }
  }
}
