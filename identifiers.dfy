/**
 * Reading `items.csv`: one repository identifier per newline-terminated line, line `i`
 * naming row `i` of the factor array, and the identifier-to-index map built beside it.
 */
module Identifiers {
  import opened Wrappers
  import opened Strings
  import opened Bufio

  /** The newline-terminated lines of `s`, each without its `'\n'`; an unterminated tail is not a line. */
  function Lines(s: string): seq<string>
    decreases |s|
  {
    var k := IndexOf(s, '\n');
    if k == |s| then [] else [s[..k]] + Lines(s[k + 1..])
  }

  /** The text whose lines are `ls`: each followed by a `'\n'`. */
  function Terminated(ls: seq<string>): string
  {
    if ls == [] then [] else ls[0] + "\n" + Terminated(ls[1..])
  }

  predicate NoNewline(s: string) {
    forall k :: 0 <= k < |s| ==> s[k] != '\n'
  }

  /** Consuming one terminated line from the front of the input yields its body as the first line. */
  lemma {:induction false} LinesStep(line: string, rest: string)
    requires |line| > 0 && line[|line| - 1] == '\n' && '\n' !in line[..|line| - 1]
    ensures Lines(line + rest) == [line[..|line| - 1]] + Lines(rest)
  {
    var s := line + rest;
    var k := IndexOf(s, '\n');
    var e := |line| - 1;
    assert s[e] == '\n';
    assert forall j :: 0 <= j < e ==> s[j] == line[..e][j];
    assert k == e;
    assert s[..k] == line[..e];
    assert s[k + 1..] == rest;
  }

  /** No line contains a newline. */
  lemma {:induction false} LinesHaveNoNewline(s: string)
    ensures forall i :: 0 <= i < |Lines(s)| ==> NoNewline(Lines(s)[i])
    decreases |s|
  {
    var k := IndexOf(s, '\n');
    if k < |s| {
      LinesHaveNoNewline(s[k + 1..]);
    }
  }

  /** Round trip: the lines of `Terminated(ls)`, followed by any unterminated tail, are `ls` again. */
  lemma {:induction false} LinesOfTerminated(ls: seq<string>, tail: string)
    requires forall i :: 0 <= i < |ls| ==> NoNewline(ls[i])
    requires NoNewline(tail)
    ensures Lines(Terminated(ls) + tail) == ls
  {
    if ls == [] {
      assert IndexOf(tail, '\n') == |tail|;
    } else {
      var line := ls[0] + "\n";
      assert line[..|line| - 1] == ls[0];
      assert Terminated(ls) + tail == line + (Terminated(ls[1..]) + tail);
      LinesStep(line, Terminated(ls[1..]) + tail);
      LinesOfTerminated(ls[1..], tail);
    }
  }

  /** Text appended after the input never changes the lines already there: they stay a prefix. */
  lemma {:induction false} LinesPrefix(a: string, b: string)
    ensures Lines(a) <= Lines(a + b)
    decreases |a|
  {
    var k := IndexOf(a, '\n');
    if k < |a| {
      var line, t := a[..k + 1], a[k + 1..];
      LinesPrefix(t, b);
      ConsLines(line, t, b);
      SplitAt(a, b, k + 1);
    } else {
      assert Lines(a) == [];
    }
  }

  /** Splitting `a` after its first `k` characters, with and without a suffix `b`. */
  lemma SplitAt(a: string, b: string, k: nat)
    requires k <= |a|
    ensures a == a[..k] + a[k..]
    ensures a + b == a[..k] + (a[k..] + b)
  {
  }

  /** The step of `LinesPrefix`: `line + t` and `line + t + b` start with the same terminated line. */
  lemma ConsLines(line: string, t: string, b: string)
    requires |line| > 0 && line[|line| - 1] == '\n' && '\n' !in line[..|line| - 1]
    requires Lines(t) <= Lines(t + b)
    ensures Lines(line + t) <= Lines(line + (t + b))
  {
    LinesStep(line, t);
    LinesStep(line, t + b);
  }

  /**
   * `ids` indexes `repos` with the later occurrence of a duplicate winning: its keys are
   * exactly the identifiers in `repos`, each key maps to a position holding that key, and no
   * later position holds it.
   */
  predicate IsIdentifierIndex(repos: seq<string>, ids: map<string, int>) {
    && (forall r :: r in ids ==> r in repos)
    && (forall i :: 0 <= i < |repos| ==> repos[i] in ids)
    && (forall r :: r in ids ==> 0 <= ids[r] < |repos| && repos[ids[r]] == r)
    && (forall r, j :: r in ids && ids[r] < j < |repos| ==> repos[j] != r)
  }

  predicate Distinct(repos: seq<string>) {
    forall i, j :: 0 <= i < j < |repos| ==> repos[i] != repos[j]
  }

  /** The index is determined by the identifiers: there is only one map satisfying `IsIdentifierIndex`. */
  lemma IdentifierIndexUnique(repos: seq<string>, a: map<string, int>, b: map<string, int>)
    requires IsIdentifierIndex(repos, a) && IsIdentifierIndex(repos, b)
    ensures a == b
  {
  }

  /**
   * Round trip and last writer wins: every identifier at position `i` is a key, it maps to
   * a position at or after `i` holding the same identifier, and that position is the last
   * one holding it.
   */
  lemma IdentifierRoundTrip(repos: seq<string>, ids: map<string, int>, i: int)
    requires IsIdentifierIndex(repos, ids)
    requires 0 <= i < |repos|
    ensures repos[i] in ids
    ensures i <= ids[repos[i]] < |repos| && repos[ids[repos[i]]] == repos[i]
    ensures forall j :: 0 <= j < |repos| && repos[j] == repos[i] ==> j <= ids[repos[i]]
  {
  }

  /** With distinct identifiers the index is the inverse of the position sequence. */
  lemma DistinctIdentifiers(repos: seq<string>, ids: map<string, int>)
    requires IsIdentifierIndex(repos, ids) && Distinct(repos)
    ensures forall i :: 0 <= i < |repos| ==> repos[i] in ids && ids[repos[i]] == i
  {
  }

  /** The set of identifiers occurring in `s` has at most `|s|` members, exactly `|s|` when they are distinct. */
  lemma {:induction false} ElementCount(s: seq<string>)
    ensures |set r | r in s| <= |s|
    ensures |set r | r in s| == |s| <==> Distinct(s)
  {
    if s != [] {
      var p, x := s[..|s| - 1], s[|s| - 1];
      ElementCount(p);
      assert s == p + [x];
      assert (set r | r in s) == (set r | r in p) + {x};
      if x in p {
        assert (set r | r in s) == (set r | r in p);
        var j :| 0 <= j < |p| && p[j] == x;
        assert s[j] == s[|s| - 1];
      } else {
        assert Distinct(s) <==> Distinct(p);
      }
    }
  }

  /** The map has one key per distinct identifier: as many keys as lines exactly when no identifier repeats. */
  lemma IdentifierIndexSize(repos: seq<string>, ids: map<string, int>)
    requires IsIdentifierIndex(repos, ids)
    ensures |ids| <= |repos|
    ensures |ids| == |repos| <==> Distinct(repos)
  {
    assert ids.Keys == set r | r in repos;
    ElementCount(repos);
  }

  /** `TrimRight(line, "\n")` of a line read by `ReadString('\n')` is its body, which is what `Lines` holds. */
  lemma TrimRightLine(line: string)
    requires |line| > 0 && line[|line| - 1] == '\n' && '\n' !in line[..|line| - 1]
    ensures TrimRight(line, "\n") == line[..|line| - 1]
  {
  }

  /** Storing identifier `x` at the next position and mapping it there keeps the index, with `x` now winning. */
  lemma IdentifierIndexExtend(repos: seq<string>, ids: map<string, int>, x: string)
    requires IsIdentifierIndex(repos, ids)
    ensures IsIdentifierIndex(repos + [x], ids[x := |repos|])
  {
  }

  /** Input without a newline holds no line. */
  lemma LinesWithoutNewline(s: string)
    requires '\n' !in s
    ensures Lines(s) == []
  {
  }

  /** One successful `ReadString('\n')` followed by `TrimRight` moves exactly the next line from the input to the result. */
  lemma ReadStep(contents: string, done: seq<string>, line: string, rest: string)
    requires Lines(contents) == done + Lines(line + rest)
    requires |line| > 0 && line[|line| - 1] == '\n' && '\n' !in line[..|line| - 1]
    ensures Lines(contents) == (done + [TrimRight(line, "\n")]) + Lines(rest)
  {
    LinesStep(line, rest);
    TrimRightLine(line);
  }

  /**
   * The identifier loop of `ReadModel`: reads exactly `n` lines with `ReadString('\n')`,
   * strips the trailing newlines of each with `TrimRight`, stores line `i` at position `i`
   * and maps it to `i`. It fails as soon as a read reports an error, which happens exactly
   * when fewer than `n` newline-terminated lines are available.
   */
  method ReadIdentifiers(contents: string, n: nat) returns (r: Result<(seq<string>, map<string, int>), string>)
    ensures r.Success? <==> n <= |Lines(contents)|
    ensures r.Failure? ==> r.error == "Unable to read line of file: " + EOF
    ensures r.Success? ==> r.value.0 == Lines(contents)[..n] && IsIdentifierIndex(r.value.0, r.value.1)
  {
    var repositories := new string[n];
    var repositoryIDs: map<string, int> := map[];
    var reader := new Reader(contents);
    var i := 0;
    while i < n
      invariant 0 <= i <= n
      invariant Lines(contents) == repositories[..i] + Lines(reader.rest)
      invariant IsIdentifierIndex(repositories[..i], repositoryIDs)
    {
      ghost var done, before := repositories[..i], reader.rest;
      var line, err := reader.ReadString('\n');
      if err.Some? {
        LinesWithoutNewline(before);
        return Failure("Unable to read line of file: " + err.value);
      }
      var repo := TrimRight(line, "\n");
      ReadStep(contents, done, line, reader.rest);
      IdentifierIndexExtend(done, repositoryIDs, repo);
      repositories[i] := repo;
      repositoryIDs := repositoryIDs[repo := i];
      assert repositories[..i + 1] == done + [repo];
      i := i + 1;
    }
    assert repositories[..] == repositories[..n];
    return Success((repositories[..], repositoryIDs));
  }

  /** Lines beyond the first `n` are never consulted: appending text leaves a successful read unchanged. */
  lemma ReadIgnoresExtraLines(contents: string, more: string, n: nat)
    requires n <= |Lines(contents)|
    ensures n <= |Lines(contents + more)|
    ensures Lines(contents + more)[..n] == Lines(contents)[..n]
  {
    LinesPrefix(contents, more);
    var shorter, longer := Lines(contents), Lines(contents + more);
    assert longer[..n] == longer[..|shorter|][..n];
  }

  /** Three terminated lines hold three identifiers. */
  lemma ExampleLines()
    ensures Lines("a\nb\na\n") == ["a", "b", "a"]
  {
    assert Terminated(["a"]) == "a\n";
    assert Terminated(["b", "a"]) == "b\na\n";
    assert "a\nb\na\n" == Terminated(["a", "b", "a"]) + "";
    LinesOfTerminated(["a", "b", "a"], "");
  }

  /** With a duplicate among the identifiers, the later `a` wins. */
  lemma ExampleDuplicate(ids: map<string, int>)
    requires IsIdentifierIndex(["a", "b", "a"], ids)
    ensures ids == map["a" := 2, "b" := 1]
  {
    assert IsIdentifierIndex(["a", "b", "a"], map["a" := 2, "b" := 1]);
    IdentifierIndexUnique(["a", "b", "a"], ids, map["a" := 2, "b" := 1]);
  }

  /** A last line without its newline is not counted: two rows cannot be read from `"a\nb"`. */
  lemma ExampleUnterminatedLastLine()
    ensures Lines("a\nb") == ["a"]
  {
    assert "a\nb" == Terminated(["a"]) + "b";
    LinesOfTerminated(["a"], "b");
  }
}
