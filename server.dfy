/**
 * The recommendation model of the server: loading the factor array and the identifier
 * list (`ReadModel`), and answering a request by resolving the caller's identifiers to
 * document indices, asking the vector model, and naming the documents it returns
 * (`Model.Recommend`). The vector model itself is an external library; it enters as the
 * functions `NewVectorModel` and the `Engine` it yields.
 */
module Server {
  import opened Wrappers
  import opened Bufio
  import opened Rows
  import opened Identifiers

  /** The hyper-parameters `ReadModel` hands to the vector model. */
  const CONFIDENCE: real := 3.0
  const REGULARIZATION: real := 0.001

  /** One entry of the vector model's answer: a document (row) index and its score. */
  datatype DocumentScore<S> = DocumentScore(documentID: int, score: S)

  /** One entry of the server's answer: a repository identifier and its score. */
  datatype RepositoryScore<S> = RepositoryScore(repository: string, score: S)

  /** The vector model's `Recommend(&seenDocs, n)`: a ranked answer or an error. */
  type Engine<S> = (set<int>, int) -> Result<seq<DocumentScore<S>>, string>

  /** What the `.npy` reader yields: the header's shape and, when the body parses, the flat row-major values. */
  datatype NpyReader<T> = NpyReader(shape: seq<nat>, data: Result<seq<T>, string>) {
    /**
     * What the loader relies on: a two-dimensional header (the loader reads `Shape[0]` and
     * `Shape[1]`), and a body holding at least `Shape[0] * Shape[1]` values.
     */
    predicate WellShaped() {
      |shape| >= 2 && (data.Success? ==> shape[0] * shape[1] <= |data.value|)
    }
  }

  /** Every document index in a successful answer names one of `count` rows. */
  predicate IndicesBelow<S>(answer: Result<seq<DocumentScore<S>>, string>, count: int) {
    answer.Success? ==> forall k :: 0 <= k < |answer.value| ==> 0 <= answer.value[k].documentID < count
  }

  /** The feedback set: the indices of the caller's identifiers that the index knows, unknown ones dropped. */
  function Resolve(ids: map<string, int>, items: seq<string>): set<int> {
    set r | r in items && r in ids :: ids[r]
  }

  /** Resolving one more identifier adds its index when it is known and nothing otherwise. */
  lemma ResolveAppend(ids: map<string, int>, items: seq<string>, x: string)
    ensures Resolve(ids, items + [x]) == Resolve(ids, items) + (if x in ids then {ids[x]} else {})
  {
  }

  /**
   * What the feedback set means for a loaded index: it holds index `d` exactly when `d` is a
   * row, its identifier was among the caller's, and `d` is the last row with that identifier.
   */
  lemma ResolveMeaning(repos: seq<string>, ids: map<string, int>, items: seq<string>, d: int)
    requires IsIdentifierIndex(repos, ids)
    ensures d in Resolve(ids, items) <==>
              && 0 <= d < |repos|
              && repos[d] in items
              && forall j :: d < j < |repos| ==> repos[j] != repos[d]
  {
  }

  /** With distinct identifiers the feedback set is exactly the rows whose identifier the caller gave. */
  lemma ResolveDistinct(repos: seq<string>, ids: map<string, int>, items: seq<string>, d: int)
    requires IsIdentifierIndex(repos, ids) && Distinct(repos)
    ensures d in Resolve(ids, items) <==> 0 <= d < |repos| && repos[d] in items
  {
  }

  /** Order and repetition of the caller's identifiers do not matter: only which identifiers occur. */
  lemma ResolveIgnoresOrder(ids: map<string, int>, a: seq<string>, b: seq<string>)
    requires forall r :: r in a <==> r in b
    ensures Resolve(ids, a) == Resolve(ids, b)
  {
  }

  /**
   * No usable feedback: when none of the caller's identifiers is known (in particular when
   * there are none), the feedback set is empty, the same as for an empty request.
   */
  lemma NoUsableFeedback(ids: map<string, int>, items: seq<string>)
    requires forall k :: 0 <= k < |items| ==> items[k] !in ids
    ensures Resolve(ids, items) == {} == Resolve(ids, [])
  {
  }

  /** The identifier loaded for row `d`, under a loaded index, leads back to a row with that identifier, and to `d` itself when identifiers are distinct. */
  lemma NamesLeadBack(repos: seq<string>, ids: map<string, int>, d: int)
    requires IsIdentifierIndex(repos, ids)
    requires 0 <= d < |repos|
    ensures repos[d] in ids && repos[ids[repos[d]]] == repos[d]
    ensures Distinct(repos) ==> ids[repos[d]] == d
  {
  }

  /**
   * If the vector model leaves the feedback set out of its answer, and identifiers are
   * distinct, then no repository the caller gave is recommended back.
   */
  lemma AnswerAvoidsFeedback<S>(repos: seq<string>, ids: map<string, int>, items: seq<string>, scores: seq<DocumentScore<S>>)
    requires IsIdentifierIndex(repos, ids) && Distinct(repos)
    requires forall k :: 0 <= k < |scores| ==>
               0 <= scores[k].documentID < |repos| && scores[k].documentID !in Resolve(ids, items)
    ensures forall k :: 0 <= k < |scores| ==> repos[scores[k].documentID] !in items
  {
  }

  /**
   * Without distinct identifiers the previous guarantee fails: with rows `a, a` the index
   * maps `a` to row 1, so an answer that leaves out the feedback row 1 may still hold row 0,
   * whose identifier is the caller's own `a`.
   */
  lemma DuplicateRecommendedBack()
    ensures IsIdentifierIndex(["a", "a"], map["a" := 1])
    ensures Resolve(map["a" := 1], ["a"]) == {1}
    ensures ["a", "a"][0] in ["a"]
  {
    assert "a" in ["a"];
  }

  /** The model: the vector model, the identifier of each row, and the index from identifier to row. */
  class Model<S> {
    const vm: Engine<S>
    const repositories: seq<string>
    const repositoryIDs: map<string, int>

    constructor (vm: Engine<S>, repositories: seq<string>, repositoryIDs: map<string, int>)
      ensures this.vm == vm && this.repositories == repositories && this.repositoryIDs == repositoryIDs
    {
      this.vm := vm;
      this.repositories := repositories;
      this.repositoryIDs := repositoryIDs;
    }

    /** The state `ReadModel` establishes: the index is built from the rows' identifiers. */
    predicate Valid() {
      IsIdentifierIndex(repositories, repositoryIDs)
    }

    /** The first loop of `Recommend`: collects the known indices of the caller's identifiers. */
    method ResolveFeedback(items: seq<string>) returns (seenDocs: set<int>)
      ensures seenDocs == Resolve(repositoryIDs, items)
    {
      seenDocs := {};
      var k := 0;
      while k < |items|
        invariant 0 <= k <= |items|
        invariant seenDocs == Resolve(repositoryIDs, items[..k])
      {
        var repo := items[k];
        ResolveAppend(repositoryIDs, items[..k], repo);
        assert items[..k + 1] == items[..k] + [repo];
        if repo in repositoryIDs {
          seenDocs := seenDocs + {repositoryIDs[repo]};
        }
        k := k + 1;
      }
      assert items[..k] == items;
    }

    /** The second loop of `Recommend`: names each returned document, keeping order and scores. */
    method NameDocuments(scores: seq<DocumentScore<S>>) returns (results: seq<RepositoryScore<S>>)
      requires forall k :: 0 <= k < |scores| ==> 0 <= scores[k].documentID < |repositories|
      ensures |results| == |scores|
      ensures forall k :: 0 <= k < |scores| ==>
                results[k] == RepositoryScore(repositories[scores[k].documentID], scores[k].score)
    {
      results := [];
      var k := 0;
      while k < |scores|
        invariant 0 <= k <= |scores|
        invariant |results| == k
        invariant forall j :: 0 <= j < k ==>
                    results[j] == RepositoryScore(repositories[scores[j].documentID], scores[j].score)
      {
        var score := scores[k];
        results := results + [RepositoryScore(repositories[score.documentID], score.score)];
        k := k + 1;
      }
    }

    /**
     * `Recommend(items, n)`: resolves the caller's identifiers, asks the vector model for `n`
     * documents, passes its error on unchanged, and otherwise names every returned document
     * in the order given. The model's state is immutable, so nothing else changes.
     */
    method Recommend(items: seq<string>, n: int) returns (r: Result<seq<RepositoryScore<S>>, string>)
      requires IndicesBelow(vm(Resolve(repositoryIDs, items), n), |repositories|)
      ensures vm(Resolve(repositoryIDs, items), n).Failure? ==>
                r == Failure(vm(Resolve(repositoryIDs, items), n).error)
      ensures vm(Resolve(repositoryIDs, items), n).Success? ==>
                && r.Success?
                && |r.value| == |vm(Resolve(repositoryIDs, items), n).value|
                && forall k :: 0 <= k < |r.value| ==>
                     var s := vm(Resolve(repositoryIDs, items), n).value[k];
                     r.value[k] == RepositoryScore(repositories[s.documentID], s.score)
    {
      var seenDocs := ResolveFeedback(items);
      var scores := vm(seenDocs, n);
      if scores.Failure? {
        return Failure(scores.error);
      }
      var results := NameDocuments(scores.value);
      return Success(results);
    }
  }

  /**
   * `ReadModel`: builds the model from the `.npy` reader's outcome and the contents of
   * `items.csv`. The steps run in the source's order and the first failure is returned with the
   * source's message: the array cannot be read, its body cannot be parsed, the vector model
   * rejects the rows, `items.csv` cannot be opened, or it holds fewer than `Shape[0]`
   * newline-terminated lines. On success the rows are the array's `Shape[0]` slices of
   * `Shape[1]` values, row `i`'s identifier is line `i`, and the index is built from them.
   */
  method ReadModel<T, S>(
    npy: Result<NpyReader<T>, string>,
    newVectorModel: (map<int, seq<T>>, real, real) -> Result<Engine<S>, string>,
    itemsFile: Result<string, string>)
    returns (r: Result<Model<S>, string>)
    requires npy.Success? ==> npy.value.WellShaped()
    ensures npy.Failure? ==> r == Failure("Unable to read data: " + npy.error)
    ensures npy.Success? && npy.value.data.Failure? ==>
              r == Failure("Unable to parse data: " + npy.value.data.error)
    ensures npy.Success? && npy.value.data.Success? ==>
              var rows, cols := npy.value.shape[0], npy.value.shape[1];
              var built := newVectorModel(RowMap(npy.value.data.value, rows, cols), CONFIDENCE, REGULARIZATION);
              && (built.Failure? ==> r == Failure(built.error))
              && (built.Success? && itemsFile.Failure? ==>
                    r == Failure("Unable to open items.csv: " + itemsFile.error))
              && (built.Success? && itemsFile.Success? ==>
                    && (r.Success? <==> rows <= |Lines(itemsFile.value)|)
                    && (r.Failure? ==> r.error == "Unable to read line of file: " + EOF)
                    && (r.Success? ==>
                          && r.value.vm == built.value
                          && r.value.repositories == Lines(itemsFile.value)[..rows]
                          && r.value.Valid()))
  {
    if npy.Failure? {
      return Failure("Unable to read data: " + npy.error);
    }
    var rdr := npy.value;
    var nRepositories, nFactors := rdr.shape[0], rdr.shape[1];
    if rdr.data.Failure? {
      return Failure("Unable to parse data: " + rdr.data.error);
    }
    var data := rdr.data.value;
    var docs := SliceRows(data, nRepositories, nFactors);
    var vm := newVectorModel(docs, CONFIDENCE, REGULARIZATION);
    if vm.Failure? {
      return Failure(vm.error);
    }
    if itemsFile.Failure? {
      return Failure("Unable to open items.csv: " + itemsFile.error);
    }
    var identifiers := ReadIdentifiers(itemsFile.value, nRepositories);
    if identifiers.Failure? {
      return Failure(identifiers.error);
    }
    var m := new Model(vm.value, identifiers.value.0, identifiers.value.1);
    return Success(m);
  }
}
