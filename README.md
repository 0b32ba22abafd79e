# Repository recommender: identifier bookkeeping around the vector model

This project models the `server` package of a GitHub repository recommender in Dafny. The package
starts from an offline-trained item-factor array (`item_factors.npy`, one row per repository) and a
parallel list of repository identifiers (`items.csv`, one per line). The model covers the code in
`app.go` that sits around the external vector-model library:

- **Row slicing.** `ReadModel` cuts the flat row-major array of `nRepositories * nFactors` values into
  a map from row index to that row's `nFactors` values. This map is what the vector model is built from.
- **Identifier table.** `ReadModel` reads exactly `nRepositories` newline-terminated lines with
  `bufio.Reader.ReadString('\n')`. It strips trailing newlines with `strings.TrimRight` and stores line
  `i` at position `i` of `repositories`. It also maps the identifier to `i` in `repositoryIDs`, so for a
  duplicate identifier the later line wins. It fails as soon as a line cannot be read.
- **Recommendation.** `Model.Recommend` resolves the caller's identifiers to the set of known row
  indices, dropping unknown ones. It asks the vector model for `n` documents and passes the vector
  model's error on unchanged. Otherwise it names every returned document, keeping the vector model's
  order and scores.

Module layout:

- `Wrappers`: `Option` and `Result`. `Result` stands for Go's `(value, error)` pair.
- `Strings`: `TrimRight`.
- `Bufio`: a `Reader` class over its unread input, with `ReadString`. `EOF` is the text of `io.EOF`.
- `Rows`: `RowMap` and the slicing loop `SliceRows`.
- `Identifiers`: the line structure of `items.csv` (`Lines`), the index invariant
  (`IsIdentifierIndex`) and the reading loop `ReadIdentifiers`.
- `Server`: the `Model` class (`Recommend` and its two loops) and `ReadModel`.

How the external parts enter the model:

- The vector model is a library whose code is not part of this model. Its constructor
  `NewVectorModel` is a function parameter of `ReadModel`. The `Engine` it yields is a function from the
  feedback set and `n` to a ranked answer or an error.
- The `.npy` reader (`gonpy`) enters as its outcome: an error, or a header shape with a body that
  parsed or failed to parse.
- `items.csv` enters as an error from opening it, or as its full contents.
- Error values are Go's error strings, with exactly the message prefixes of `fmt.Errorf` in `app.go`.
- Factor values and scores are type parameters, because the modelled code does no arithmetic on them.
- The fields of `Model` are `const`: the Go code never changes a `Model` after building it. So
  `Recommend` leaves the model's state unchanged by construction.

Where the specification and the code disagree, the model follows the code:

- **Line count.** The specification says the load fails unless the identifier count equals the row count
  exactly. The code fails only when there are fewer complete lines. Lines beyond `Shape[0]` are never
  read (`ReadIgnoresExtraLines`).
- **Duplicate identifiers.** The specification calls the identifier/index mapping bijective. The code keeps
  the later duplicate (`ExampleDuplicate`). The mapping is one-to-one exactly when identifiers are
  distinct (`IdentifierIndexSize`).
- **Feedback exclusion.** The specification says a recommendation never contains a feedback item. The code
  delegates that to the vector model. Even if the vector model excludes the feedback indices, the
  starred identifier can come back when it occurs twice (`DuplicateRecommendedBack`). With distinct
  identifiers it cannot (`AnswerAvoidsFeedback`).
- **Empty feedback.** The code has no policy of its own for an empty feedback set. It passes the empty
  set to the vector model in both sub-cases: no identifiers, and only unknown identifiers
  (`NoUsableFeedback`).

## Model

| member | source | states |
|---|---|---|
| `Strings.TrimRight` | app.go:129 | the result is a prefix of the input; every removed character is in the cutset; the result does not end in a cutset character |
| `Strings.TrimRightTerminated` | app.go:129 | trimming `"\n"` from a newline-terminated line whose body has no newline gives exactly the body |
| `Bufio.IndexOf` | app.go:125 | the result is the position of the first delimiter, or the input's length exactly when the delimiter does not occur |
| `Bufio.Reader.constructor` | app.go:123 | a new reader's unread input is the whole file |
| `Bufio.Reader.ReadString` | app.go:125-128 | with a delimiter left, returns everything up to and including the first one, no error, and consumes exactly that; without one, returns the rest with `io.EOF` and leaves nothing unread |
| `Rows.RowElement` | app.go:105-107 | row `i` has `nFactors` values, and value `j` of row `i` is element `i * nFactors + j` of the flat array |
| `Rows.RowMapShape` | app.go:105-108 | the row map's keys are exactly `0 .. nRepositories-1`, and every row has exactly `nFactors` values |
| `Rows.ConcatRowMap` | app.go:98-108 | the first `k` rows laid end to end are the first `k * nFactors` values, so nothing is lost or repeated |
| `Rows.ConcatAllRows` | app.go:98-108 | an array of exactly `nRepositories * nFactors` values is the concatenation of its rows |
| `Rows.SliceRows` | app.go:105-108 | the slicing loop builds exactly the row map |
| `Identifiers.LinesStep` | app.go:125 | reading one terminated line off the front of the input makes its body the first line, and the lines of the remainder follow |
| `Identifiers.LinesHaveNoNewline` | app.go:125-129 | no stored line contains a newline |
| `Identifiers.LinesOfTerminated` | app.go:124-129 | round trip: writing identifiers one per line, with any unterminated tail after them, and reading the lines back gives the identifiers again |
| `Identifiers.LinesPrefix` | app.go:124-125 | appending text never changes the lines already present; they stay a prefix |
| `Identifiers.TrimRightLine` | app.go:125-129 | `TrimRight(line, "\n")` of a line returned by `ReadString('\n')` is the line without its newline |
| `Identifiers.ReadStep` | app.go:125-130 | one successful read followed by the trim moves exactly the next line from the unread input to the stored identifiers |
| `Identifiers.IdentifierIndexExtend` | app.go:130-131 | storing an identifier at the next position and mapping it there keeps the index invariant, with the new occurrence winning |
| `Identifiers.IdentifierIndexUnique` | app.go:121-131 | at most one map satisfies the index invariant, so the last-writer-wins index is determined by the identifiers |
| `Identifiers.IdentifierRoundTrip` | app.go:130-131 | every stored identifier is a key; it maps to a position at or after its own that holds the same identifier, and that is its last occurrence |
| `Identifiers.DistinctIdentifiers` | app.go:130-131 | with distinct identifiers, the identifier at position `i` maps to `i` |
| `Identifiers.ElementCount` | app.go:120-131 | a sequence holds at most as many distinct identifiers as it has positions, and exactly that many iff its elements are distinct |
| `Identifiers.IdentifierIndexSize` | app.go:120-131 | the index has at most one key per line, and exactly one per line iff identifiers are distinct |
| `Identifiers.ReadIdentifiers` | app.go:120-132 | succeeds iff the file has at least `n` newline-terminated lines, failing otherwise with "Unable to read line of file: EOF"; on success it stores the first `n` lines without newlines, with the last-writer-wins index |
| `Identifiers.ReadIgnoresExtraLines` | app.go:124 | text after the first `n` lines does not change a successful read |
| `Identifiers.ExampleLines` | app.go:124-130 | the file `a\nb\na\n` holds the three identifiers `a`, `b`, `a` |
| `Identifiers.ExampleDuplicate` | app.go:129-131 | for identifiers `a`, `b`, `a` the index is `a -> 2`, `b -> 1` |
| `Identifiers.ExampleUnterminatedLastLine` | app.go:124-128 | `a\nb` holds one complete line, so reading two rows from it fails |
| `Server.ResolveAppend` | app.go:145-150 | resolving one more identifier adds its index when it is known, and nothing when it is not |
| `Server.ResolveMeaning` | app.go:144-150 | under a loaded index, row `d` is in the feedback set iff the caller gave row `d`'s identifier and `d` is that identifier's last row |
| `Server.ResolveDistinct` | app.go:144-150 | with distinct identifiers, row `d` is in the feedback set iff the caller gave row `d`'s identifier |
| `Server.ResolveIgnoresOrder` | app.go:145-149 | the feedback set depends only on which identifiers occur, not on their order or repetition |
| `Server.NoUsableFeedback` | app.go:144-151 | when no identifier is known, the feedback set is empty, the same as for an empty request |
| `Server.NamesLeadBack` | app.go:157 | the identifier given for a returned row leads back through the index to a row with that identifier, and to the same row when identifiers are distinct |
| `Server.AnswerAvoidsFeedback` | app.go:144-158 | with distinct identifiers, if the vector model leaves the feedback rows out, no identifier the caller gave is recommended back |
| `Server.DuplicateRecommendedBack` | app.go:129-131 | with rows `a, a`, the feedback set for `a` is only row 1, so row 0's identifier `a` can still be recommended |
| `Server.Model.constructor` | app.go:134-138 | the model holds exactly the given vector model, identifiers and index |
| `Server.Model.ResolveFeedback` | app.go:144-150 | the loop collects exactly the indices of the known identifiers |
| `Server.Model.NameDocuments` | app.go:155-160 | one result per returned document, in the same order; each result is that document's identifier with its score |
| `Server.Model.Recommend` | app.go:143-161 | a vector-model error is returned unchanged with no results; otherwise every returned document is named, keeping order and score |
| `Server.ReadModel` | app.go:90-140 | the steps run in the source's order and the first failure is returned with its message; on success the vector model is built from the row map, the identifiers are the first `Shape[0]` lines, and the index invariant holds |

## Left out

- The HTTP handlers `home` and `callback`, the OAuth token exchange, cookies and the App Engine URL fetch client are left out. So are JSON decoding of GitHub's responses and the HTML template (app.go:163-345). These are network I/O and presentation.
- `init`, the global `model` it sets, its panics, and the environment variables are left out (app.go:20-23, app.go:87, app.go:163-176).
- The `.npy` container format and `gonpy` are left out (app.go:94-103). The reader's outcome is an input to `ReadModel`. That `Shape[0]` and `Shape[1]` describe the body is the reader's promise, not something this code checks.
- The `path` argument and the file names are left out: `ReadModel` receives the two files' outcomes directly. The opened `items.csv` is never closed in the source; that is not modelled.
- The internals of the vector model are not part of this model (app.go:110, app.go:151): the confidence-weighted ridge solve, the Gram matrix, exclusion of feedback items, top-N selection and tie-breaking. The model claims none of their properties. `AnswerAvoidsFeedback` states the exclusion property only as an explicit hypothesis.
- Floating-point values are opaque: factors and scores are type parameters. The two hyper-parameters are the reals 3.0 and 0.001, without float64 rounding.
- Go panics are preconditions, not error results: a header with fewer than two dimensions, a body shorter than `Shape[0] * Shape[1]`, and a document index from the vector model outside the rows (app.go:98, app.go:107, app.go:157).
- Go's `int` overflow in `i * nFactors` is not modelled; integers are unbounded.
- The row slices in the source share the memory of the flat array. The model copies values instead; nothing later writes to either.
- Bufio.Reader.ReadString: only `io.EOF` is modelled as a read error. The input is the file's full contents, so read failures of the underlying file cannot occur in the model.
- Line ends: the reader treats only `'\n'` as a line end, as the source does, so a `'\r'` before it stays part of the identifier. Go strings are byte strings and are modelled as `seq<char>`.
- app_test.go needs data files on disk and only checks the length of one answer; it is not modelled beyond `Model.Recommend`'s length guarantee.
