# Laboratory substance registry

This project models the `Laboratory` class of a small TypeScript inventory
library. In this version of the library the class only keeps a registry of
known substance names.

- The constructor takes a list of names and checks them in order. It throws
  `Invalid substance` for an empty name or a name that `trim()` reduces to
  nothing. It throws `Duplicate substance` for a name already accepted.
  Every other name is added to the private set `knownSubstances`.
- `getQuantity(name)` returns `0` for a registered name. For any other name
  it throws `Unknown substance`.

Layout:

- `names.dfy` (module `Names`): JavaScript's `trim` and the whitespace
  characters it strips (ECMAScript WhiteSpace and LineTerminator). `IsBlank`
  says that a name is whitespace only.
- `registry.dfy` (module `Registry`): errors as values (`LabError`,
  `Result`). `Validate` is a pure, loop-free definition of what construction
  yields. The lemmas about `Validate` state when construction succeeds, what
  it registers and which error it reports.
- `laboratory.dfy` (module `Laboratory`): the class itself.
  - `Create` is the constructor's loop. It updates the object's set step by
    step and is proved to end exactly as `Validate` says.
  - `GetQuantity` is the read-only query.
  - `InitializationScenarios` replays the source's test cases against the model.

Where the test file and the code disagree, the model follows the code:

- An empty input list constructs a laboratory that knows nothing. The tests
  expect `No substances provided`.
- A blank query such as `getQuantity("")` fails with `Unknown substance`. The
  tests expect `Invalid substance`.

## Model

| member | source | states |
|---|---|---|
| `Names.TrimStart` | src/Laboratory.ts:11 | the result is a suffix of the name; every dropped character is whitespace; the result does not start with whitespace |
| `Names.TrimEnd` | src/Laboratory.ts:11 | the result is a prefix of the name; every dropped character is whitespace; the result does not end with whitespace |
| `Names.Trim` | src/Laboratory.ts:8-13 | `trim()` yields `""` exactly for blank names, so the empty-name test at line 8 is subsumed by the test at line 11; a non-empty result has no whitespace at either end |
| `Registry.ValidateOk` | src/Laboratory.ts:7-17 | construction succeeds iff no name is blank or a repeat of an earlier one; on success the set equals the set of input names |
| `Registry.NoOffenceIff` | src/Laboratory.ts:11-16 | "no rejected index" is the same as "all names non-blank and pairwise distinct" |
| `Registry.DistinctCardinality` | src/Laboratory.ts:14-17 | pairwise-distinct names give a set with as many elements as the list has entries |
| `Registry.ValidateSucceedsIff` | src/Laboratory.ts:7-18 | construction succeeds iff every name is non-blank and no name occurs twice; on success `knownSubstances` is exactly the input names and its size is the input length |
| `Registry.ValidateFirstOffence` | src/Laboratory.ts:7-16 | the reported error belongs to the earliest rejected index; at that index the blank test comes before the duplicate test |
| `Registry.ValidateErrIsFirstOffence` | src/Laboratory.ts:7-16 | every failure carries the error of some earliest rejected index, named by its offending name |
| `Registry.ValidateErrSticks` | src/Laboratory.ts:9-15 | a throw ends construction: once a prefix is rejected, the names after it do not change the outcome |
| `Registry.BlankNameRejected` | src/Laboratory.ts:8-13 | the empty name and whitespace-only names fail with the same invalid-substance error, carrying the offending name |
| `Registry.DuplicateBeforeBlank` | src/Laboratory.ts:7-16 | `["a", "a", ""]` fails with a duplicate of `"a"`, since the duplicate at index 1 comes before the blank name at index 2 |
| `Registry.BlankBeforeName` | src/Laboratory.ts:7-13 | `["", "a"]` fails with an invalid substance `""` |
| `Registry.EmptyInputAccepted` | src/Laboratory.ts:4-19 | an empty input list is accepted and registers nothing |
| `Laboratory.Laboratory.Empty` | src/Laboratory.ts:5 | a new laboratory starts with an empty set of known substances |
| `Laboratory.Laboratory.Create` | src/Laboratory.ts:4-19 | the constructor loop fails with exactly `Validate`'s error, or yields a fresh laboratory whose set is exactly `Validate`'s set and holds no blank name |
| `Laboratory.Laboratory.GetQuantity` | src/Laboratory.ts:21-27 | succeeds iff the name is registered, with quantity 0; otherwise fails with the unknown-substance error carrying the name; it only reads the object, so it never changes `knownSubstances` |
| `Laboratory.BlankQueryIsUnknown` | src/Laboratory.ts:11-24 | since no blank name is ever registered, every blank query, `""` included, fails as an unknown substance |
| `Laboratory.QueriesAfterConstruction` | src/Laboratory.ts:7-26 | after a successful construction, every input name reads as 0 and every other name is unknown |

## Left out

- `add`, reactions, reaction products and the `make` resolver: none of them exists in `src/Laboratory.ts`. The test file calls them, but they are not part of this model.
- The `No substances provided` error: this version of the constructor does not raise it, so an empty list is accepted.
- Exceptions: each `throw` is an `Err` value of `Result`, and the constructor is the static method `Create`, because a Dafny constructor cannot fail. The partly filled object that a throwing TypeScript constructor leaves behind is unreachable, so it is not modelled.
- Error message text and its template formatting: each error is a `LabError` kind carrying the offending name.
- Insertion order of the JavaScript `Set`: only membership is observable in this class.
- The quantity returned by `getQuantity` is a JavaScript number. It is modelled as a `real`, and it is always `0`.
- The whitespace table follows the ECMAScript WhiteSpace and LineTerminator productions. It uses the Unicode "Zs" characters as of Unicode 6.3 and later. A future change to that Unicode category is not tracked.
