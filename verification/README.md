# Niffler: reversible tokenizer and Python session, modelled in Dafny

This project models two small pieces of the Niffler repository.

**The reversible tokenizer (`RevtokTokenizer`).** `tokenize` splits a message into tokens.
It is driven by a state machine. The state is the current token's priority: an integer, or
absent right after a space. Each code point gets a rank from its Unicode general category:
letters and marks 7, numbers 5, symbols 3, punctuation 1, separators -1, the rest -3.
Word boundaries and original spaces are recorded as half-spaces (U+0020):

- each space of the message becomes two half-spaces;
- each other boundary adds at most one.

`detokenize` joins the tokens and rewrites the capital marker U+E302 followed by a space
as a space followed by the marker. It then halves every run of half-spaces. A marker read
while none is pending is dropped, and the next code point that is not a space is
upper-cased, even when that code point is a second marker. `decapital` marks a
capitalized token and lower-cases its first letter.

**The Python session (`NifflerSession`, `Token`, `Implementation`).**

- A session is a dictionary from token to value.
- Tokens are distinct keys by object identity.
- An implementation is a dependency list plus a closure. The closure reads each dependency
  from the session in order and applies the formula to the values.

Modules:

- `Wrappers`: `Option` and `Result`.
- `Unicode`: code points, the 30 general categories, the character-table queries as
  uninterpreted functions, and the priority table.
- `Text`: joining tokens, runs of half-spaces, and the non-space projection.
- `RevtokTokenize`, `RevtokDetokenize`: the two directions of the tokenizer.
- `RevtokRoundTrip`, `RevtokDecapital`: the properties that relate the two directions.
- `NifflerToken`, `NifflerSession`, `NifflerImplementation`: the Python session core.

Behaviour worth knowing, from the code:

- `tokenize(m, true, _)` throws `IndexOutOfBoundsException` when m starts with a space, not
  only when it ends with one. A leading space closes the empty first token with a half-space,
  so the first token is a lone half-space. `decapital` then strips that half-space and reads
  index 0 of an empty list. The model returns `Failure(IndexOutOfBounds)` in exactly these
  cases: `Tokenize`'s contract states the if-and-only-if.
- In `detokenize`, a pending marker survives any half-spaces that follow it. It upper-cases
  the next code point that is not a space, and a marker at the very end is dropped.
- The Java loop departs from the Python regular expression its comment cites
  (`RevtokTokenizer.java:111`). That expression upper-cases whatever code point follows a
  marker, a space included. The model follows the loop.
- The punctuation flag only matters for runs of equal rank 2 or less. On a message with no
  two adjacent non-space code points of the same such rank, both settings tokenize alike.

## Model

| member | source | states |
|---|---|---|
| Unicode.CategoryPriority | example/src/main/java/com/roboxue/decanlp/RevtokTokenizer.java:126-175 | every category gets one of the six ranks 7, 5, 3, 1, -1, -3 (never 0); exactly letters, marks, numbers and symbols rank above 2 |
| Unicode.CharacterPriority | example/src/main/java/com/roboxue/decanlp/RevtokTokenizer.java:126-127 | a code point's rank is one of the six ranks, and is above 2 exactly when its general category is not punctuation, a separator, unassigned, control, format, private-use or surrogate |
| Text.Join | example/src/main/java/com/roboxue/decanlp/RevtokTokenizer.java:95 | the joined text holds a code point exactly when some token holds it |
| RevtokTokenize.StartNewToken | example/src/main/java/com/roboxue/decanlp/RevtokTokenizer.java:22-24 | a new last token holding just that code point; earlier tokens untouched; joined text grows by that code point |
| RevtokTokenize.StartNewTokenWithSpace | example/src/main/java/com/roboxue/decanlp/RevtokTokenizer.java:26-28 | a new last token holding one half-space; joined text grows by one half-space |
| RevtokTokenize.AppendToCurrentToken | example/src/main/java/com/roboxue/decanlp/RevtokTokenizer.java:30-32 | only the last token changes, gaining the code point at its end |
| RevtokTokenize.SealCurrentToken | example/src/main/java/com/roboxue/decanlp/RevtokTokenizer.java:34-36 | only the last token changes, gaining a trailing half-space |
| RevtokTokenize.Step | example/src/main/java/com/roboxue/decanlp/RevtokTokenizer.java:51-75 | given the rank the loop computed for the code point: a space adds exactly two half-spaces to the joined text and clears the priority; any other code point is added after at most one half-space; a code point of the current rank continues the token when the rank is above 2 or punctuation is not split, and starts a new token when the rank is 2 or less and it is split |
| RevtokTokenize.Scan | example/src/main/java/com/roboxue/decanlp/RevtokTokenizer.java:46-76 | after the loop only the first token can be empty; the first token is a lone half-space exactly when the message starts with a space; no middle token is a lone half-space; the last token is a lone half-space, and the priority is absent, exactly when the message ends with a space |
| RevtokTokenize.Segment | example/src/main/java/com/roboxue/decanlp/RevtokTokenizer.java:45-82 | an empty message gives no tokens; no token is empty; some token is a lone half-space exactly when the message starts or ends with a space |
| RevtokTokenize.Decapital | example/src/main/java/com/roboxue/decanlp/RevtokTokenizer.java:177-203 | fails exactly on a lone half-space; a capitalized token becomes marker, its leading half-space, first letter lower-cased, rest; any other token is unchanged |
| RevtokTokenize.DecapitalAll | example/src/main/java/com/roboxue/decanlp/RevtokTokenizer.java:83-84 | succeeds exactly when no token is a lone half-space, and then gives decapital of each token, in order |
| RevtokTokenize.Tokenize | example/src/main/java/com/roboxue/decanlp/RevtokTokenizer.java:45-92 | empty message gives empty list; without de-capitalization never fails and no token is empty; fails exactly when de-capitalizing a non-empty message that starts or ends with a space |
| RevtokDetokenize.SwapCapSpace | example/src/main/java/com/roboxue/decanlp/RevtokTokenizer.java:95 | the rewrite of marker-then-space into space-then-marker keeps the length of the text |
| RevtokDetokenize.SwapUnchanged | example/src/main/java/com/roboxue/decanlp/RevtokTokenizer.java:95 | the rewrite leaves a text unchanged exactly when no marker in it is directly followed by a half-space |
| RevtokDetokenize.SwapCapFree | example/src/main/java/com/roboxue/decanlp/RevtokTokenizer.java:95 | text without a marker is left unchanged by that rewrite |
| RevtokDetokenize.SwapKeepsNonSpace | example/src/main/java/com/roboxue/decanlp/RevtokTokenizer.java:95 | the rewrite keeps the code points that are not half-spaces, in order |
| RevtokDecapital.SwapConcat | example/src/main/java/com/roboxue/decanlp/RevtokTokenizer.java:95 | the rewrite of a joined text is the joined rewrites of its parts, when the first part does not end in a marker |
| RevtokDetokenize.DetokStep | example/src/main/java/com/roboxue/decanlp/RevtokTokenizer.java:101-121 | one loop iteration only appends, at most one code point; a space is emitted exactly when the one before it was skipped; any other code point is emitted unless it is a marker with none pending; what is emitted is the space, the upper case of the code point after a pending marker, or the code point itself; the skip flag and the pending marker are set exactly as the loop sets them |
| RevtokDetokenize.Detokenize | example/src/main/java/com/roboxue/decanlp/RevtokTokenizer.java:94-124 | detokenize equals halving every maximal run of half-spaces and then resolving every marker, applied to the swapped joined text |
| RevtokDetokenize.HalveRunsOfRun | example/src/main/java/com/roboxue/decanlp/RevtokTokenizer.java:100-109 | a maximal run of n half-spaces becomes floor(n/2) half-spaces |
| RevtokDetokenize.UncapMarker | example/src/main/java/com/roboxue/decanlp/RevtokTokenizer.java:111-121 | a marker is dropped and the next code point that is not a space is upper-cased; spaces in between are kept |
| RevtokDetokenize.DetokenizeMarkerFree | example/src/main/java/com/roboxue/decanlp/RevtokTokenizer.java:100-109 | on joined text without a marker, detokenize only halves the runs of half-spaces |
| RevtokRoundTrip.ScanEncodes | example/src/main/java/com/roboxue/decanlp/RevtokTokenizer.java:50-76 | detokenizing the joined text of the loop so far gives back the message read so far, with nothing pending |
| RevtokRoundTrip.RoundTrip | example/src/main/java/com/roboxue/decanlp/RevtokTokenizer.java:45-124 | for any message without the marker and either punctuation flag, tokenize without de-capitalization succeeds and detokenize gives the message back |
| RevtokRoundTrip.SegmentKeepsNonSpace | example/src/main/java/com/roboxue/decanlp/RevtokTokenizer.java:50-76 | the non-space code points of the joined tokens are exactly those of the message, in order |
| RevtokRoundTrip.UniformRunIsOneToken | example/src/main/java/com/roboxue/decanlp/RevtokTokenizer.java:62-70 | a run of one rank stays a single token when the rank is above 2 or punctuation is not split: padded with half-spaces for positive ranks, bare otherwise |
| RevtokRoundTrip.ScanPriority | example/src/main/java/com/roboxue/decanlp/RevtokTokenizer.java:47-75 | after the loop the priority is 0 for an empty message, absent after a trailing space, and otherwise the rank of the last code point |
| RevtokRoundTrip.ScanFlagFree | example/src/main/java/com/roboxue/decanlp/RevtokTokenizer.java:62-70 | when no two adjacent non-space code points share a rank of 2 or less, the loop builds the same tokens and priority with and without splitting punctuation |
| RevtokRoundTrip.TokenizeFlagFree | example/src/main/java/com/roboxue/decanlp/RevtokTokenizer.java:45-92 | under the same condition, tokenize gives the same result whichever punctuation flag it is given |
| RevtokRoundTrip.SplitRunIsOneTokenEach | example/src/main/java/com/roboxue/decanlp/RevtokTokenizer.java:62-70 | with splitting on, a run of rank 2 or less becomes one token per code point, each holding exactly that code point apart from half-spaces |
| RevtokDecapital.SwapDecapital | example/src/main/java/com/roboxue/decanlp/RevtokTokenizer.java:187-195 | the marker/space swap moves a decapitalized token's marker behind its leading half-space |
| RevtokDecapital.DetokMarked | example/src/main/java/com/roboxue/decanlp/RevtokTokenizer.java:111-121 | with nothing pending, the detokenize loop treats a marked token exactly like the original token, given a case table that undoes the lower-casing |
| RevtokDecapital.DecapitalRoundTrip | example/src/main/java/com/roboxue/decanlp/RevtokTokenizer.java:83-124 | for a message without the marker that neither starts nor ends with a space, tokenize with de-capitalization succeeds and detokenize gives the message back, given a case table that undoes lower-casing of its capitals |
| NifflerToken.NewToken | core-python/niffler/Token.py:1-7 | the new token holds its five arguments unchanged and differs from every earlier token |
| NifflerToken.EqualArgumentsDistinctTokens | core-python/niffler/Token.py:1-7 | two tokens built from identical arguments are different keys |
| NifflerSession.Get | core-python/niffler/NifflerSession.py:7-8 | returns the stored value exactly when the token is set, and raises KeyError of that token otherwise |
| NifflerSession.NewSession | core-python/niffler/NifflerSession.py:4-5 | get on a fresh session raises KeyError for every token |
| NifflerSession.Set | core-python/niffler/NifflerSession.py:10-11 | get of the set token then returns the value; every other token's get is unchanged |
| NifflerSession.SetTwiceKeepsLast | core-python/niffler/NifflerSession.py:10-11 | setting a token twice is the same, for every get, as setting it once to the second value |
| NifflerImplementation.Gather | core-python/niffler/Token.py:15 | succeeds exactly when every dependency is set, giving their values in declared order; otherwise raises KeyError of the first unset dependency |
| NifflerImplementation.Call | core-python/niffler/Token.py:10-17 | with every dependency set, the formula applied to one argument per dependency in declared order; otherwise KeyError of the first unset dependency |
| NifflerImplementation.MissingDependencyFailsBeforeFormula | core-python/niffler/Token.py:14-15 | with a dependency unset, the call fails whatever the formula is |
| NifflerImplementation.RepeatExample | core-python/tests/test_implementation.py:15-21 | dependencies t1 = 5, t2 = "a" and a formula repeating v2 v1 times give ["a", "a", "a", "a", "a"] |

## Left out

- Strings are sequences of code points. Java's UTF-16 encoding, surrogate pairing,
  `Character.toChars` and `String.intern` are not modelled.
- The Unicode tables are parameters of the model, as uninterpreted functions: general
  category, `isUpperCase`, `toUpperCase` and `toLowerCase`.
- The `default` branch of `getCharacterPriority` is not modelled. The category datatype
  covers all 30 values `Character.getType` returns, so that branch cannot be reached.
- RevtokDecapital.DecapitalRoundTrip: holds only under explicit hypotheses about the
  case tables. Upper-casing the lower-case form of each capital in the message must give
  the capital back, and that lower-case form must be neither a space nor the marker. The
  space must not count as upper case (`!u.isUpperCase(Space)`). Whether Java's tables meet
  these is not modelled.
- RevtokRoundTrip.RoundTrip: covers messages without U+E302 only. A marker already in the
  message is rewritten by detokenize.
- The token-building helpers require a non-empty deque. In the source the deque always
  holds at least one token while they run, so `getLast` cannot throw there.
- Implementation keeps its dependency list exactly as given. No separate member states
  this: the `dependencies` field of the `Implementation` datatype is the list itself.
- The Python closure captures the dependency list object. Mutating that list after
  construction would change the closure's reads. Values are immutable here, so that
  aliasing is not modelled.
- Exceptions raised inside a formula are its own `Failure` result, and `Call` passes them
  through. Python type checks on arguments appear only in the example formula.
- The Scala scheduling engine: graph resolution, evaluator, state tracker and async handle.
  Its source is not part of this model, and `Niffler.java` only delegates to it.
- `Formula.java`, `ExecutionStateOperator.java` and `ExecutionLogger.java`: interfaces
  with no behaviour.
- `DefaultJavaExecutionLogger.java` and `NoFormatter.java`: formatting into a logging sink.
- `JavaExample.java`, `JavaCoding.java` and `CompressUtils.java`: object-storage transfers,
  file walks, archives and JSON. All of it is I/O and foreign libraries.
- `nifflerExecutionHistory.js`: user interface and HTTP.
- `TestJavaIntegrationPoint.java`: a test helper.
- `Binding.py`: plain records with no behaviour.
