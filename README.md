# Character-bigram language identifier

A Dafny model of `language_detector.py`, a small program that tells English from
Spanish text by character bigrams. It has three parts:

- `preprocess` (tokenizer.dfy, module `Tokenizer`): a line is stripped of trailing
  whitespace and lower-cased, every character outside `a`-`z` and space is
  deleted, the rest is split on whitespace and each word is wrapped as `$word$`.
- The counting loops of `create_model` and of the first half of `predict`
  (counting.dfy, module `Counting`): over a window of lines (`[500:600]` when
  training, `[20:500]` when testing), every position but the last of every token
  increments the unigram of its character and the bigram starting there; training
  counts at most 50 tokens per line. The file is given as the sequence of its
  lines.
- `calculate_probability` and the verdict of `predict` (scoring.dfy, module
  `Scoring`): each model bigram gives the pair `count + 1` over
  `unigrams[bigram[0]] + 1`; the score sums the logarithms of these ratios; English
  wins exactly when its score is strictly below the Spanish one.

The `collections.defaultdict(int)` tables are modelled in tables.dfy (module
`Tables`) as `CountTable`: the keys in insertion order, as a Python dict yields its
items, and the map from key to count. `Increment` is `d[k] += 1`; `Touch` is the
lookup `d[k]` that inserts a missing key with 0. A counting method is proved to
return `TableOf(s)`, the histogram of the stream `s` of elements it counts, and the
properties of the tables are proved about those streams.

The score itself is a floating-point sum of `math.log` values. It is modelled over
a caller-supplied `logRatio: (int, int) --> real` whose domain is where both
arguments are at least 1. `CalculateProbability` must establish that domain for
every call, so the model proves that no `log` of zero or of a negative ratio occurs.
The score is the left-to-right sum `Score` of `logRatio` over the pairs `Terms`.

Where the model departs from the program text it follows what the program
evidently means:

- language_detector.py:18 builds `bigrams` as a `defaultdict` of `defaultdict(int)`,
  so the `+= 1` at line 29 raises `TypeError` on the first bigram. The model counts
  bigrams in a `str -> int` table, as `predict` does at lines 34 and 46.
- `create_model` returns the pair `(bigrams, unigrams)` (line 30), and `predict`
  passes that pair as `model`, so `model.items()` at line 56 fails. The model
  passes the bigram table, which is what line 56 iterates over.
- Unigram keys are characters; the program uses strings of length 1.
- `Predict` threads the document's unigram table through both calls of
  `CalculateProbability`: the English call's insertions reach the Spanish call, as
  they do through the shared dict. `TermsIgnoreTouches` proves they change nothing.
- language_detector.py:49 picks English when `english_prob < spanish_prob`, so the
  lower score wins; the model follows the code.

## Model

| member | source | states |
|---|---|---|
| Tables.CountTable.Increment | language_detector.py:27-29 | `d[k] += 1` raises the count of `k` by one, leaves every other key's count alone, adds `k` to the keys and appends it to the order only when it was missing |
| Tables.CountTable.Touch | language_detector.py:61 | the lookup `d[k]` changes no count, adds `k` to the keys, appends a missing `k` to the order, and leaves a table that already has `k` exactly as it was |
| Tables.TouchKeys | language_detector.py:61 | after the lookup `d[k]` the keys are exactly the keys before together with `k` |
| Tables.FirstOccurrences | language_detector.py:56 | the key order of a counted table lists each counted element exactly once and nothing else |
| Tables.TableOfIsHistogram | language_detector.py:27-29 | the table of a stream is a well-formed dict whose keys are the elements of the stream, each mapped to its number of occurrences, so every count is at least 1 |
| Tables.TableOfAppend | language_detector.py:27-29 | counting one more element is one more `+= 1` on the table |
| Tables.FirstOccurrencesAppend | language_detector.py:27-29 | counting one more element appends it to the key order exactly when it was not yet counted |
| Tables.HistogramAppend | language_detector.py:27-29 | counting one more element sets its count to the old count (0 when missing) plus one and leaves every other count alone |
| Tables.IncrementTotal | language_detector.py:27-29 | one `+= 1` raises the sum of the values by one |
| Tables.TotalOfTableOf | language_detector.py:27-29 | summing the counted table over the keys selected by a predicate gives the number of stream elements selected by it |
| Tokenizer.RStrip | language_detector.py:9 | `rstrip()` removes only trailing whitespace, all of it, and keeps a prefix of the line |
| Tokenizer.StrippedLetters | language_detector.py:9 | `rstrip()` removes no character that lower-cases to a letter |
| Tokenizer.LowerAppend | language_detector.py:9 | `lower()` works character by character: it distributes over concatenation |
| Tokenizer.SelectAppend | language_detector.py:10 | the deletion of unwanted characters works character by character: it distributes over concatenation |
| Tokenizer.KeepThenDrop | language_detector.py:10 | `re.sub` keeps a run of `a`-`z` and spaces and deletes a following run of other characters |
| Tokenizer.RStripIsRedundant | language_detector.py:9-11 | removing trailing whitespace before lower-casing, filtering and splitting changes no token |
| Tokenizer.SplitCut | language_detector.py:11 | `split()` at a whitespace character is the split of the part before it followed by the split of the part after it |
| Tokenizer.SplitFromWords | language_detector.py:11 | `split()` produces no empty word and no word holding whitespace or a character absent from the input |
| Tokenizer.SplitFromConcat | language_detector.py:11 | the words of `split()` joined together are the input without its whitespace, in order |
| Tokenizer.SplitFromTrailingBlank | language_detector.py:11 | whitespace at the end of the input does not change the words of `split()` |
| Tokenizer.SplitTwoWords | language_detector.py:11 | two whitespace-free non-empty words joined by one space split into exactly those two words |
| Tokenizer.PreprocessTokens | language_detector.py:8-13 | every token is `$`, one or more characters `a`-`z`, `$` |
| Tokenizer.InteriorsOfTokens | language_detector.py:11-12 | taking the `$` markers off the tokens gives back the words of `split()`, one for one |
| Tokenizer.PreprocessKeepsLetters | language_detector.py:9-12 | the interiors of the tokens joined together are exactly the lower-cased letters of the line, in order: other characters are deleted, not replaced |
| Tokenizer.PreprocessEmpty | language_detector.py:9-13 | a line yields no token if and only if none of its characters lower-cases to a letter |
| Tokenizer.PreprocessEmptyLine | language_detector.py:9-13 | the empty line and a whitespace-only line yield no token |
| Tokenizer.PreprocessHelloWorld | language_detector.py:8-13 | `"Hello, World!"` yields `["$hello$", "$world$"]` |
| Tokenizer.PreprocessCafe | language_detector.py:9-12 | `"café"` yields `["$caf$"]`: the accented letter is deleted |
| Counting.Slice | language_detector.py:20 | a Python slice with non-negative bounds: clamped to the length, empty when the window starts at or past the end |
| Counting.CountToken | language_detector.py:25-29 | the loop over the positions of a token leaves the tables of the counted streams extended by that token's unigrams and bigrams |
| Counting.CountTokens | language_detector.py:24-29 | the loop over the tokens of a line extends the counted streams by each token's part, in order |
| Counting.CountWindow | language_detector.py:20-29 | the loop over a window of lines returns the tables of the unigram and bigram streams of the window's tokens, lines without tokens skipped and each line capped when a cap is given |
| Counting.LineCounted | language_detector.py:21-29 | counting the used tokens of the next line extends the counted streams to those of the window prefix one line longer |
| Counting.LineSkipped | language_detector.py:22-23 | a line with no token adds nothing to either counted stream, whatever the cap |
| Counting.TokensOfAppend | language_detector.py:20-24 | the counted tokens of two consecutive runs of lines are the tokens of the first run followed by those of the second |
| Counting.CreateModel | language_detector.py:16-30 | training returns the tables of lines `[500:600]` with at most 50 tokens a line; every bigram key has two characters and a first character that is a unigram key; each unigram count is the sum of the counts of the bigrams starting with it; both tables sum to the number of counted positions; `unigrams['$']` is the number of tokens |
| Counting.DocumentCounts | language_detector.py:34-46 | testing returns the tables of lines `[20:500]` with no token cap; every bigram key has two characters and a first character that is a unigram key; `unigrams['$']` is the number of tokens |
| Counting.TokenAddsPositions | language_detector.py:25-29 | a token of length `n` adds `n - 1` to the sum of the unigram counts and `n - 1` to the sum of the bigram counts |
| Counting.StreamsAlign | language_detector.py:25-28 | the unigram and bigram streams have the same length, the number of visited positions, every bigram has two characters and the unigram counted at each position is the bigram's first character |
| Counting.TablesAgree | language_detector.py:25-29 | the key, sum-by-first-character and total agreement between the two tables of any token sequence |
| Counting.KeysAgree | language_detector.py:25-29 | in aligned streams every bigram key has two characters and its first character is a unigram key |
| Counting.CountsAgree | language_detector.py:25-29 | in aligned streams each unigram count is the sum of the counts of the bigrams starting with that character |
| Counting.FirstCharacterCounts | language_detector.py:25-29 | in aligned streams, the occurrences of a character as a unigram are the occurrences of bigrams starting with it |
| Counting.TotalsAgree | language_detector.py:25-29 | two streams of equal length give tables with equal sums of values, the common length |
| Counting.OneBoundaryPerToken | language_detector.py:25-27 | a token counts `$` exactly once: its leading `$`, never its final character |
| Counting.BoundaryCountsTokens | language_detector.py:24-27 | `unigrams['$']` is the number of counted tokens |
| Counting.WindowTokensAreTokens | language_detector.py:21-24 | every counted token, capped or not, is a `preprocess` token |
| Counting.LineTokensCapped | language_detector.py:24 | a training line contributes at most 50 tokens, the first ones of the line |
| Counting.SkippedLineChangesNothing | language_detector.py:21-23 | a line without tokens, wherever it stands, leaves the counted tokens and so both tables unchanged |
| Counting.TrainingReadsOnlyItsWindow | language_detector.py:20 | two files that agree on lines 500 to 599 train alike |
| Counting.TrainingWindow | language_detector.py:20 | training reads lines 500 to 599, fewer when the file is shorter, none when it has at most 500 lines |
| Counting.TestWindow | language_detector.py:37 | testing reads lines 20 to 499, fewer when the file is shorter, none when it has at most 20 lines |
| Scoring.Terms | language_detector.py:56-61 | one pair for each model item, and with non-negative counts both the numerator `count + 1` and the denominator `unigrams[x] + 1` are at least 1 |
| Scoring.TouchAll | language_detector.py:60-61 | the lookups `unigrams[bigram[0]]` for the first `n` listed bigrams leave every count as it reads |
| Scoring.TouchAllInserts | language_detector.py:60-61 | the lookups insert exactly the first characters of the model's bigrams, each new one with count 0, and keep the dict well formed |
| Scoring.TouchAllValid | language_detector.py:60-61 | the lookups keep the unigram dict well formed |
| Scoring.TouchAllKeys | language_detector.py:60-61 | the keys after the lookups are the old keys together with the first characters of the looked-up bigrams |
| Scoring.CalculateProbability | language_detector.py:53-63 | the loop calls the logarithm only on ratios whose parts are at least 1, returns the left-to-right sum over the model's pairs, and leaves `unigrams` as the lookups make it |
| Scoring.ScoreStep | language_detector.py:56-62 | item `i` of the model has a count, its pair is in the logarithm's domain, adding its `logRatio` extends the partial score by one item, and its lookup extends the lookups by one |
| Scoring.Predict | language_detector.py:47-49 | the verdict is English exactly when the English score of the document's unigram counts is strictly below the Spanish one |
| Scoring.TrainedModelIsWellFormed | language_detector.py:28-30 | a trained bigram table can be scored: its keys can be indexed at 0 and its counts are not negative |
| Scoring.TermsIgnoreTouches | language_detector.py:47-48 | the English call's insertions into the shared unigram table do not change the Spanish pairs |
| Scoring.MissingCharacter | language_detector.py:60-61 | a first character missing from `unigrams` gets the denominator 1 and ends up in the table with count 0 |
| Scoring.TrainedNumerators | language_detector.py:59 | every numerator of a trained model is at least 2 |
| Scoring.ScoreAppend | language_detector.py:62 | the score of a concatenation of pairs is the sum of the scores |
| Scoring.PartialScoreAppend | language_detector.py:62 | summing over a prefix of the concatenation that reaches into the second part adds the partial sum of the second part to the whole sum of the first |
| Scoring.PartialScorePrefix | language_detector.py:62 | two sequences of pairs that agree on their first `n` pairs have the same partial sum over them |
| Scoring.TieGoesToSpanish | language_detector.py:49 | equal scores give Spanish |
| Scoring.VerdictSwaps | language_detector.py:49 | exchanging two different scores exchanges the verdict |
| Scoring.SingleUnseenEntry | language_detector.py:56-61 | the model `{"$a": 0}` against an empty unigram table gives the single pair `(1, 1)` and inserts `$` with count 0 |

## Left out

- Opening and reading files (language_detector.py:19-20, 36-37): the file is the parameter `lines`.
- `main` (language_detector.py:65-79): directory listing, path joining and printing.
- Argument parsing (language_detector.py:81-88).
- `math.log`, division and floating-point addition (language_detector.py:55, 62): the score is abstract, computed over exact reals from the caller's `logRatio`; rounding is not modelled.
- `total_unigrams` (language_detector.py:54): computed and never used.
- The `isinstance(count, str)` skip (language_detector.py:57): counts are integers, so it never fires.
- The document's bigram table (language_detector.py:34, 46) is computed by `DocumentCounts` and not used afterwards, as in the program.
- Tokenizer.Lower: lower-cases `A`-`Z` only. Python's `str.lower()` also maps a few non-ASCII characters to ASCII letters (the Kelvin sign to `k`, dotted capital I to `i` and a combining dot); the model deletes those instead.
- Tokenizer.IsWhitespace: Python's `str.isspace` set is written out; `split()` and `rstrip()` use the same set.
- The crashes of the program as written (the nested `defaultdict` at line 18, the tuple passed as a model at lines 47-48) are not modelled; the model counts and scores as the program evidently intends.
