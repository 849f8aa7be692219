# mimic-w2v-tools corpus preparation, modelled in Dafny

This project models `prep_w2v`, the pipeline that prepares a tokenised
clinical corpus for word2vec training. Every input document holds one sentence
per line, with tokens separated by single spaces. The pipeline has four phases:

1. **Counting.** `_gather_token_count` turns one document into a table from
   normalised token to number of occurrences. Normalisation lowercases the
   token and then folds every digit to `'0'`. Blank lines are skipped.
2. **Reduce.** The per-document tables are summed into `all_tokens`, and
   `token_nb` counts every token.
3. **Singleton selection.** A token goes into `singletons_all` when its
   global count is 1 and it holds no digit. It also goes into
   `singletons_sample` when its random draw is below `ratio_unknown`.
4. **Chunking and rewriting.** `_chunk_list` cuts the document list into
   `n_jobs` contiguous chunks. `_write_file` rewrites every non-blank line:
   each token is normalised, a sampled singleton becomes `"#unk#"`, and the
   tokens are joined with single spaces.

Modules, one per component:

- `Results`: the result type for an operation that can raise.
- `Text`: the blank-line test, `rstrip("\n")`, `split(" ")`, `" ".join`, and
  the normalisation. Characters are treated as ASCII.
- `Tables`: a `defaultdict(int)` as a value. It keeps its keys in insertion
  order, because that order decides which random draw each singleton gets.
- `Counting`: `_gather_token_count`.
- `Aggregation`: the merge loop of `prep_w2v`.
- `Sampling`: the singleton loop of `prep_w2v`.
- `Chunking`: `_chunk_list`.
- `Rewrite`: `_write_file`.
- `Pipeline`: `prep_w2v` put together, with the joblib phases run one job
  after another.

The loops of the source are methods with loop invariants. Each method is
proved equal to a recursive specification function, and the properties are
proved about those functions as lemmas.

Modelling choices:

- `random.random()` becomes a caller-supplied stream `draws: nat -> real`.
  The n-th qualifying token, in the iteration order of `all_tokens`, gets
  draw n.
- `round(len / n * i)` becomes exact round-half-to-even of `L * i / n`, the
  rule Python's `round` uses, with no floating point. Where the exact value
  is halfway, the program's float product may round the other way; see
  "Left out".
- `nb_parts == 0` gives `Err(ZeroDivisionError)`.
- A negative `nb_parts` gives no chunks, because `range` of a negative number
  is empty.

The program's own interface asks for the rewriting pass to normalise like the
counting pass. `prep_w2v` documents `lowercase` and `replace_digits` as the
flags for lowercasing tokens and for replacing their digits
(mimic_w2v_tools/w2v.py:20-21). `_write_file` takes the same two parameters
and documents them the same way (mimic_w2v_tools/w2v.py:126, 132-133). But
`prep_w2v` never passes them on (mimic_w2v_tools/w2v.py:83-84), so rewriting
always runs with both flags true. `Pipeline.PrepW2v` and `Pipeline.Prepare`
follow the code. `Pipeline.PrepareForwarding` passes the flags on (see
Findings).

`n_jobs` is used twice. First, `Parallel(n_jobs=0)` raises a ValueError
before the counting phase starts (mimic_w2v_tools/w2v.py:47), so
`Pipeline.PrepW2v` fails with `ParallelValueError` and does nothing else.
`_chunk_list` would raise ZeroDivisionError for 0, but it is never reached
with 0. Second, a negative `n_jobs` is accepted by joblib, but `_chunk_list`
then returns no chunk, so no document is rewritten.
`Pipeline.PreparedDocuments` proves this.

## Model

| member | source | states |
|---|---|---|
| `Text.LowerChar` | mimic_w2v_tools/w2v.py:115-116 | ASCII `lower()` of one character: a capital becomes the lower-case letter at the same place in the alphabet, every other character is unchanged, and digits, spaces and newlines are preserved both ways |
| `Text.Lower` | mimic_w2v_tools/w2v.py:115-116 | `token.lower()` keeps the length and lowercases each character in place |
| `Text.FoldDigits` | mimic_w2v_tools/w2v.py:118-119 | `re.sub("\d", "0", token)` keeps the length, turns each digit into '0' and keeps every other character |
| `Text.Normalise` | mimic_w2v_tools/w2v.py:115-119 | the normalisation both passes apply: optionally lowercase, then optionally fold digits; the length is kept (its per-character effect is `Text.NormaliseChars`) |
| `Text.NormaliseToken` | mimic_w2v_tools/w2v.py:115-119 | the statements that lowercase and then fold digits compute `Normalise` for every flag setting |
| `Text.NormaliseChars` | mimic_w2v_tools/w2v.py:115-119 | normalisation keeps the length and the set of digit positions; with folding every digit is '0', and non-digits are at most lowercased |
| `Text.NormaliseIdempotent` | mimic_w2v_tools/w2v.py:115-119 | normalising a normalised token changes nothing, for every flag setting |
| `Text.NormalisePreservesHasDigit` | mimic_w2v_tools/w2v.py:162-167 | a normalised token holds a digit exactly when the raw token does |
| `Text.NormaliseKeepsSpaces` | mimic_w2v_tools/w2v.py:162-167 | normalisation neither creates nor removes a space |
| `Text.IsBlank` | mimic_w2v_tools/w2v.py:108 | `re.match("^$", line)` holds of exactly `""` and `"\n"` (used by both passes; the skip it causes is stated by `Counting.BlankLineContributesNothing` and `Rewrite.RewrittenLines`) |
| `Text.HasDigit` | mimic_w2v_tools/w2v.py:67 | `re.search("\d", k)` finds something exactly when some character of `k` is a digit (used by `Sampling.SelectSingletons` and `Text.NormalisePreservesHasDigit`) |
| `Text.StripNewlines` | mimic_w2v_tools/w2v.py:111 | `rstrip("\n")` returns a prefix that does not end in a newline, and every character removed was a newline |
| `Text.Split` | mimic_w2v_tools/w2v.py:111 | `split(" ")` yields one piece more than there are spaces, and no piece holds a space |
| `Text.Join` | mimic_w2v_tools/w2v.py:176 | `" ".join(tokens)`: no tokens give the empty string; `Text.JoinSplit` and `Text.SplitJoin` make it the inverse of `split(" ")` |
| `Text.JoinSplit` | mimic_w2v_tools/w2v.py:159 | joining the pieces of a split with spaces gives back the original text |
| `Text.SplitJoin` | mimic_w2v_tools/w2v.py:176 | splitting a space-join of space-free tokens gives back those tokens |
| `Tables.Table.Inc` | mimic_w2v_tools/w2v.py:121 | `table[k] += v` adds `v` to the count of `k` and changes no other count; a new key goes to the end of the insertion order; validity is kept |
| `Tables.TotalInc` | mimic_w2v_tools/w2v.py:121 | `table[k] += v` raises the sum of all counts by `v` |
| `Tables.CountIntoAppend` | mimic_w2v_tools/w2v.py:106-121 | counting two runs of tokens is counting the first and then the second |
| `Tables.CountIntoCounts` | mimic_w2v_tools/w2v.py:113-121 | counting raises every key by its number of occurrences and inserts exactly the tokens seen |
| `Tables.CountIntoTotal` | mimic_w2v_tools/w2v.py:113-121 | counting a run of tokens raises the sum of the counts by the number of tokens |
| `Tables.TallyCounts` | mimic_w2v_tools/w2v.py:100-123 | a table built from nothing holds each token once, with its number of occurrences and no other key, and its counts sum to the number of tokens |
| `Counting.LineTokensShape` | mimic_w2v_tools/w2v.py:111-119 | a line yields one token per space-separated piece; no token holds a space; with folding the only digit is '0' |
| `Counting.GatherTokenCount` | mimic_w2v_tools/w2v.py:89-123 | `_gather_token_count` returns the tally of the document's tokens: each count is that token's number of occurrences, and the counts sum to the number of space-separated pieces over the non-blank lines |
| `Counting.CountLine` | mimic_w2v_tools/w2v.py:113-121 | the token loop of one line adds the line's normalised tokens to the table, in order |
| `Counting.DocTokensLength` | mimic_w2v_tools/w2v.py:105-121 | a document yields as many tokens as there are space-separated pieces in its non-blank lines |
| `Counting.DocTokensAppend` | mimic_w2v_tools/w2v.py:106-121 | the tokens of two consecutive parts of a document are those of the first part followed by those of the second |
| `Counting.BlankLineContributesNothing` | mimic_w2v_tools/w2v.py:108-109 | a line equal to `""` or `"\n"` contributes no token, wherever it stands |
| `Counting.DocTokensOfNonBlank` | mimic_w2v_tools/w2v.py:108-109 | dropping the blank lines changes no counted token |
| `Aggregation.AddResult` | mimic_w2v_tools/w2v.py:58-60 | adding one result's items keeps the table valid and keeps `token_nb` equal to the sum of the merged counts |
| `Aggregation.MergeCounts` | mimic_w2v_tools/w2v.py:53-60 | after the merge, `all_tokens[k]` is the sum over results of their count for `k`; the keys are those of any result; `token_nb` is the sum of the results' totals |
| `Aggregation.AddTableCounts` | mimic_w2v_tools/w2v.py:58-60 | adding a result adds its count to every key and its total to the total |
| `Aggregation.MergedCounts` | mimic_w2v_tools/w2v.py:57-60 | merging is a lossless sum: counts per key, keys, and the total |
| `Aggregation.SumOfPermutation` | mimic_w2v_tools/w2v.py:57 | a sum over results does not depend on their order |
| `Aggregation.MergeOrderIndependent` | mimic_w2v_tools/w2v.py:47-60 | any reordering of the results gives the same merged counts and the same `token_nb` |
| `Sampling.SelectSingletons` | mimic_w2v_tools/w2v.py:62-70 | `singletons_all` is the set of keys counted once with no digit; the sample holds the qualifying keys whose draw is below `ratio_unknown`; the sample is a subset of `singletons_all` |
| `Sampling.SampledSnoc` | mimic_w2v_tools/w2v.py:69-70 | one more qualifying token joins the sample exactly when its draw is below the ratio |
| `Sampling.QualifyingElems` | mimic_w2v_tools/w2v.py:66-68 | a key is met as a singleton exactly when it is listed in the table and passes the test |
| `Sampling.QualifyingIsSingletonSet` | mimic_w2v_tools/w2v.py:66-68 | the singletons met along the table's order are exactly `SingletonSet` |
| `Sampling.QualifyingDistinct` | mimic_w2v_tools/w2v.py:66-69 | each singleton is met once, so it gets exactly one draw |
| `Sampling.SampleExtremes` | mimic_w2v_tools/w2v.py:69-70 | with draws in [0, 1): a ratio <= 0 samples nothing, and a ratio >= 1 samples every singleton |
| `Sampling.DigitTokenNeverSingleton` | mimic_w2v_tools/w2v.py:67 | a token whose raw form holds a digit (such as "0" folded from "7") is never a singleton |
| `Chunking.RoundHalfEven` | mimic_w2v_tools/w2v.py:188 | `round(p / q)` lies within a half of `p / q`, and a halfway case goes to the even integer |
| `Chunking.RoundUnique` | mimic_w2v_tools/w2v.py:188 | no other integer meets the rounding conditions |
| `Chunking.RoundMonotone` | mimic_w2v_tools/w2v.py:188 | a larger numerator never rounds lower |
| `Chunking.CutEnds` | mimic_w2v_tools/w2v.py:187-188 | the first cut is 0 and cut `n` is the length of the list |
| `Chunking.CutMonotone` | mimic_w2v_tools/w2v.py:187-188 | cuts never go backwards |
| `Chunking.Slice` | mimic_w2v_tools/w2v.py:188 | a Python slice with in-range, ordered bounds is the Dafny subsequence |
| `Chunking.ChunkList` | mimic_w2v_tools/w2v.py:179-188 | `nb_parts == 0` raises ZeroDivisionError; a negative count gives no chunk; otherwise there are exactly `nb_parts` chunks |
| `Chunking.ChunkIsCutSlice` | mimic_w2v_tools/w2v.py:188 | chunk `i` is the list between cut `i` and cut `i + 1`, both within the list |
| `Chunking.ChunkListPartition` | mimic_w2v_tools/w2v.py:179-188 | for `nb_parts >= 1` the chunks, concatenated in order, give back the list |
| `Chunking.ChunkSizeNear` | mimic_w2v_tools/w2v.py:187-188 | every chunk size is strictly within one of `L / n` |
| `Chunking.ChunkSizesBalanced` | mimic_w2v_tools/w2v.py:179-181 | any two chunk sizes differ by at most one, as the "equal size" doc-comment promises |
| `Chunking.SurplusPartsEmpty` | mimic_w2v_tools/w2v.py:187-188 | with at least as many parts as items, every chunk holds at most one item and exactly `L` chunks are non-empty |
| `Rewrite.Mask` | mimic_w2v_tools/w2v.py:170-171 | a token in the singleton set becomes "#unk#", and any other token is kept unchanged |
| `Rewrite.OutputLine` | mimic_w2v_tools/w2v.py:176 | the string written for one line is never empty and ends in a newline (its tokens are stated by `Rewrite.OutputLineTokens`) |
| `Rewrite.MaskAll` | mimic_w2v_tools/w2v.py:169-171 | masking keeps the number of tokens, and each token is "#unk#" if it is in the singleton set and unchanged otherwise |
| `Rewrite.SentenceTokens` | mimic_w2v_tools/w2v.py:157-173 | the token loop builds `sent_tokens` as the masked normalised tokens of the line |
| `Rewrite.RewriteDocument` | mimic_w2v_tools/w2v.py:149-176 | the line loop of `_write_file` on one document writes exactly `Rewritten(lines)`, whose line-by-line shape `Rewrite.RewrittenLines` and `Rewrite.RewrittenTokens` state |
| `Rewrite.WriteFile` | mimic_w2v_tools/w2v.py:126-176 | `_write_file` rewrites every document of its chunk on its own |
| `Rewrite.RewrittenLines` | mimic_w2v_tools/w2v.py:151-176 | blank lines are dropped, and the others are rewritten one for one in the same order |
| `Rewrite.RewrittenAppend` | mimic_w2v_tools/w2v.py:151-176 | the output of two consecutive parts of a document is the output of the first, then of the second: lines are rewritten independently, in order |
| `Rewrite.MaskedTokensHaveNoSpace` | mimic_w2v_tools/w2v.py:159-173 | a line yields as many written tokens as it has pieces, and no written token holds a space |
| `Rewrite.OutputLineTokens` | mimic_w2v_tools/w2v.py:159-176 | each output line ends in a newline; its body splits into one token per input piece, which is "#unk#" exactly when the normalised piece is a singleton and the normalised piece otherwise |
| `Rewrite.NoSingletonsPlainText` | mimic_w2v_tools/w2v.py:169-176 | with an empty singleton set the output line is the plain normalised text |
| `Rewrite.RewrittenTokens` | mimic_w2v_tools/w2v.py:151-176 | the rewriting pass writes the tokens the counting pass counts, with the same flags and in the same order, each one masked |
| `Pipeline.CorpusTables` | mimic_w2v_tools/w2v.py:47-49 | the counting phase yields one tally per document, in document order |
| `Pipeline.GatherAll` | mimic_w2v_tools/w2v.py:47-49 | running the counting jobs one after another gives those tallies, and each is valid |
| `Pipeline.RewriteAll` | mimic_w2v_tools/w2v.py:83-84 | the rewriting phase rewrites each document on its own |
| `Pipeline.RewriteChunks` | mimic_w2v_tools/w2v.py:83-84 | rewriting chunk after chunk rewrites the concatenation of the chunks |
| `Pipeline.PrepW2v` | mimic_w2v_tools/w2v.py:13-86 | `prep_w2v` as written computes `Pipeline.Prepare`: it fails, with joblib's ValueError and before any work, exactly when `n_jobs` is 0; its sample is a subset of the singletons; rewriting uses the default flags |
| `Pipeline.Prepare` | mimic_w2v_tools/w2v.py:13-86 | `prep_w2v` as written, rewriting with the default flags of `_write_file`; it fails exactly when `n_jobs` is 0 (its outcome is stated by `Pipeline.PreparedSingletons`, `Pipeline.PreparedDocuments` and `Pipeline.FlagsNotForwarded`) |
| `Pipeline.PrepareForwarding` | mimic_w2v_tools/w2v.py:83-84 | `prep_w2v` with the flags passed on to `_write_file`; it fails exactly when `n_jobs` is 0 (its outcome is stated by `Pipeline.ForwardingMasksSample`) |
| `Pipeline.CorpusCountOf` | mimic_w2v_tools/w2v.py:47-60 | the corpus-wide count of a token is the number of times the counting pass meets it |
| `Pipeline.CorpusTotal` | mimic_w2v_tools/w2v.py:47-60 | `token_nb` summed over the tables is the number of tokens the counting pass meets |
| `Pipeline.PreparedSingletons` | mimic_w2v_tools/w2v.py:47-70 | over the corpus, a token is a singleton exactly when it is met once and holds no digit; the sample is within the singletons; `token_nb` is the number of tokens met |
| `Pipeline.PreparedDocuments` | mimic_w2v_tools/w2v.py:79-84 | for any positive `n_jobs` every document is rewritten once, in list order, so the output does not depend on `n_jobs`; a negative `n_jobs` writes nothing |
| `Pipeline.ForwardingMasksSample` | mimic_w2v_tools/w2v.py:83-84 | with the flags passed on, each document's output tokens are its counted tokens, each masked, and no sampled singleton other than "#unk#" survives |
| `Pipeline.FlagsNotForwarded` | mimic_w2v_tools/w2v.py:83-84 | with `lowercase=False` the singleton "A" is sampled but written as "a" as the code stands; passing the flags on writes "#unk#" |

## Findings

| source | as written | input that shows it | evidently intended | confidence | as-written member | corrected member |
|---|---|---|---|---|---|---|
| mimic_w2v_tools/w2v.py:83-84 | `_write_file` is called without `lowercase`/`replace_digits`, so rewriting always lowercases and folds digits | one document with the line `"A"`, `lowercase=False`, `n_jobs=1`, `ratio_unknown=1.0`: "A" is counted and sampled, but the output line is `"a"` instead of `"#unk#"` | the rewriting pass normalises with the same flags as the counting pass, so every sampled singleton is replaced | high (proved; not executed) | `Pipeline.FlagsNotForwarded` (about `Pipeline.Prepare`) | `Pipeline.PrepareForwarding`, with `Pipeline.ForwardingMasksSample` |

`Pipeline.PrepW2v` keeps the as-written behaviour, because it models what the
program does.

## Left out

- File discovery with `os.walk` and the `subdir` computation (mimic_w2v_tools/w2v.py:36-40). This is file-system I/O and relies on `remove_abs`. The corpus is passed in as the list of documents found, each given as its lines.
- `ensure_dir`, and every `open`, read and write. A document comes in as a sequence of lines. It goes out as the sequence of strings passed to `write`.
- joblib `Parallel`/`delayed`, except its refusal of `n_jobs == 0`, which `Pipeline.PrepW2v` models as `ParallelValueError`. The two parallel phases run one job after another. This is faithful because joblib's `Parallel` returns its results in task order, so the merge sees them in the order the model uses. `Aggregation.MergeOrderIndependent` covers only the counts and `token_nb`. The key order of `all_tokens` depends on the order of the results, and so do which draw each singleton gets and `singletons_sample`.
- `joblib.dump`/`joblib.load` of the sample. The set is passed to the rewriting phase directly.
- The ambient random number generator. The draws are a parameter.
- Logging, and the `main.py` command-line layer.
- Unicode: `lower()` and `\d` are modelled on ASCII only.
- UTF-8 decoding errors and I/O errors. They have no counterpart once documents are sequences of lines.
- Floating point in `_chunk_list`. `Chunking.ChunkList` uses exact round-half-to-even of `L * i / n`. Where `L * i / n` is exactly halfway, the float product `len / n * i` can fall on either side of the half, so a chunk boundary can move by one even for small lists. For example, with 15 documents and 22 jobs the exact cut 11 is 7.5, which the model rounds to 8, while the float product lies just below 7.5 and the program cuts at 7. The concatenation of the chunks, and so the documents written, are unaffected (`Chunking.ConcatSlices` joins the slices back for any cut points that start at 0 and never go backwards, whichever way each one was rounded).
- Aggregation.MergeOrderIndependent: states that reordering the results leaves the counts and the total unchanged. It says nothing about the key order of `all_tokens`, which does depend on the order of the results and decides which draw each singleton gets.
