# diversify_lm_output: n-gram statistics, prompt store and viewer generation in Dafny

This project models the integer- and string-level core of the evaluation
scripts of `diversify_lm_output`:

- **Whitespace n-grams and corpus counting** (`utils/eval/ngram_entropy.py`).
  - `get_ngrams` splits a text on whitespace and joins every window of `n`
    tokens with single spaces.
  - `main` adds those n-grams, for every line of a completions log and every
    order 1..`max_n`, into one `collections.Counter` per order.
  - `compute_entropy` turns each count into a probability `count / total`.
    The guards on `max_possible` and `normalized_entropy` are modelled too.
- **Per-completion statistics** (`calculate_stats` in `utils/eval/mean_and_std.py`).
  Each completion contributes its character length, its word count and, for
  every order of the range, its number of distinct n-grams.
- **Prompt lookup with fallback** (`utils/prompt_store.py`).
- **Page and viewer generation** (`utils/eval/streamlit_viewing/generate_pages.py`
  and `generate_viewers.py`).
  - The file names derived from a file's relative path with `str.replace`.
  - The `is_random` test.
  - The page template with its fields and conditional snippets.
  - The placeholder `replace` chain that fills a viewer template.

Modules:

- `PyStrings` (pystrings.dfy) defines the Python `str` operations used:
  - `split()` and `' '.join`;
  - `replace`: left to right, non-overlapping, with the empty pattern
    inserting everywhere;
  - the `in` test and `endswith`;
  - `lower()` and `str(bool)`.
- `Records` and `Ngrams` (ngrams.dfy) hold the decoded log lines and `get_ngrams`.
- `NgramEntropy` (ngram_entropy.dfy) models counting and probabilities.
  - A Counter is a `map<string, nat>` holding only positive counts.
  - `Count` answers 0 for missing keys.
  - `main`'s loop is the method `CountNgrams`, proved against the reference
    function `CorpusCount`.
  - The loop of `compute_entropy` is the method `ProbabilityTerms`.
- `MeanAndStd` (mean_and_std.dfy) models `calculate_stats` as the method
  `CalculateStats`, proved against the functions `Completions`,
  `CharLengths`, `WordLengths` and `NgramSamples`.
- `PromptStore` (prompt_store.dfy) models `PROMPT_BANK`, `get_prompt` and
  `get_all_prompts`.
- `Paths`, `GeneratePages` and `GenerateViewers` (paths.dfy,
  generate_pages.dfy, generate_viewers.dfy) model the generators.
  - One entry of the `os.walk` loop is a `WalkEntry` (directory relative to
    the store, file name).
  - The body of each generator's loop is a function of that entry:
    `PageFor` and `ViewerFor`.

Two behaviours of the source are worth knowing. Both are stated as lemmas.

- **Page names can collide.** Flattening `/` to `_` makes two files share a
  page name: `x/y.jsonl` in a directory and `x_y.jsonl` in the store root.
  Both files get a page under one file name but with different contents, so
  the page written second replaces the first (`GeneratePages.PageNamesCollide`,
  `GeneratePages.PageFilesCollide`).
- **Quoted placeholders get doubled quotes.** The file-path placeholder is
  replaced by the path inside one pair of double quotes. A template whose
  placeholder already sits in quotes therefore gets doubled quotes, as in the
  generated viewer under `generated_graphs/` (`GenerateViewers.DefaultViewerLines`).
  - The random flag is spelled `True`/`False` in the text.
  - Inside a quoted placeholder the flag becomes the string `"False"`, which
    is non-empty.

## Model

| member | source | states |
|---|---|---|
| PyStrings.Split | utils/eval/ngram_entropy.py:8 | every token of `text.split()` is non-empty and free of whitespace |
| PyStrings.SplitEmptyIff | utils/eval/ngram_entropy.py:8 | `text.split()` is empty exactly when the text is all whitespace, both directions |
| PyStrings.LeadingWord | utils/eval/ngram_entropy.py:8 | the first token is the longest whitespace-free prefix: it ends at the end or before a whitespace character |
| PyStrings.SplitJoin | utils/eval/ngram_entropy.py:8-9 | round trip: splitting the space-joined form of a token list gives the list back |
| PyStrings.JoinInjective | utils/eval/ngram_entropy.py:9 | two token lists have the same space-joined form exactly when they are equal |
| PyStrings.SplitBound | utils/eval/mean_and_std.py:34-36 | a string of `k` characters splits into at most `(k + 1) / 2` words |
| PyStrings.SplitSkipsSpace | utils/eval/ngram_entropy.py:8 | leading whitespace does not change the split |
| PyStrings.LeadingWordOfToken | utils/eval/ngram_entropy.py:8 | a token followed by the end or by whitespace is read back whole as the first word |
| PyStrings.ContainsIffOccurs | utils/eval/streamlit_viewing/generate_pages.py:102 | the `in` test holds exactly when the pattern occurs at some position, in both directions |
| PyStrings.ContainsInfix | utils/eval/streamlit_viewing/generate_pages.py:102 | a string contains every pattern placed inside it |
| PyStrings.ContainsNeedsChar | utils/eval/streamlit_viewing/generate_viewers.py:35-41 | a string missing one character of the pattern does not contain the pattern |
| PyStrings.ContainsWiden | utils/eval/streamlit_viewing/generate_pages.py:10-87 | text added on either side keeps an occurrence |
| PyStrings.ConcatSplit | utils/eval/streamlit_viewing/generate_pages.py:10-87 | concatenating two lists of pieces is concatenating their texts |
| PyStrings.ConcatContains | utils/eval/streamlit_viewing/generate_pages.py:10-87 | every piece of a concatenation occurs in it |
| PyStrings.Lower | utils/eval/streamlit_viewing/generate_pages.py:102 | `lower()` keeps the length and lowercases every character in place |
| PyStrings.LowerConcat | utils/eval/streamlit_viewing/generate_viewers.py:28 | lowercasing works piecewise on a concatenation |
| PyStrings.LowerOfLower | utils/eval/streamlit_viewing/generate_viewers.py:28 | a string without capitals is its own lowercase form |
| PyStrings.InsertEverywhere | utils/eval/streamlit_viewing/generate_pages.py:8 | `replace` with an empty pattern gives a result as long as the input plus one copy of the replacement per character and one more |
| PyStrings.InsertEverywhereContents | utils/eval/streamlit_viewing/generate_pages.py:8 | with `k` one more than the replacement's length, a copy of the replacement starts at every `i * k`, the end included, and character `i` of the input follows it: the replacement is inserted before every character and at the end |
| PyStrings.InsertedAt | utils/eval/streamlit_viewing/generate_pages.py:8 | the same for the `i`-th slot alone, its position written as repeated addition (`Slot`) |
| PyStrings.SlotIsProduct | utils/eval/streamlit_viewing/generate_pages.py:8 | the repeated addition `Slot(i, k)` is `i * k` |
| PyStrings.ReplaceAbsent | utils/eval/streamlit_viewing/generate_pages.py:8 | with no occurrence of the pattern, `replace` is the identity |
| PyStrings.ReplaceChars | utils/eval/streamlit_viewing/generate_pages.py:8 | every character of the result comes from the input or from the replacement |
| PyStrings.ReplaceKeepsAbsent | utils/eval/streamlit_viewing/generate_pages.py:8 | a character in neither the input nor the replacement is absent from the result |
| PyStrings.ReplaceNoLonger | utils/eval/streamlit_viewing/generate_pages.py:8 | removing `.jsonl` (a replacement no longer than the pattern) never lengthens the string |
| PyStrings.ReplaceCharPointwise | utils/eval/streamlit_viewing/generate_pages.py:8 | the `/` to `_` step keeps the length and changes exactly the positions that held `/` |
| PyStrings.ReplaceCharRemoves | utils/eval/streamlit_viewing/generate_pages.py:8 | after the `/` to `_` step no `/` is left |
| PyStrings.ReplaceCharConcat | utils/eval/streamlit_viewing/generate_pages.py:8 | a character-for-character replacement works on the two halves of a string separately |
| PyStrings.ReplaceCharAbsent | utils/eval/streamlit_viewing/generate_pages.py:8 | a string without the replaced character comes back unchanged |
| PyStrings.ReplaceSkipsPrefix | utils/eval/streamlit_viewing/generate_pages.py:8 | a prefix free of the pattern's first character is copied, and the scan continues after it |
| PyStrings.ReplaceSplit | utils/eval/streamlit_viewing/generate_viewers.py:35-41 | a prefix in which no occurrence can start is copied, and the scan continues after it |
| PyStrings.ReplaceSkipsChar | utils/eval/streamlit_viewing/generate_viewers.py:35-41 | a first character that does not start an occurrence is copied as it is |
| PyStrings.ReplaceAtFront | utils/eval/streamlit_viewing/generate_viewers.py:35-41 | an occurrence at the front is replaced and the scan resumes after it (left to right, non-overlapping) |
| PyStrings.OverlapIsBorder | utils/eval/streamlit_viewing/generate_viewers.py:31 | two overlapping occurrences force a border of the pattern |
| PyStrings.ReplaceKeepsSuffix | utils/eval/streamlit_viewing/generate_viewers.py:31 | for a pattern that cannot overlap itself, an input ending with it gives a result ending with the replacement |
| PyStrings.ReplaceCharKeepsSuffix | utils/eval/streamlit_viewing/generate_viewers.py:31 | the `/` to `_` step keeps a suffix without `/` |
| Ngrams.NgramsOf | utils/eval/ngram_entropy.py:9 | a list of `T` words has exactly `max(0, T - n + 1)` n-grams |
| Ngrams.NgramWindow | utils/eval/ngram_entropy.py:8-9 | item `i` of `get_ngrams` is tokens `i..i+n-1` joined by spaces, and splitting it gives exactly those `n` tokens back |
| Ngrams.NgramsEqualIff | utils/eval/ngram_entropy.py:8-9 | two n-grams are equal exactly when their token windows are equal |
| Ngrams.ShortTextHasNoNgrams | utils/eval/ngram_entropy.py:9 | a text with fewer than `n` tokens has no n-grams |
| Ngrams.Orders | utils/eval/ngram_entropy.py:33 | `range(lo, hi + 1)` as a set holds exactly the orders from `lo` to `hi` |
| Ngrams.DistinctBounds | utils/eval/mean_and_std.py:42 | a non-empty list has between 1 and its length distinct items |
| Ngrams.DistinctUnigrams | utils/eval/mean_and_std.py:41-42 | the distinct unigrams are the distinct words |
| NgramEntropy.Update | utils/eval/ngram_entropy.py:41 | `Counter.update` adds each item's multiplicity to its count, adds exactly the new items as keys, and keeps counts positive |
| NgramEntropy.CounterExtensionality | utils/eval/ngram_entropy.py:41 | two positive Counters agreeing on every key's count are equal |
| NgramEntropy.Merge | utils/eval/ngram_entropy.py:41 | adding Counters key by key adds every count |
| NgramEntropy.MassRemove | utils/eval/ngram_entropy.py:13 | `sum(counter.values())` does not depend on which key is summed first |
| NgramEntropy.MassIncrement | utils/eval/ngram_entropy.py:41 | adding one to a key adds one to the total |
| NgramEntropy.MassUpdate | utils/eval/ngram_entropy.py:41 | `update` with `k` items adds `k` to the total |
| NgramEntropy.KeysAtMostMass | utils/eval/ngram_entropy.py:13 | a positive Counter has no more keys than its total |
| NgramEntropy.Texts | utils/eval/ngram_entropy.py:38 | definition: the `completion_only` text of each line, `""` when the field is missing; `CountNgrams` is proved against it |
| NgramEntropy.CorpusCount | utils/eval/ngram_entropy.py:36-41 | the Counter for one order after every text has been added holds only positive counts |
| NgramEntropy.CorpusCountStep | utils/eval/ngram_entropy.py:40-41 | adding one more text applies `update` with that text's n-grams |
| NgramEntropy.CountIsOccurrences | utils/eval/ngram_entropy.py:33-41 | additivity: every key's count is the number of its occurrences in `get_ngrams(text, n)`, summed over all texts |
| NgramEntropy.MassIsNgramTotal | utils/eval/ngram_entropy.py:33-41 | the total mass is the sum over the texts of `max(0, T_i - n + 1)` |
| NgramEntropy.CorpusCountBounds | utils/eval/ngram_entropy.py:33-41 | every key has count at least 1, and the number of keys is at most the total mass |
| NgramEntropy.OccurrencesAppend | utils/eval/ngram_entropy.py:36-41 | occurrences in two parts of the log add up |
| NgramEntropy.OccurrencesSingle | utils/eval/ngram_entropy.py:40-41 | one text contributes the multiplicity of the key among its n-grams |
| NgramEntropy.OccurrencesRemoveAt | utils/eval/ngram_entropy.py:36-41 | taking one text out of the log removes exactly its contribution |
| NgramEntropy.MultisetRemoveAt | utils/eval/ngram_entropy.py:36-41 | two logs holding the same texts still do after one copy of a text is removed from each |
| NgramEntropy.OccurrencesPermutation | utils/eval/ngram_entropy.py:36-41 | occurrences do not depend on the order of the texts |
| NgramEntropy.CorpusCountPartition | utils/eval/ngram_entropy.py:36-41 | counting two parts of the log separately and adding the Counters equals counting the whole |
| NgramEntropy.CorpusCountOrderFree | utils/eval/ngram_entropy.py:36-41 | the final Counters do not depend on the order of the lines |
| NgramEntropy.NoFieldLeavesCounters | utils/eval/ngram_entropy.py:38-41 | a line without `completion_only` leaves every Counter of order at least 1 unchanged |
| NgramEntropy.OccurrencesAtLeast | utils/eval/ngram_entropy.py:36-41 | a key occurs in the log at least as often as in any one text |
| NgramEntropy.CorpusCountEmptyIff | utils/eval/ngram_entropy.py:36-41 | a Counter is empty exactly when no text has `n` words |
| NgramEntropy.OccurrencesVanish | utils/eval/ngram_entropy.py:36-41 | with every text shorter than `n` words, no key occurs |
| NgramEntropy.CountNgrams | utils/eval/ngram_entropy.py:33-41 | aborts exactly when some line fails to decode, and then at the first such line (`json.loads` is not guarded); otherwise holds one Counter per order 1..`max_n`, equal to `CorpusCount` of the texts; `max_n` defaults to `MaxN`, 5 |
| NgramEntropy.AddText | utils/eval/ngram_entropy.py:39-41 | after one text, the Counter of every order has taken that text's n-grams |
| NgramEntropy.TableOfCounts | utils/eval/ngram_entropy.py:33-41 | the finished Counters satisfy the loop invariant of the inner loop at order 1 |
| NgramEntropy.CountsOfTable | utils/eval/ngram_entropy.py:33-41 | the invariant of the inner loop after the last order gives the finished Counters |
| NgramEntropy.TableDone | utils/eval/ngram_entropy.py:39-41 | once every order has taken the text, the Counters are those of the longer log |
| NgramEntropy.TableStep | utils/eval/ngram_entropy.py:40-41 | updating order `n` advances the inner loop's invariant by one order and changes no other order |
| NgramEntropy.KeysOf | utils/eval/ngram_entropy.py:15 | iterating a Counter visits every key exactly once |
| NgramEntropy.KeySumAgree | utils/eval/ngram_entropy.py:13 | a sum over listed keys depends only on those keys' counts |
| NgramEntropy.MassIsKeySum | utils/eval/ngram_entropy.py:13 | summing counts along any enumeration of the keys gives the total |
| NgramEntropy.MassAtLeast | utils/eval/ngram_entropy.py:13-16 | no count exceeds the total |
| NgramEntropy.SumCounts | utils/eval/ngram_entropy.py:13 | `total = sum(counter.values())` is the Counter's total mass |
| NgramEntropy.ShareBounds | utils/eval/ngram_entropy.py:16 | a positive count no larger than the total gives a `p` in (0, 1] |
| NgramEntropy.Shares | utils/eval/ngram_entropy.py:15-16 | one `count / total` per listed key, in list order |
| NgramEntropy.SumShares | utils/eval/ngram_entropy.py:15-16 | the shares add up like the counts they come from |
| NgramEntropy.SharesAreProbabilities | utils/eval/ngram_entropy.py:13-17 | for a non-empty Counter every `p` lies in (0, 1] and the `p` sum to 1 |
| NgramEntropy.ProbabilityTerms | utils/eval/ngram_entropy.py:13-17 | one `p = count / total` per key, visiting each key once; none for an empty Counter, so no division by zero; otherwise every `p` is in (0, 1], where `log2` is defined, and they sum to 1 |
| NgramEntropy.MaxPossible | utils/eval/ngram_entropy.py:47 | the `else 0` branch (`ZeroMax`) is taken exactly for an empty Counter; otherwise the result is log2 of the number of keys, which is 0 for a Counter with one key |
| NgramEntropy.Normalized | utils/eval/ngram_entropy.py:48 | `normalized_entropy` is 0 exactly when the Counter has at most one key (log2 1 = 0), else entropy over log2 of the keys |
| NgramEntropy.ShortCorpusReportsZero | utils/eval/ngram_entropy.py:44-48 | for an order that no text reaches, the maximum and the normalized entropy are both 0 |
| MeanAndStd.UniqueNgrams | utils/eval/mean_and_std.py:40-45 | 0 when the text has fewer than `n` words, else between 1 and `len(words) - n + 1` |
| MeanAndStd.UniqueNgramsOfGetNgrams | utils/eval/mean_and_std.py:40-45 | the sample is the number of distinct `get_ngrams` strings; the `len(words) >= n` guard changes nothing |
| MeanAndStd.UniqueUnigramsAreDistinctWords | utils/eval/mean_and_std.py:41-42 | for `n = 1` the sample is the number of distinct words |
| MeanAndStd.Completions | utils/eval/mean_and_std.py:29-48 | the counted completions are at most the lines |
| MeanAndStd.CompletionsSkip | utils/eval/mean_and_std.py:32-48 | a malformed line or one without the field leaves every list as if it were absent |
| MeanAndStd.CompletionsMembership | utils/eval/mean_and_std.py:32-33 | a text is counted exactly when some line carries it in `completion_only` |
| MeanAndStd.CharLengths | utils/eval/mean_and_std.py:34 | definition: one `len(text)` per completion; `CalculateStats` is proved against it |
| MeanAndStd.WordLengths | utils/eval/mean_and_std.py:35-36 | definition: one word count per completion; `CalculateStats` is proved against it |
| MeanAndStd.NgramSamples | utils/eval/mean_and_std.py:39-45 | definition: one sample per completion for every order; `CalculateStats` is proved against it |
| MeanAndStd.SamplesAppend | utils/eval/mean_and_std.py:34-45 | a new completion appends exactly one value to every list |
| MeanAndStd.SampleBounds | utils/eval/mean_and_std.py:34-45 | per completion: words at most `(chars + 1) / 2`; distinct n-grams at most words (plus one for `n = 0`); the sample is 0 exactly when the text has fewer than `n` words |
| MeanAndStd.SampleTableStep | utils/eval/mean_and_std.py:39-45 | appending the sample of order `n` advances the inner loop's invariant by one order |
| MeanAndStd.AppendOrders | utils/eval/mean_and_std.py:39-45 | after one completion, every order's list has that completion's sample appended |
| MeanAndStd.CollectSamples | utils/eval/mean_and_std.py:24-48 | the three sample lists are those of the counted completions, in file order |
| MeanAndStd.CalculateStats | utils/eval/mean_and_std.py:11-70 | the empty result exactly when no completion is counted; otherwise `count` is the number of completions, the lists are their lengths, and `ngram_stats` has a key for every order of the range, with that order's samples; the range defaults to (1, 5) |
| PromptStore.Get | utils/prompt_store.py:39 | definition: `dict.get`, the value of a present key and the fallback otherwise; `GetPromptFromBank` and `GetPromptEmptyIff` state what `get_prompt` makes of it |
| PromptStore.GetPrompt | utils/prompt_store.py:28-39 | the prompt of `key` if present; else that of `default_key` if present; else `""` |
| PromptStore.GetAllPrompts | utils/prompt_store.py:41-48 | the bank has exactly the six keys, each mapped to what `get_prompt` returns for it |
| PromptStore.PromptsNonEmpty | utils/prompt_store.py:7-26 | the bank holds the six keys, each with a non-empty prompt |
| PromptStore.GetPromptFromBank | utils/prompt_store.py:39 | the result is a prompt of the bank, or `""` only when both keys are missing |
| PromptStore.DefaultFallbackNeverEmpty | utils/prompt_store.py:28-39 | with the default fallback key the result is never `""`; an unknown key gets the `default` prompt |
| PromptStore.GetPromptEmptyIff | utils/prompt_store.py:39 | the result is `""` exactly when neither key is in the bank |
| Paths.RelPath | utils/eval/streamlit_viewing/generate_viewers.py:25 | the relative path ends with the file name |
| Paths.FullPathIsBaseAndRel | utils/eval/streamlit_viewing/generate_viewers.py:24-25 | the full path is the base directory, `/` and the relative path, so `relpath` undoes `join` |
| Paths.FullPathAvoids | utils/eval/streamlit_viewing/generate_viewers.py:24 | a character other than `/` in none of the parts is not in the full path |
| Paths.IsRandomInfix | utils/eval/streamlit_viewing/generate_viewers.py:28 | any letter case of `random`, anywhere in the file name, marks the file random |
| Paths.IsRandomIff | utils/eval/streamlit_viewing/generate_pages.py:102 | random exactly when the lowercase file name has `random` at some position |
| Paths.NotRandomWithoutPair | utils/eval/streamlit_viewing/generate_pages.py:102 | a lowercase name without the letter pair `ra` is not random |
| Paths.OccurrenceStarts | utils/eval/streamlit_viewing/generate_pages.py:102 | an occurrence fixes the characters at its position |
| GeneratePages.PageName | utils/eval/streamlit_viewing/generate_pages.py:8 | the page name has no `/` and is never longer than the relative path |
| GeneratePages.FlattenPointwise | utils/eval/streamlit_viewing/generate_pages.py:8 | flattening keeps the length and turns exactly the `/` into `_` |
| GeneratePages.PageNameOfPlain | utils/eval/streamlit_viewing/generate_pages.py:8 | for a path whose only dot is that of `.jsonl`, the page name is the path without the extension, `/` flattened |
| GeneratePages.PlainNameKept | utils/eval/streamlit_viewing/generate_pages.py:8 | a plain file name in the store root keeps its name, extension dropped |
| GeneratePages.FlattenJoin | utils/eval/streamlit_viewing/generate_pages.py:8 | a directory and a file joined by `/` flatten to the two joined by `_` |
| GeneratePages.DefaultPageName | utils/eval/streamlit_viewing/generate_pages.py:8 | `default/default_normal_prompt_output.jsonl` gets the page `default_default_normal_prompt_output` |
| GeneratePages.PageNamesCollide | utils/eval/streamlit_viewing/generate_pages.py:8 | two different files, `x/y.jsonl` and `x_y.jsonl` in the root, get the same page name |
| GeneratePages.Pieces | utils/eval/streamlit_viewing/generate_pages.py:10-87 | definition: the template cut into eleven pieces at its five fields; `TemplateFields`, `RandomPageAddsSnippets` and `FillsDiffer` are proved against it |
| GeneratePages.GeneratePageTemplate | utils/eval/streamlit_viewing/generate_pages.py:5-89 | the second value is the page name of the relative path; the page shows that name in its title, opens the full path, and names the relative path in its header |
| GeneratePages.TemplateFields | utils/eval/streamlit_viewing/generate_pages.py:15-44 | a filled template contains its title, `open` call and header fields |
| GeneratePages.ConcatSingle | utils/eval/streamlit_viewing/generate_pages.py:10-87 | a single piece concatenates to itself |
| GeneratePages.RandomPageAddsSnippets | utils/eval/streamlit_viewing/generate_pages.py:32-78 | the random page is the plain page with exactly the `random_doc` load snippet and display snippet added, at their two places |
| GeneratePages.RandomFields | utils/eval/streamlit_viewing/generate_pages.py:32-78 | a random page contains both `random_doc` snippets |
| GeneratePages.ScriptName | utils/eval/streamlit_viewing/generate_pages.py:108 | `f"{page_name}.py"` has no `/` and ends in `.py` |
| GeneratePages.PageFor | utils/eval/streamlit_viewing/generate_pages.py:100-109 | a page exactly for `.jsonl` files; its file name is the page name of the relative path followed by `.py`, so it has no `/`; its content is the template filled for the entry with its random flag; it opens the file's full path; a random file's page contains both snippets |
| GeneratePages.FillsDiffer | utils/eval/streamlit_viewing/generate_pages.py:10-87 | templates filled with two full paths that differ at some position are different texts |
| GeneratePages.PageFilesCollide | utils/eval/streamlit_viewing/generate_pages.py:98-112 | `x/y.jsonl` and `x_y.jsonl` in the root both get a page under the same file name, with different contents, so one of the two pages is lost |
| GeneratePages.PathsDiffer | utils/eval/streamlit_viewing/generate_pages.py:101 | the full paths of those two files agree up to the directory name and then differ (`/` against `_`) |
| GenerateViewers.ViewerName | utils/eval/streamlit_viewing/generate_viewers.py:31 | the viewer name has no `/` |
| GenerateViewers.JsonlSelfDisjoint | utils/eval/streamlit_viewing/generate_viewers.py:31 | `.jsonl` cannot overlap itself |
| GenerateViewers.ViewerNameIsScript | utils/eval/streamlit_viewing/generate_viewers.py:22-31 | a `.jsonl` path gives a viewer name ending in `_viewer.py` |
| GenerateViewers.ViewerNameOfPlain | utils/eval/streamlit_viewing/generate_viewers.py:31 | for a plain path the viewer name is the page name followed by `_viewer.py` |
| GenerateViewers.ResearchViewerName | utils/eval/streamlit_viewing/generate_viewers.py:31 | `NLP_research/NLP_research_random_prompt_output.jsonl` gets `NLP_research_NLP_research_random_prompt_output_viewer.py` |
| GenerateViewers.ViewerContentWithoutPlaceholders | utils/eval/streamlit_viewing/generate_viewers.py:35-41 | a template with neither placeholder is copied unchanged |
| GenerateViewers.ReplaceTwice | utils/eval/streamlit_viewing/generate_viewers.py:35-41 | two placeholders in a row are each replaced by their value when no occurrence can start around them |
| GenerateViewers.PlaceholderLines | utils/eval/streamlit_viewing/generate_viewers.py:35-41 | the path placeholder becomes the path in one pair of double quotes, and the flag placeholder becomes `True` or `False` |
| GenerateViewers.QuotedPlaceholders | utils/eval/streamlit_viewing/generate_viewers.py:35-41 | inside quotes, the path placeholder comes out in doubled quotes and the flag as a quoted word |
| GenerateViewers.DefaultNotRandom | utils/eval/streamlit_viewing/generate_viewers.py:28 | `default_normal_prompt_output.jsonl` is not random |
| GenerateViewers.ResearchIsRandom | utils/eval/streamlit_viewing/generate_viewers.py:28 | `NLP_research_random_prompt_output.jsonl` is random |
| GenerateViewers.DefaultViewerLines | utils/eval/streamlit_viewing/generated_graphs/default_default_normal_prompt_output_viewer.py:26-27 | the default-prompt viewer gets `TARGET_FILE = ""completions_eval_store/default/default_normal_prompt_output.jsonl""` and `IS_RANDOM = "False"` |
| GenerateViewers.BarePathPlaceholder | utils/eval/streamlit_viewing/generate_viewers.py:35-41 | a bare path placeholder comes out in one pair of quotes |
| GenerateViewers.ResearchViewerLines | utils/eval/streamlit_viewing/generated/NLP_research_NLP_research_random_prompt_output_viewer.py:25-26 | the NLP_research viewer gets `TARGET_FILE = "completions_eval_store/NLP_research/NLP_research_random_prompt_output.jsonl"` and `IS_RANDOM = "True"` |
| GenerateViewers.ViewerFor | utils/eval/streamlit_viewing/generate_viewers.py:22-41 | a viewer exactly for `.jsonl` files; its name is `ViewerName` of the relative path, so it has no `/` and ends in `_viewer.py`; its content is the template with the full path and the random flag filled in |

## Left out

- The logarithms in `compute_entropy`, `max_possible` and `normalized_entropy`
  are not modelled, because they are floating point.
  - The probabilities `p` are modelled as exact reals.
  - The two results are kept symbolic (`MaxEntropy`, `NormalizedEntropy`),
    with their zero guards exact.
  - An empty Counter yields no terms, so its entropy is the initial `0.0`.
- numpy's `mean` and `std` are not modelled: `CalculateStats` returns the
  sample lists they are computed from.
- Plotting (matplotlib), argparse and all `print` calls are left out as I/O.
  - This includes the "Unique n-grams" print in `calculate_stats`, which
    prints the number of completions.
- Reading and writing files, `mkdir` and `json.loads` are left out as I/O.
  - A decoded line is a `Record`.
  - A JSON value that is not an object, or whose `completion_only` is not a
    string, is not modelled.
- The `os.walk` iteration order and the writes it drives are left out.
  - Each generator's loop body is modelled for one `WalkEntry`.
  - A later page overwriting an earlier one is not modelled as a write; the
    collision lemmas show which two entries produce the same page file with
    different contents.
- `os.path.relpath` is modelled only for paths below the base directory,
  which are the only ones `os.walk` produces.
- Python's `str.split()` and `str.lower()` are Unicode-aware. The model uses
  ASCII whitespace, including 0x1c-0x1f, and ASCII case mapping.
- Negative n-gram orders are not modelled: Python's negative slicing gives
  them a meaning of their own. Orders are `nat`, and order 0 behaves as in
  Python.
- `get_all_prompts` returns the very dictionary object of the module, so
  callers could mutate it. The model returns the bank as a value, so this
  aliasing is not captured.
- `generate_pages.py` puts backslashes inside f-string expressions (lines 32
  and 78), which Python accepts only from version 3.12 (PEP 701). The model
  follows Python 3.12 or later for this file; earlier versions reject it as
  a syntax error.
- The Streamlit runtime of the generated pages and viewers is not modelled.
  The template text is.
- The generation and inference scripts of `utils/olmo_inference` and the
  sampling of `utils/sample_dolma` are torch, randomness and I/O; they are
  not part of this model.
- GeneratePages.PageFor: its content is stated as the filled template, and a
  random file's page is stated to contain both snippets; that a plain page
  lacks them is not stated. `RandomPageAddsSnippets` states the exact
  relation instead: the two pages differ by exactly those snippets.
- GenerateViewers.QuotedPlaceholders, PlaceholderLines and
  BarePathPlaceholder require that the path holds no `R`. That is the first
  letter of both placeholders, and without it the path cannot start a new
  occurrence. Store paths such as `completions_eval_store/...` satisfy this.
- NgramEntropy.NoFieldLeavesCounters: it is stated for orders of at least 1,
  the only ones `main` uses. For order 0, `""` has one (empty) n-gram.
