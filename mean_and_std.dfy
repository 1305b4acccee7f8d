/** `calculate_stats` in utils/eval/mean_and_std.py: per completion, its
    length in characters, its length in whitespace tokens, and for every
    n-gram order of the range the number of distinct n-grams it holds.
    The means and standard deviations numpy derives from those sample lists
    are not part of this model; the lists themselves are. */
module MeanAndStd {
  import opened PyStrings
  import opened Ngrams
  import opened Records

  /** `len(Counter(ngrams))` when the text has at least `n` words, else 0. */
  function UniqueNgrams(text: string, n: nat): (u: nat)
    ensures |Split(text)| < n ==> u == 0
    ensures |Split(text)| >= n ==> 1 <= u <= |Split(text)| - n + 1
  {
    var words := Split(text);
    if |words| >= n then
      DistinctBounds(NgramsOf(words, n));
      |Distinct(NgramsOf(words, n))|
    else 0
  }

  /** The `len(words) >= n` guard changes nothing: without it the
      comprehension would be empty and its Counter would have no keys. */
  lemma UniqueNgramsOfGetNgrams(text: string, n: nat)
    ensures UniqueNgrams(text, n) == |Distinct(GetNgrams(text, n))|
  {
    if |Split(text)| < n {
      assert GetNgrams(text, n) == [];
      assert Distinct(GetNgrams(text, n)) == {};
    }
  }

  /** For n = 1 the sample is the number of distinct words. */
  lemma UniqueUnigramsAreDistinctWords(text: string)
    ensures UniqueNgrams(text, 1) == |Distinct(Split(text))|
  {
    DistinctUnigrams(Split(text));
    if Split(text) == [] {
      assert Distinct(Split(text)) == {};
    }
  }

  /** The texts of the lines that decode to an object with a
      `completion_only` field, in file order: undecodable lines are
      reported and skipped (lines 46-48), lines without the field are
      passed over (line 32). */
  function Completions(records: seq<Record>): (texts: seq<string>)
    ensures |texts| <= |records|
  {
    if records == [] then []
    else
      var front := Completions(records[..|records| - 1]);
      match records[|records| - 1]
      case Text(s) => front + [s]
      case _ => front
  }

  /** Skipped lines leave no trace anywhere in the input. */
  lemma {:induction false} CompletionsSkip(a: seq<Record>, r: Record, b: seq<Record>)
    requires !r.Text?
    ensures Completions(a + [r] + b) == Completions(a + b)
    decreases |b|
  {
    if b == [] {
      assert (a + [r] + b)[..|a + [r] + b| - 1] == a;
      assert a + b == a;
    } else {
      var last := b[|b| - 1];
      var b' := b[..|b| - 1];
      assert (a + [r] + b)[..|a + [r] + b| - 1] == a + [r] + b';
      assert (a + b)[..|a + b| - 1] == a + b';
      assert (a + [r] + b)[|a + [r] + b| - 1] == last == (a + b)[|a + b| - 1];
      CompletionsSkip(a, r, b');
    }
  }

  /** A completion is counted exactly when some line carries it. */
  lemma {:induction false} CompletionsMembership(records: seq<Record>, s: string)
    ensures s in Completions(records) <==> Text(s) in records
    decreases |records|
  {
    if records != [] {
      var front := records[..|records| - 1];
      CompletionsMembership(front, s);
      assert records == front + [records[|records| - 1]];
    }
  }

  /** `char_lengths`: `len(text)` per completion. */
  function CharLengths(texts: seq<string>): (r: seq<nat>)
    ensures |r| == |texts|
  {
    seq(|texts|, i requires 0 <= i < |texts| => |texts[i]|)
  }

  /** `word_lengths`: `len(text.split())` per completion. */
  function WordLengths(texts: seq<string>): (r: seq<nat>)
    ensures |r| == |texts|
  {
    seq(|texts|, i requires 0 <= i < |texts| => |Split(texts[i])|)
  }

  /** `ngram_counts[n]`: the distinct n-gram count per completion. */
  function NgramSamples(texts: seq<string>, n: nat): (r: seq<nat>)
    ensures |r| == |texts|
  {
    seq(|texts|, i requires 0 <= i < |texts| => UniqueNgrams(texts[i], n))
  }

  /** Adding one completion appends one sample to every list. */
  lemma SamplesAppend(texts: seq<string>, text: string, n: nat)
    ensures CharLengths(texts + [text]) == CharLengths(texts) + [|text|]
    ensures WordLengths(texts + [text]) == WordLengths(texts) + [|Split(text)|]
    ensures NgramSamples(texts + [text], n) == NgramSamples(texts, n) + [UniqueNgrams(text, n)]
  {
  }

  /** Relations between the three kinds of sample of one completion: a text
      of `k` characters has at most `(k + 1) / 2` words, and at most one
      distinct n-gram more than it has words (n = 0 counts one, the empty
      n-gram); a longer order never has more windows. */
  lemma SampleBounds(texts: seq<string>, i: nat, n: nat)
    requires i < |texts|
    ensures 2 * WordLengths(texts)[i] <= CharLengths(texts)[i] + 1
    ensures NgramSamples(texts, n)[i] <= WordLengths(texts)[i] + 1
    ensures n >= 1 ==> NgramSamples(texts, n)[i] <= WordLengths(texts)[i]
    ensures NgramSamples(texts, n)[i] == 0 <==> WordLengths(texts)[i] < n
  {
    SplitBound(texts[i]);
  }

  /** What `calculate_stats` returns. `NoSamples` is the `(0, 0, 0, 0, {}, 0)`
      of an input without completions. Otherwise the sample lists stand for
      the means and standard deviations computed from them, `count` is
      `len(char_lengths)`, and `ngramStats` has an entry for every order
      whose sample list is non-empty. */
  datatype Stats =
    | NoSamples
    | Samples(charLengths: seq<nat>, wordLengths: seq<nat>, ngramStats: map<nat, seq<nat>>, count: nat)

  /** The sample lists of every order in the range while completion
      `|after| - 1` is being added: orders below `n` already hold it. */
  ghost function SampleTable(after: seq<string>, before: seq<string>, n: nat, lo: nat, hi: nat): map<nat, seq<nat>> {
    map m | m in Orders(lo, hi) :: if m < n then NgramSamples(after, m) else NgramSamples(before, m)
  }

  lemma SampleTableStep(before: seq<string>, text: string, n: nat, lo: nat, hi: nat)
    requires lo <= n <= hi
    ensures var t := SampleTable(before + [text], before, n, lo, hi);
      t[n := t[n] + [UniqueNgrams(text, n)]] == SampleTable(before + [text], before, n + 1, lo, hi)
  {
    SamplesAppend(before, text, n);
  }

  /** `ngram_stats` once `ngram_counts` is complete: orders in
      `range(lo, n)` with a non-empty list are done. */
  ghost function StatsTable(texts: seq<string>, n: nat, lo: nat, hi: nat): map<nat, seq<nat>> {
    map m | m in Orders(lo, hi) && m < n && |texts| > 0 :: NgramSamples(texts, m)
  }

  /** Lines 39-45 for one completion: its distinct n-gram count is appended
      to the list of every order of the range. */
  method AppendOrders(ngramCounts: map<nat, seq<nat>>, text: string, minN: nat, maxN: nat, ghost before: seq<string>)
    returns (counts: map<nat, seq<nat>>)
    requires ngramCounts == SampleTable(before, before, minN, minN, maxN)
    ensures counts == SampleTable(before + [text], before + [text], minN, minN, maxN)
  {
    ghost var after := before + [text];
    counts := ngramCounts;
    assert counts == SampleTable(after, before, minN, minN, maxN);
    var n := minN;
    while n <= maxN
      invariant minN <= n <= maxN + 1 || (n == minN && minN > maxN)
      invariant counts == SampleTable(after, before, n, minN, maxN)
      decreases maxN + 1 - n
    {
      SampleTableStep(before, text, n, minN, maxN);
      counts := counts[n := counts[n] + [UniqueNgrams(text, n)]];
      n := n + 1;
    }
    assert counts == SampleTable(after, after, minN, minN, maxN);
  }

  /** Lines 24-48: the sample lists, one entry per completion. */
  method CollectSamples(records: seq<Record>, minN: nat, maxN: nat)
    returns (charLengths: seq<nat>, wordLengths: seq<nat>, ngramCounts: map<nat, seq<nat>>)
    ensures charLengths == CharLengths(Completions(records))
    ensures wordLengths == WordLengths(Completions(records))
    ensures ngramCounts == SampleTable(Completions(records), Completions(records), minN, minN, maxN)
  {
    ghost var texts: seq<string> := [];
    charLengths, wordLengths := [], [];
    ngramCounts := map n | n in Orders(minN, maxN) :: [];
    assert ngramCounts == SampleTable(texts, texts, minN, minN, maxN);
    for i := 0 to |records|
      invariant texts == Completions(records[..i])
      invariant charLengths == CharLengths(texts)
      invariant wordLengths == WordLengths(texts)
      invariant ngramCounts == SampleTable(texts, texts, minN, minN, maxN)
    {
      assert records[..i + 1][..i] == records[..i];
      match records[i]
      case Malformed =>
      case NoField =>
      case Text(text) =>
        var words := Split(text);
        SamplesAppend(texts, text, minN);
        charLengths, wordLengths := charLengths + [|text|], wordLengths + [|words|];
        ngramCounts := AppendOrders(ngramCounts, text, minN, maxN, texts);
        texts := texts + [text];
    }
    assert records[..|records|] == records;
  }

  /** `calculate_stats(jsonl_path, (minN, maxN))` on the decoded lines of
      the file, with numpy's mean and std left as the sample lists. */
  method CalculateStats(records: seq<Record>, minN: nat := 1, maxN: nat := 5) returns (stats: Stats)
    ensures stats.NoSamples? <==> Completions(records) == []
    ensures stats.Samples? ==>
      && stats.count == |Completions(records)|
      && stats.charLengths == CharLengths(Completions(records))
      && stats.wordLengths == WordLengths(Completions(records))
      && stats.ngramStats.Keys == Orders(minN, maxN)
      && forall n :: n in stats.ngramStats ==> stats.ngramStats[n] == NgramSamples(Completions(records), n)
  {
    var charLengths, wordLengths, ngramCounts := CollectSamples(records, minN, maxN);
    ghost var texts := Completions(records);
    if charLengths == [] {
      return NoSamples;
    }
    var ngramStats: map<nat, seq<nat>> := map[];
    var n := minN;
    assert ngramStats == StatsTable(texts, n, minN, maxN);
    while n <= maxN
      invariant minN <= n <= maxN + 1 || (n == minN && minN > maxN)
      invariant ngramStats == StatsTable(texts, n, minN, maxN)
      decreases maxN + 1 - n
    {
      if ngramCounts[n] != [] {
        ngramStats := ngramStats[n := ngramCounts[n]];
      }
      assert ngramStats == StatsTable(texts, n + 1, minN, maxN);
      n := n + 1;
    }
    assert StatsTable(texts, n, minN, maxN).Keys == Orders(minN, maxN);
    return Samples(charLengths, wordLengths, ngramStats, |charLengths|);
  }
}
