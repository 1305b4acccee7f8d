/** Records of a completions log, as the analysis scripts see them once
    each line has been handed to the JSON decoder. */
module Records {

  /** `Malformed`: the line did not decode. `NoField`: it decoded to an
      object without a `completion_only` key. `Text(s)`: the object's
      `completion_only` value is `s`. */
  datatype Record = Malformed | NoField | Text(completion: string)
}

/** Whitespace n-grams, shared by `get_ngrams` in utils/eval/ngram_entropy.py
    and the identical comprehension inside `calculate_stats` in
    utils/eval/mean_and_std.py. */
module Ngrams {
  import opened PyStrings

  /** Number of windows of `n` consecutive items in a list of `t` items:
      Python's `len(range(t - n + 1))`, i.e. max(0, t - n + 1). */
  function WindowCount(t: nat, n: nat): nat {
    if t >= n then t - n + 1 else 0
  }

  /** `[' '.join(words[i:i+n]) for i in range(len(words) - n + 1)]`. */
  function NgramsOf(words: seq<string>, n: nat): (r: seq<string>)
    ensures |r| == WindowCount(|words|, n)
  {
    seq(WindowCount(|words|, n), i requires 0 <= i < WindowCount(|words|, n) => Join(words[i..i + n]))
  }

  /** `get_ngrams(text, n)`. */
  function GetNgrams(text: string, n: nat): seq<string> {
    NgramsOf(Split(text), n)
  }

  /** Item `i` of `get_ngrams(text, n)` is the `i`-th window of tokens,
      joined by single spaces, and splitting it gives that window back. */
  lemma NgramWindow(text: string, n: nat, i: nat)
    requires i < |GetNgrams(text, n)|
    ensures i + n <= |Split(text)|
    ensures GetNgrams(text, n)[i] == Join(Split(text)[i..i + n])
    ensures Split(GetNgrams(text, n)[i]) == Split(text)[i..i + n]
    ensures |Split(GetNgrams(text, n)[i])| == n
  {
    var ws := Split(text);
    assert AllTokens(ws[i..i + n]);
    SplitJoin(ws[i..i + n]);
  }

  /** Two n-grams (of any texts) are the same string exactly when their
      token windows are the same. */
  lemma NgramsEqualIff(s: string, n: nat, i: nat, t: string, m: nat, j: nat)
    requires i < |GetNgrams(s, n)| && j < |GetNgrams(t, m)|
    ensures GetNgrams(s, n)[i] == GetNgrams(t, m)[j] <==>
            Split(s)[i..i + n] == Split(t)[j..j + m]
  {
    NgramWindow(s, n, i);
    NgramWindow(t, m, j);
  }

  /** A text with fewer than `n` tokens has no n-grams. */
  lemma ShortTextHasNoNgrams(text: string, n: nat)
    requires |Split(text)| < n
    ensures GetNgrams(text, n) == []
  {
  }

  /** The orders `range(lo, hi + 1)`, as a set. */
  function Orders(lo: nat, hi: nat): (s: set<nat>)
    ensures forall n :: n in s <==> lo <= n <= hi
    decreases hi - lo
  {
    if lo > hi then {} else {lo} + Orders(lo + 1, hi)
  }

  /** The distinct items of a list: what `len(Counter(items))` counts. */
  function Distinct(items: seq<string>): set<string> {
    set x | x in items
  }

  lemma {:induction false} DistinctBounds(items: seq<string>)
    ensures |Distinct(items)| <= |items|
    ensures items != [] ==> 1 <= |Distinct(items)|
    decreases |items|
  {
    if items != [] {
      var rest := items[1..];
      assert Distinct(items) == {items[0]} + Distinct(rest) by {
        assert items == [items[0]] + rest;
      }
      DistinctBounds(rest);
      assert items[0] in Distinct(items);
    }
  }

  /** Unigrams are the tokens themselves, so the distinct unigrams are the
      distinct words. */
  lemma DistinctUnigrams(words: seq<string>)
    ensures Distinct(NgramsOf(words, 1)) == Distinct(words)
  {
    var g := NgramsOf(words, 1);
    forall x | x in g ensures x in words {
      var i :| 0 <= i < |g| && g[i] == x;
      assert words[i..i + 1] == [words[i]];
      assert x == Join(words[i..i + 1]) == words[i];
    }
    forall x | x in words ensures x in g {
      var i :| 0 <= i < |words| && words[i] == x;
      assert words[i..i + 1] == [words[i]];
      assert g[i] == Join(words[i..i + 1]) == x;
    }
  }
}
