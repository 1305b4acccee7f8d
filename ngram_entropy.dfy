/**
 * utils/eval/ngram_entropy.py: one `collections.Counter` of n-grams per
 * order n = 1..max_n, filled from the `completion_only` field of every
 * line of a log, and the guards around the entropy computed from each.
 *
 * The base-2 logarithms are not modelled; the probabilities `count / total`
 * over which `compute_entropy` sums `-p * log2(p)` are, as exact reals.
 */
module NgramEntropy {
  import opened PyStrings
  import opened Ngrams
  import opened Records

  /** The `max_n` fixed in `main`. */
  const MaxN: nat := 5

  // ---------------------------------------------------------------------
  // collections.Counter
  // ---------------------------------------------------------------------

  /** A Counter of n-gram strings. */
  type Counter = map<string, nat>

  /** `c[k]`: a Counter answers 0 for a key it does not hold. */
  function Count(c: Counter, k: string): nat {
    if k in c then c[k] else 0
  }

  /** Every key held has a count of at least one; a Counter filled only by
      `update` with lists is always like this. */
  predicate Positive(c: Counter) {
    forall k :: k in c ==> c[k] >= 1
  }

  /** `c.update(items)` for a list: each item adds one to its key, left to
      right. */
  function Update(c: Counter, items: seq<string>): (r: Counter)
    ensures forall k :: Count(r, k) == Count(c, k) + multiset(items)[k]
    ensures r.Keys == c.Keys + Distinct(items)
    ensures Positive(c) ==> Positive(r)
    decreases |items|
  {
    if items == [] then c
    else
      assert items == [items[0]] + items[1..];
      Update(c[items[0] := Count(c, items[0]) + 1], items[1..])
  }

  /** Two Counters that hold only positive counts and agree on every key
      are the same map. */
  lemma CounterExtensionality(a: Counter, b: Counter)
    requires Positive(a) && Positive(b)
    requires forall k :: Count(a, k) == Count(b, k)
    ensures a == b
  {
    assert a.Keys == b.Keys by {
      forall k ensures k in a <==> k in b {
        assert Count(a, k) == Count(b, k);
      }
    }
    forall k | k in a ensures a[k] == b[k] {
      assert Count(a, k) == Count(b, k);
    }
  }

  /** Adding two Counters key by key. */
  function Merge(a: Counter, b: Counter): (r: Counter)
    ensures forall k :: Count(r, k) == Count(a, k) + Count(b, k)
    ensures Positive(a) && Positive(b) ==> Positive(r)
  {
    map k | k in a.Keys + b.Keys :: Count(a, k) + Count(b, k)
  }

  // ---------------------------------------------------------------------
  // Total mass of a Counter: sum(counter.values())
  // ---------------------------------------------------------------------

  ghost function Mass(c: Counter): nat
    decreases |c.Keys|
  {
    if c == map[] then 0
    else
      var k :| k in c;
      assert (c - {k}).Keys == c.Keys - {k};
      c[k] + Mass(c - {k})
  }

  /** The sum does not depend on which key is taken out first. */
  lemma {:induction false} MassRemove(c: Counter, k: string)
    requires k in c
    ensures Mass(c) == c[k] + Mass(c - {k})
    decreases |c.Keys|
  {
    var k' :| k' in c && Mass(c) == c[k'] + Mass(c - {k'});
    if k' != k {
      assert (c - {k'}).Keys == c.Keys - {k'};
      assert (c - {k}).Keys == c.Keys - {k};
      MassRemove(c - {k'}, k);
      MassRemove(c - {k}, k');
      assert c - {k'} - {k} == c - {k} - {k'};
    }
  }

  lemma MassIncrement(c: Counter, k: string)
    ensures Mass(c[k := Count(c, k) + 1]) == Mass(c) + 1
  {
    var c' := c[k := Count(c, k) + 1];
    MassRemove(c', k);
    if k in c {
      MassRemove(c, k);
      assert c' - {k} == c - {k};
    } else {
      assert c' - {k} == c;
    }
  }

  /** Each item given to `update` adds exactly one to the total. */
  lemma {:induction false} MassUpdate(c: Counter, items: seq<string>)
    ensures Mass(Update(c, items)) == Mass(c) + |items|
    decreases |items|
  {
    if items != [] {
      MassIncrement(c, items[0]);
      MassUpdate(c[items[0] := Count(c, items[0]) + 1], items[1..]);
    }
  }

  /** With every count at least one, there are no more keys than the total. */
  lemma {:induction false} KeysAtMostMass(c: Counter)
    requires Positive(c)
    ensures |c| <= Mass(c)
    decreases |c.Keys|
  {
    if c != map[] {
      var k :| k in c;
      MassRemove(c, k);
      assert (c - {k}).Keys == c.Keys - {k};
      KeysAtMostMass(c - {k});
    }
  }

  // ---------------------------------------------------------------------
  // The accumulation in main
  // ---------------------------------------------------------------------

  /** `data.get("completion_only", "")`. A Malformed line never gets here:
      `json.loads` raises on it first (see CountNgrams). */
  function CompletionOrEmpty(r: Record): string {
    match r
    case Text(s) => s
    case _ => ""
  }

  function Texts(records: seq<Record>): (texts: seq<string>)
    ensures |texts| == |records|
    ensures forall i :: 0 <= i < |records| ==> texts[i] == CompletionOrEmpty(records[i])
  {
    seq(|records|, i requires 0 <= i < |records| => CompletionOrEmpty(records[i]))
  }

  /** The Counter for order n after the texts have been added in turn. */
  function CorpusCount(texts: seq<string>, n: nat): (c: Counter)
    ensures Positive(c)
  {
    if texts == [] then map[]
    else Update(CorpusCount(texts[..|texts| - 1], n), GetNgrams(texts[|texts| - 1], n))
  }

  lemma CorpusCountStep(texts: seq<string>, text: string, n: nat)
    ensures CorpusCount(texts + [text], n) == Update(CorpusCount(texts, n), GetNgrams(text, n))
  {
    assert (texts + [text])[..|texts|] == texts;
  }

  /** Reference definition: the number of times `k` occurs among the
      n-grams of each text, summed over the texts. */
  function Occurrences(texts: seq<string>, n: nat, k: string): nat {
    if texts == [] then 0
    else Occurrences(texts[..|texts| - 1], n, k) + multiset(GetNgrams(texts[|texts| - 1], n))[k]
  }

  /** Reference definition: the number of n-grams of each text, summed. */
  function NgramTotal(texts: seq<string>, n: nat): nat {
    if texts == [] then 0
    else NgramTotal(texts[..|texts| - 1], n) + WindowCount(|Split(texts[|texts| - 1])|, n)
  }

  /** Additivity: the count of a key is its number of occurrences summed
      over all texts. */
  lemma {:induction false} CountIsOccurrences(texts: seq<string>, n: nat, k: string)
    ensures Count(CorpusCount(texts, n), k) == Occurrences(texts, n, k)
  {
    if texts != [] {
      CountIsOccurrences(texts[..|texts| - 1], n, k);
    }
  }

  /** The total mass of the Counter is the number of windows of every text. */
  lemma {:induction false} MassIsNgramTotal(texts: seq<string>, n: nat)
    ensures Mass(CorpusCount(texts, n)) == NgramTotal(texts, n)
  {
    if texts != [] {
      MassIsNgramTotal(texts[..|texts| - 1], n);
      MassUpdate(CorpusCount(texts[..|texts| - 1], n), GetNgrams(texts[|texts| - 1], n));
    }
  }

  /** Every key held has count at least one, and there are no more distinct
      keys than n-grams in all. */
  lemma CorpusCountBounds(texts: seq<string>, n: nat)
    ensures forall k :: k in CorpusCount(texts, n) ==> CorpusCount(texts, n)[k] >= 1
    ensures |CorpusCount(texts, n)| <= NgramTotal(texts, n)
  {
    KeysAtMostMass(CorpusCount(texts, n));
    MassIsNgramTotal(texts, n);
  }

  lemma {:induction false} OccurrencesAppend(xs: seq<string>, ys: seq<string>, n: nat, k: string)
    ensures Occurrences(xs + ys, n, k) == Occurrences(xs, n, k) + Occurrences(ys, n, k)
    decreases |ys|
  {
    if ys == [] {
      assert xs + ys == xs;
    } else {
      var zs := xs + ys;
      assert zs[..|zs| - 1] == xs + ys[..|ys| - 1];
      assert zs[|zs| - 1] == ys[|ys| - 1];
      OccurrencesAppend(xs, ys[..|ys| - 1], n, k);
    }
  }

  lemma OccurrencesSingle(x: string, n: nat, k: string)
    ensures Occurrences([x], n, k) == multiset(GetNgrams(x, n))[k]
  {
    assert [x][..0] == [];
  }

  lemma OccurrencesRemoveAt(ys: seq<string>, j: nat, n: nat, k: string)
    requires j < |ys|
    ensures Occurrences(ys, n, k) ==
            Occurrences(ys[..j] + ys[j + 1..], n, k) + multiset(GetNgrams(ys[j], n))[k]
  {
    var a, x, b := ys[..j], [ys[j]], ys[j + 1..];
    assert ys == a + (x + b);
    OccurrencesAppend(a, x + b, n, k);
    OccurrencesAppend(x, b, n, k);
    OccurrencesAppend(a, b, n, k);
    OccurrencesSingle(ys[j], n, k);
  }

  lemma MultisetRemoveAt(xs: seq<string>, ys: seq<string>, j: nat)
    requires xs != [] && multiset(xs) == multiset(ys)
    requires j < |ys| && ys[j] == xs[|xs| - 1]
    ensures multiset(xs[..|xs| - 1]) == multiset(ys[..j] + ys[j + 1..])
  {
    var x := xs[|xs| - 1];
    assert xs == xs[..|xs| - 1] + [x];
    assert ys == ys[..j] + [x] + ys[j + 1..];
    assert multiset(xs[..|xs| - 1]) == multiset(xs) - multiset{x};
    assert multiset(ys[..j] + ys[j + 1..]) == multiset(ys) - multiset{x};
  }

  /** The occurrences do not depend on the order of the texts. */
  lemma {:induction false} OccurrencesPermutation(xs: seq<string>, ys: seq<string>, n: nat, k: string)
    requires multiset(xs) == multiset(ys)
    ensures Occurrences(xs, n, k) == Occurrences(ys, n, k)
    decreases |xs|
  {
    if xs == [] {
      assert |ys| == |multiset(ys)| == 0;
    } else {
      var x := xs[|xs| - 1];
      assert x in multiset(ys);
      var j :| 0 <= j < |ys| && ys[j] == x;
      MultisetRemoveAt(xs, ys, j);
      OccurrencesPermutation(xs[..|xs| - 1], ys[..j] + ys[j + 1..], n, k);
      OccurrencesRemoveAt(ys, j, n, k);
    }
  }

  /** Counting two parts of a collection separately and adding the Counters
      key by key gives the Counter of the whole collection. */
  lemma CorpusCountPartition(xs: seq<string>, ys: seq<string>, n: nat)
    ensures CorpusCount(xs + ys, n) == Merge(CorpusCount(xs, n), CorpusCount(ys, n))
  {
    var whole, merged := CorpusCount(xs + ys, n), Merge(CorpusCount(xs, n), CorpusCount(ys, n));
    forall k ensures Count(whole, k) == Count(merged, k) {
      CountIsOccurrences(xs + ys, n, k);
      CountIsOccurrences(xs, n, k);
      CountIsOccurrences(ys, n, k);
      OccurrencesAppend(xs, ys, n, k);
    }
    CounterExtensionality(whole, merged);
  }

  /** The final Counters do not depend on the order of the records. */
  lemma CorpusCountOrderFree(xs: seq<string>, ys: seq<string>, n: nat)
    requires multiset(xs) == multiset(ys)
    ensures CorpusCount(xs, n) == CorpusCount(ys, n)
  {
    forall k ensures Count(CorpusCount(xs, n), k) == Count(CorpusCount(ys, n), k) {
      CountIsOccurrences(xs, n, k);
      CountIsOccurrences(ys, n, k);
      OccurrencesPermutation(xs, ys, n, k);
    }
    CounterExtensionality(CorpusCount(xs, n), CorpusCount(ys, n));
  }

  /** A record without `completion_only` contributes `""`, which has no
      n-grams of order n >= 1: every Counter stays as it was. */
  lemma NoFieldLeavesCounters(records: seq<Record>, n: nat)
    requires n >= 1
    ensures CorpusCount(Texts(records + [NoField]), n) == CorpusCount(Texts(records), n)
  {
    var texts := Texts(records + [NoField]);
    assert texts[..|texts| - 1] == Texts(records);
    assert texts[|texts| - 1] == "";
    assert GetNgrams("", n) == [];
  }

  lemma {:induction false} OccurrencesAtLeast(texts: seq<string>, n: nat, k: string, i: nat)
    requires i < |texts|
    ensures Occurrences(texts, n, k) >= multiset(GetNgrams(texts[i], n))[k]
  {
    if i < |texts| - 1 {
      OccurrencesAtLeast(texts[..|texts| - 1], n, k, i);
    }
  }

  /** A Counter ends up empty exactly when no text has `n` words. */
  lemma CorpusCountEmptyIff(texts: seq<string>, n: nat)
    ensures CorpusCount(texts, n) == map[] <==>
            forall i :: 0 <= i < |texts| ==> |Split(texts[i])| < n
  {
    var c := CorpusCount(texts, n);
    if exists i :: 0 <= i < |texts| && |Split(texts[i])| >= n {
      var i :| 0 <= i < |texts| && |Split(texts[i])| >= n;
      var k := GetNgrams(texts[i], n)[0];
      OccurrencesAtLeast(texts, n, k, i);
      CountIsOccurrences(texts, n, k);
      assert k in c;
    } else {
      forall k ensures Count(c, k) == 0 {
        CountIsOccurrences(texts, n, k);
        OccurrencesVanish(texts, n, k);
      }
      forall k ensures k !in c {
        assert Count(c, k) == 0;
      }
      assert c.Keys == {};
    }
  }

  lemma {:induction false} OccurrencesVanish(texts: seq<string>, n: nat, k: string)
    requires forall i :: 0 <= i < |texts| ==> |Split(texts[i])| < n
    ensures Occurrences(texts, n, k) == 0
  {
    if texts != [] {
      OccurrencesVanish(texts[..|texts| - 1], n, k);
      assert GetNgrams(texts[|texts| - 1], n) == [];
    }
  }

  /** The outcome of the counting loop in main. */
  datatype Counting =
    | Aborted(line: nat)                   // json.loads raised on this line
    | Counted(counters: map<nat, Counter>) // ngram_counters after the loop

  predicate Undecodable(records: seq<Record>, i: int) {
    0 <= i < |records| && records[i].Malformed?
  }

  /** The loop of main (lines 33-41): `ngram_counters[n].update(get_ngrams(text, n))`
      for every line and every n in 1..maxN. A line that does not decode
      ends the run with the decoder's exception, which is not caught. */
  method CountNgrams(records: seq<Record>, maxN: nat := MaxN) returns (result: Counting)
    ensures result.Aborted? <==> exists i :: Undecodable(records, i)
    ensures result.Aborted? ==>
      Undecodable(records, result.line) && forall j :: 0 <= j < result.line ==> !Undecodable(records, j)
    ensures result.Counted? ==> result.counters.Keys == Orders(1, maxN)
    ensures result.Counted? ==> forall n: nat :: 1 <= n <= maxN ==>
      result.counters[n] == CorpusCount(Texts(records), n)
  {
    var counters: map<nat, Counter> := map n | n in Orders(1, maxN) :: map[];
    ghost var texts := Texts(records);
    var i := 0;
    assert counters == CountTable(texts[..0], maxN);
    while i < |records|
      invariant 0 <= i <= |records|
      invariant forall j :: 0 <= j < i ==> !Undecodable(records, j)
      invariant counters == CountTable(texts[..i], maxN)
    {
      if records[i].Malformed? {
        assert Undecodable(records, i);
        return Aborted(i);
      }
      var text := CompletionOrEmpty(records[i]);
      assert texts[..i + 1] == texts[..i] + [text];
      counters := AddText(counters, text, maxN, texts[..i]);
      i := i + 1;
    }
    assert texts[..i] == texts;
    return Counted(counters);
  }

  /** Lines 39-41 for one text: its n-grams of every order are added to
      that order's Counter. */
  method AddText(counters: map<nat, Counter>, text: string, maxN: nat, ghost before: seq<string>)
    returns (updated: map<nat, Counter>)
    requires counters == CountTable(before, maxN)
    ensures updated == CountTable(before + [text], maxN)
  {
    TableOfCounts(before, maxN);
    updated := counters;
    var n: nat := 1;
    while n <= maxN
      invariant 1 <= n <= maxN + 1
      invariant Table(updated, before + [text], before, n, maxN)
    {
      TableStep(updated, before, text, n, maxN);
      updated := updated[n := Update(updated[n], GetNgrams(text, n))];
      n := n + 1;
    }
    TableDone(updated, before + [text], before, maxN);
    CountsOfTable(updated, before + [text], maxN);
  }

  /** The Counters of every order once the texts have been added. */
  ghost function CountTable(texts: seq<string>, maxN: nat): map<nat, Counter> {
    map m | m in Orders(1, maxN) :: CorpusCount(texts, m)
  }

  lemma TableOfCounts(texts: seq<string>, maxN: nat)
    ensures Table(CountTable(texts, maxN), texts, texts, 1, maxN)
  {
  }

  lemma CountsOfTable(counters: map<nat, Counter>, texts: seq<string>, maxN: nat)
    requires Table(counters, texts, texts, 1, maxN)
    ensures counters == CountTable(texts, maxN)
  {
  }

  /** The Counters while line `|after| - 1` is being added: orders below `n`
      already hold it, the others do not yet. */
  ghost predicate Table(counters: map<nat, Counter>, after: seq<string>, before: seq<string>, n: nat, maxN: nat) {
    && counters.Keys == Orders(1, maxN)
    && forall m :: m in counters ==>
         counters[m] == if m < n then CorpusCount(after, m) else CorpusCount(before, m)
  }

  lemma TableDone(counters: map<nat, Counter>, after: seq<string>, before: seq<string>, maxN: nat)
    requires Table(counters, after, before, maxN + 1, maxN)
    ensures Table(counters, after, after, 1, maxN)
  {
  }

  lemma TableStep(counters: map<nat, Counter>, before: seq<string>, text: string, n: nat, maxN: nat)
    requires 1 <= n <= maxN
    requires Table(counters, before + [text], before, n, maxN)
    ensures Table(counters[n := Update(counters[n], GetNgrams(text, n))], before + [text], before, n + 1, maxN)
  {
    CorpusCountStep(before, text, n);
    var c := counters[n := Update(counters[n], GetNgrams(text, n))];
    assert c.Keys == counters.Keys;
  }

  // ---------------------------------------------------------------------
  // compute_entropy and the guards of main
  // ---------------------------------------------------------------------

  function SumReals(xs: seq<real>): real {
    if xs == [] then 0.0 else SumReals(xs[..|xs| - 1]) + xs[|xs| - 1]
  }

  /** `keys` lists every key of `c` exactly once. */
  predicate Enumerates(c: Counter, keys: seq<string>) {
    && |keys| == |c|
    && (forall j :: 0 <= j < |keys| ==> keys[j] in c)
    && (forall k :: k in c ==> k in keys)
    && (forall i, j :: 0 <= i < j < |keys| ==> keys[i] != keys[j])
  }

  /** The keys of a Counter, in the order iteration visits them. */
  method KeysOf(c: Counter) returns (keys: seq<string>)
    ensures Enumerates(c, keys)
  {
    keys := [];
    var rest := c;
    while rest != map[]
      invariant forall k :: k in rest ==> k in c
      invariant forall k :: k in c ==> (k in rest <==> k !in keys)
      invariant forall j :: 0 <= j < |keys| ==> keys[j] in c
      invariant forall i, j :: 0 <= i < j < |keys| ==> keys[i] != keys[j]
      invariant |keys| + |rest| == |c|
      decreases |rest.Keys|
    {
      var k :| k in rest;
      assert (rest - {k}).Keys == rest.Keys - {k};
      keys, rest := keys + [k], rest - {k};
    }
  }

  /** The counts of the listed keys, summed in list order. */
  ghost function KeySum(c: Counter, keys: seq<string>): nat {
    if keys == [] then 0 else KeySum(c, keys[..|keys| - 1]) + Count(c, keys[|keys| - 1])
  }

  lemma {:induction false} KeySumAgree(c: Counter, d: Counter, keys: seq<string>)
    requires forall j :: 0 <= j < |keys| ==> Count(c, keys[j]) == Count(d, keys[j])
    ensures KeySum(c, keys) == KeySum(d, keys)
  {
    if keys != [] {
      KeySumAgree(c, d, keys[..|keys| - 1]);
    }
  }

  /** Summing the counts along any enumeration of the keys gives the mass. */
  lemma {:induction false} MassIsKeySum(c: Counter, keys: seq<string>)
    requires Enumerates(c, keys)
    ensures Mass(c) == KeySum(c, keys)
    decreases |keys|
  {
    if keys == [] {
      assert c.Keys == {} by {
        forall k | k in c ensures k in keys {}
      }
    } else {
      var k, front := keys[|keys| - 1], keys[..|keys| - 1];
      var c' := c - {k};
      assert c'.Keys == c.Keys - {k};
      forall k' | k' in c' ensures k' in front {
        var j :| 0 <= j < |keys| && keys[j] == k';
        assert j != |keys| - 1;
        assert front[j] == k';
      }
      forall j | 0 <= j < |front| ensures front[j] in c' {
        assert front[j] == keys[j] != k;
      }
      MassIsKeySum(c', front);
      forall j | 0 <= j < |front| ensures Count(c', front[j]) == Count(c, front[j]) {
        assert front[j] == keys[j] != k;
      }
      KeySumAgree(c', c, front);
      MassRemove(c, k);
    }
  }

  /** A single count is never more than the total. */
  lemma MassAtLeast(c: Counter, k: string)
    requires k in c
    ensures c[k] <= Mass(c)
  {
    MassRemove(c, k);
  }

  /** `sum(counter.values())`, visiting the keys in the order given. */
  method SumCounts(c: Counter, keys: seq<string>) returns (total: nat)
    requires Enumerates(c, keys)
    ensures total == Mass(c)
  {
    total := 0;
    for i := 0 to |keys|
      invariant total == KeySum(c, keys[..i])
    {
      assert keys[..i + 1][..i] == keys[..i];
      total := total + c[keys[i]];
    }
    assert keys[..|keys|] == keys;
    MassIsKeySum(c, keys);
  }

  lemma ShareBounds(count: nat, total: nat)
    requires 0 < count <= total
    ensures 0.0 < count as real / total as real <= 1.0
  {
  }

  /** Shares of one total add up like their counts. */
  lemma DivAdd(a: real, b: real, t: real)
    requires t != 0.0
    ensures a / t + b / t == (a + b) / t
  {
    var x, y := a / t, b / t;
    assert x * t == a && y * t == b;
    assert (x + y) * t == a + b;
  }

  lemma SumRealsAppend(xs: seq<real>, x: real)
    ensures SumReals(xs + [x]) == SumReals(xs) + x
  {
    assert (xs + [x])[..|xs|] == xs;
  }

  /** A whole divided by itself. */
  lemma DivSelf(t: real)
    requires t != 0.0
    ensures t / t == 1.0
  {
  }

  /** `count / total` for every listed key, in list order. */
  ghost function Shares(c: Counter, keys: seq<string>, total: nat): (r: seq<real>)
    requires total > 0
    ensures |r| == |keys|
    ensures forall j :: 0 <= j < |keys| ==> r[j] == Count(c, keys[j]) as real / total as real
  {
    if keys == [] then []
    else Shares(c, keys[..|keys| - 1], total) + [Count(c, keys[|keys| - 1]) as real / total as real]
  }

  /** The shares add up like the counts they come from. */
  lemma {:induction false} SumShares(c: Counter, keys: seq<string>, total: nat)
    requires total > 0
    ensures SumReals(Shares(c, keys, total)) == KeySum(c, keys) as real / total as real
  {
    var t := total as real;
    if keys == [] {
      assert 0.0 / t == 0.0;
    } else {
      var front, k := keys[..|keys| - 1], keys[|keys| - 1];
      var xs := Shares(c, front, total);
      SumShares(c, front, total);
      var d, n := KeySum(c, front) as real, Count(c, k) as real;
      SumRealsAppend(xs, n / t);
      DivAdd(d, n, t);
      assert (KeySum(c, front) + Count(c, k)) as real == d + n;
    }
  }

  /** The loop of compute_entropy (lines 13-17): `total = sum(counter.values())`,
      then `p = count / total` for every count, over which the source sums
      `-p * log2(p)`. `order` is the order in which the keys are visited.
      For an empty Counter no iteration runs, so no division by `total = 0`
      happens; otherwise every p lies in (0, 1], so `log2(p)` is defined, and
      the p sum to 1. */
  method ProbabilityTerms(counter: Counter) returns (ps: seq<real>, order: seq<string>)
    requires Positive(counter)
    ensures Enumerates(counter, order) && |ps| == |order|
    ensures forall j :: 0 <= j < |ps| ==> ps[j] == counter[order[j]] as real / Mass(counter) as real
    ensures forall j :: 0 <= j < |ps| ==> 0.0 < ps[j] <= 1.0
    ensures counter != map[] ==> SumReals(ps) == 1.0
  {
    order := KeysOf(counter);
    var total := SumCounts(counter, order);
    ps := [];
    if order == [] {
      return;
    }
    MassAtLeast(counter, order[0]);
    for i := 0 to |order|
      invariant ps == Shares(counter, order[..i], total)
    {
      assert order[..i + 1][..i] == order[..i];
      ps := ps + [counter[order[i]] as real / total as real];
    }
    assert order[..|order|] == order;
    SharesAreProbabilities(counter, order);
  }

  /** Over an enumeration of a non-empty Counter, every share lies in
      (0, 1] and the shares sum to 1. */
  lemma SharesAreProbabilities(c: Counter, keys: seq<string>)
    requires Positive(c) && Enumerates(c, keys) && keys != []
    ensures Mass(c) > 0
    ensures forall j :: 0 <= j < |keys| ==> 0.0 < Shares(c, keys, Mass(c))[j] <= 1.0
    ensures SumReals(Shares(c, keys, Mass(c))) == 1.0
  {
    MassAtLeast(c, keys[0]);
    var total := Mass(c);
    forall j | 0 <= j < |keys| ensures 0.0 < Shares(c, keys, total)[j] <= 1.0 {
      MassAtLeast(c, keys[j]);
      ShareBounds(c[keys[j]], total);
    }
    SumShares(c, keys, total);
    MassIsKeySum(c, keys);
    DivSelf(total as real);
  }

  /** `math.log(len(c), 2) if len(c) > 0 else 0`, kept symbolic. */
  datatype MaxEntropy = ZeroMax | Log2Of(keys: nat)

  /** `max_possible > 0`: log2 of a whole number k >= 1 is positive exactly
      when k >= 2. */
  predicate IsPositive(m: MaxEntropy) {
    m.Log2Of? && m.keys >= 2
  }

  /** `entropy / max_possible if max_possible > 0 else 0`, kept symbolic. */
  datatype NormalizedEntropy = ZeroNormalized | EntropyOverLog2Of(keys: nat)

  function MaxPossible(c: Counter): (m: MaxEntropy)
    ensures m == ZeroMax <==> c == map[]
    ensures m.Log2Of? ==> m.keys == |c| >= 1
  {
    if |c| > 0 then Log2Of(|c|) else ZeroMax
  }

  function Normalized(c: Counter): (r: NormalizedEntropy)
    ensures r == ZeroNormalized <==> |c| <= 1
    ensures r.EntropyOverLog2Of? ==> r.keys == |c| >= 2
  {
    var m := MaxPossible(c);
    if IsPositive(m) then EntropyOverLog2Of(m.keys) else ZeroNormalized
  }

  /** For an order n at which no text has n words, main reports a maximum and
      a normalized entropy of 0. */
  lemma ShortCorpusReportsZero(texts: seq<string>, n: nat)
    requires forall i :: 0 <= i < |texts| ==> |Split(texts[i])| < n
    ensures MaxPossible(CorpusCount(texts, n)) == ZeroMax
    ensures Normalized(CorpusCount(texts, n)) == ZeroNormalized
  {
    CorpusCountEmptyIff(texts, n);
  }
}
