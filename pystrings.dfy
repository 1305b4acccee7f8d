/**
 * The handful of Python `str` operations the analysis and page-generation
 * scripts rely on: `split()` with no argument, `' '.join`, `replace`, the
 * `in` substring test, `endswith`, `lower()` and `str(bool)`.
 *
 * Python's whitespace set and case mapping are Unicode-aware; this module
 * uses their ASCII part (see IsSpace and LowerChar).
 */
module PyStrings {

  // ---------------------------------------------------------------------
  // Whitespace tokenisation: str.split() and ' '.join
  // ---------------------------------------------------------------------

  /** The ASCII characters for which Python's str.isspace() holds:
      space, \t \n \v \f \r (9..13) and the separators 0x1c..0x1f. */
  predicate IsSpace(c: char) {
    c == ' ' || 9 <= c as int <= 13 || 28 <= c as int <= 31
  }

  /** A token of str.split(): non-empty and free of whitespace. */
  predicate IsToken(w: string) {
    |w| > 0 && forall i :: 0 <= i < |w| ==> !IsSpace(w[i])
  }

  predicate AllTokens(ws: seq<string>) {
    forall i :: 0 <= i < |ws| ==> IsToken(ws[i])
  }

  /** The longest prefix of `s` that holds no whitespace. */
  function LeadingWord(s: string): (w: string)
    ensures |w| <= |s| && w == s[..|w|]
    ensures forall i :: 0 <= i < |w| ==> !IsSpace(w[i])
    ensures |w| < |s| ==> IsSpace(s[|w|])
  {
    if s == [] || IsSpace(s[0]) then [] else [s[0]] + LeadingWord(s[1..])
  }

  /** Python's `s.split()`: runs of whitespace separate tokens, and the
      empty strings before, between and after such runs are dropped.
      What it returns is pinned down by `SplitEmptyIff` (no tokens exactly
      when `s` is all whitespace), `SplitSkipsSpace` (leading
      whitespace is dropped), `LeadingWordOfToken` (a token followed by
      whitespace or the end is read back whole) and `SplitJoin` (splitting
      a space-joined token list gives the list back). */
  function Split(s: string): (ws: seq<string>)
    ensures AllTokens(ws)
    decreases |s|
  {
    if s == [] then []
    else if IsSpace(s[0]) then Split(s[1..])
    else
      var w := LeadingWord(s);
      [w] + Split(s[|w|..])
  }

  /** `s.split()` is empty exactly when `s` is all whitespace. */
  lemma {:induction false} SplitEmptyIff(s: string)
    ensures Split(s) == [] <==> forall i :: 0 <= i < |s| ==> IsSpace(s[i])
    decreases |s|
  {
    if s != [] && IsSpace(s[0]) {
      SplitEmptyIff(s[1..]);
      forall i | 1 <= i < |s|
        ensures s[i] == s[1..][i - 1]
      {
      }
    }
  }

  /** Python's `' '.join(ws)`. */
  function Join(ws: seq<string>): string {
    if ws == [] then ""
    else if |ws| == 1 then ws[0]
    else ws[0] + " " + Join(ws[1..])
  }

  lemma {:induction false} LeadingWordOfToken(w: string, rest: string)
    requires IsToken(w)
    requires rest == [] || IsSpace(rest[0])
    ensures LeadingWord(w + rest) == w
    decreases |w|
  {
    var s := w + rest;
    assert s[0] == w[0];
    if |w| > 1 {
      assert s[1..] == w[1..] + rest;
      LeadingWordOfToken(w[1..], rest);
    } else {
      assert s[1..] == rest;
    }
  }

  /** Splitting a string that starts with whitespace skips that character. */
  lemma SplitSkipsSpace(c: char, s: string)
    requires IsSpace(c)
    ensures Split([c] + s) == Split(s)
  {
    assert ([c] + s)[1..] == s;
  }

  /** Round trip: splitting the space-joined form of a token list gives the
      list back. */
  lemma {:induction false} SplitJoin(ws: seq<string>)
    requires AllTokens(ws)
    ensures Split(Join(ws)) == ws
    decreases |ws|
  {
    if ws == [] {
    } else if |ws| == 1 {
      var w := ws[0];
      LeadingWordOfToken(w, []);
      assert w + [] == w;
      assert w[|w|..] == [];
    } else {
      var w, rest := ws[0], " " + Join(ws[1..]);
      var s := w + rest;
      assert Join(ws) == s;
      LeadingWordOfToken(w, rest);
      assert s[0] == w[0];
      assert s[|w|..] == rest;
      SplitSkipsSpace(' ', Join(ws[1..]));
      SplitJoin(ws[1..]);
      assert Split(s) == [w] + Split(rest);
    }
  }

  /** Every token takes at least one character and consecutive tokens are
      separated by at least one more, so a string of `k` characters splits
      into at most `(k + 1) / 2` tokens. */
  lemma {:induction false} SplitBound(s: string)
    ensures 2 * |Split(s)| <= |s| + 1
    decreases |s|
  {
    if s == [] {
    } else if IsSpace(s[0]) {
      SplitBound(s[1..]);
    } else {
      var w := LeadingWord(s);
      var rest := s[|w|..];
      if rest != [] {
        assert IsSpace(rest[0]);
        assert rest == [rest[0]] + rest[1..];
        SplitSkipsSpace(rest[0], rest[1..]);
        SplitBound(rest[1..]);
      }
    }
  }

  /** Space-joining is injective on token lists: two joined forms are equal
      exactly when the token lists are. */
  lemma JoinInjective(u: seq<string>, v: seq<string>)
    requires AllTokens(u) && AllTokens(v)
    ensures Join(u) == Join(v) <==> u == v
  {
    if Join(u) == Join(v) {
      SplitJoin(u);
      SplitJoin(v);
    }
  }

  // ---------------------------------------------------------------------
  // Substring tests: `p in s`, s.startswith(p), s.endswith(p)
  // ---------------------------------------------------------------------

  predicate StartsWith(s: string, p: string) {
    |p| <= |s| && s[..|p|] == p
  }

  predicate EndsWith(s: string, p: string) {
    |p| <= |s| && s[|s| - |p|..] == p
  }

  /** Python's `p in s`, scanning from the left. */
  predicate Contains(s: string, p: string)
    decreases |s|
  {
    StartsWith(s, p) || (s != [] && Contains(s[1..], p))
  }

  /** `p` occurs in `s` at position `i`. */
  predicate OccursAt(s: string, p: string, i: int) {
    0 <= i && i + |p| <= |s| && s[i..i + |p|] == p
  }

  /** The scanning test agrees with the positional definition of an
      occurrence, in both directions. */
  lemma {:induction false} ContainsIffOccurs(s: string, p: string)
    ensures Contains(s, p) <==> exists i :: OccursAt(s, p, i)
    decreases |s|
  {
    if StartsWith(s, p) {
      assert OccursAt(s, p, 0);
    } else if s == [] {
    } else {
      ContainsIffOccurs(s[1..], p);
      if exists i :: OccursAt(s[1..], p, i) {
        var i :| OccursAt(s[1..], p, i);
        assert s[i + 1..i + 1 + |p|] == s[1..][i..i + |p|];
        assert OccursAt(s, p, i + 1);
      }
      if exists i :: OccursAt(s, p, i) {
        var i :| OccursAt(s, p, i);
        assert i != 0;
        assert s[1..][i - 1..i - 1 + |p|] == s[i..i + |p|];
        assert OccursAt(s[1..], p, i - 1);
      }
    }
  }

  /** Whatever surrounds an occurrence, the string contains it. */
  lemma ContainsInfix(a: string, p: string, b: string)
    ensures Contains(a + p + b, p)
  {
    var s := a + p + b;
    assert s[|a|..|a| + |p|] == p;
    assert OccursAt(s, p, |a|);
    ContainsIffOccurs(s, p);
  }

  /** A string lacking some character of `p` does not contain `p`. */
  lemma ContainsNeedsChar(s: string, p: string, c: char)
    requires c in p && c !in s
    ensures !Contains(s, p)
  {
    var j :| 0 <= j < |p| && p[j] == c;
    ContainsIffOccurs(s, p);
    if i :| OccursAt(s, p, i) {
      OccurrenceChar(s, p, i, j);
    }
  }

  lemma OccurrenceChar(s: string, p: string, i: int, j: int)
    requires OccursAt(s, p, i) && 0 <= j < |p|
    ensures s[i + j] == p[j]
  {
    assert s[i..i + |p|][j] == s[i + j];
  }

  /** Text added on either side keeps an occurrence. */
  lemma ContainsWiden(a: string, s: string, b: string, p: string)
    requires Contains(s, p)
    ensures Contains(a + s + b, p)
  {
    ContainsIffOccurs(s, p);
    var i :| OccursAt(s, p, i);
    var t := a + s + b;
    assert t[|a| + i..|a| + i + |p|] == s[i..i + |p|];
    assert OccursAt(t, p, |a| + i);
    ContainsIffOccurs(t, p);
  }

  /** The pieces of a text, concatenated in order. */
  function Concat(pieces: seq<string>): string {
    if pieces == [] then [] else Concat(pieces[..|pieces| - 1]) + pieces[|pieces| - 1]
  }

  lemma {:induction false} ConcatSplit(xs: seq<string>, ys: seq<string>)
    ensures Concat(xs + ys) == Concat(xs) + Concat(ys)
    decreases |ys|
  {
    if ys == [] {
      assert xs + ys == xs;
    } else {
      var front := ys[..|ys| - 1];
      assert (xs + ys)[..|xs + ys| - 1] == xs + front;
      ConcatSplit(xs, front);
    }
  }

  /** Every piece occurs in the concatenation. */
  lemma ConcatContains(pieces: seq<string>, k: nat)
    requires k < |pieces|
    ensures Contains(Concat(pieces), pieces[k])
  {
    var front, back := pieces[..k], pieces[k + 1..];
    assert pieces == front + [pieces[k]] + back;
    ConcatSplit(front + [pieces[k]], back);
    ConcatSplit(front, [pieces[k]]);
    assert Concat([pieces[k]]) == pieces[k] by {
      assert [pieces[k]][..0] == [];
    }
    assert StartsWith(pieces[k], pieces[k]);
    ContainsWiden(Concat(front), pieces[k], Concat(back), pieces[k]);
  }

  // ---------------------------------------------------------------------
  // str.lower() and str(bool)
  // ---------------------------------------------------------------------

  /** ASCII case folding: 'A'..'Z' to 'a'..'z', everything else unchanged. */
  function LowerChar(c: char): char {
    if 'A' <= c <= 'Z' then (c as int + 32) as char else c
  }

  /** Python's `s.lower()`, restricted to ASCII letters. */
  function Lower(s: string): (r: string)
    ensures |r| == |s|
    ensures forall i :: 0 <= i < |s| ==> r[i] == LowerChar(s[i])
  {
    if s == [] then [] else [LowerChar(s[0])] + Lower(s[1..])
  }

  /** A string without capitals is its own lowercase form. */
  lemma LowerOfLower(s: string)
    requires forall i :: 0 <= i < |s| ==> !('A' <= s[i] <= 'Z')
    ensures Lower(s) == s
  {
  }

  lemma {:induction false} LowerConcat(a: string, b: string)
    ensures Lower(a + b) == Lower(a) + Lower(b)
    decreases |a|
  {
    if a == [] {
      assert a + b == b;
    } else {
      assert (a + b)[1..] == a[1..] + b;
      LowerConcat(a[1..], b);
    }
  }

  /** Python's `str(b)` for a bool. */
  function BoolStr(b: bool): string {
    if b then "True" else "False"
  }

  // ---------------------------------------------------------------------
  // str.replace(old, new)
  // ---------------------------------------------------------------------

  /** Python's `s.replace("", rep)`: `rep` before every character and at
      the end. */
  function InsertEverywhere(s: string, rep: string): (r: string)
    ensures |r| == |s| + (|s| + 1) * |rep|
  {
    if s == [] then rep else rep + [s[0]] + InsertEverywhere(s[1..], rep)
  }

  /** What `InsertEverywhere` makes: with `k` the length of `rep` plus one,
      character `i` of `s` sits at `i * k + |rep|`, and a copy of `rep`
      starts at every `i * k`, after the last character included. */
  lemma InsertEverywhereContents(s: string, rep: string)
    ensures var r, k := InsertEverywhere(s, rep), |rep| + 1;
      forall i :: 0 <= i < |s| ==> i * k + |rep| < |r| && r[i * k + |rep|] == s[i]
    ensures var r, k := InsertEverywhere(s, rep), |rep| + 1;
      forall i :: 0 <= i <= |s| ==> i * k + |rep| <= |r| && r[i * k .. i * k + |rep|] == rep
  {
    forall i | 0 <= i <= |s|
      ensures var r, k := InsertEverywhere(s, rep), |rep| + 1;
        i * k + |rep| <= |r| && r[i * k .. i * k + |rep|] == rep
      ensures var r, k := InsertEverywhere(s, rep), |rep| + 1;
        i < |s| ==> r[i * k + |rep|] == s[i]
    {
      SlotIsProduct(i, |rep| + 1);
      InsertedAt(s, rep, i, i * (|rep| + 1));
    }
  }

  /** `i * k`, written as repeated addition. */
  function Slot(i: nat, k: nat): nat {
    if i == 0 then 0 else k + Slot(i - 1, k)
  }

  lemma {:induction false} SlotIsProduct(i: nat, k: nat)
    ensures Slot(i, k) == i * k
  {
    if i > 0 {
      SlotIsProduct(i - 1, k);
      assert i * k == k + (i - 1) * k;
    }
  }

  /** One slot of `InsertEverywhere`: the copy of `rep` at position `p`,
      the `i`-th slot, and the character of `s` right after it. */
  lemma {:induction false} InsertedAt(s: string, rep: string, i: nat, p: nat)
    requires i <= |s| && p == Slot(i, |rep| + 1)
    ensures var r := InsertEverywhere(s, rep);
      p + |rep| <= |r| && r[p .. p + |rep|] == rep
      && (i < |s| ==> p + |rep| < |r| && r[p + |rep|] == s[i])
    decreases i
  {
    var r := InsertEverywhere(s, rep);
    if s != [] {
      var tail := InsertEverywhere(s[1..], rep);
      var k := |rep| + 1;
      assert r == (rep + [s[0]]) + tail;
      if i > 0 {
        InsertedAt(s[1..], rep, i - 1, p - k);
        assert r[p .. p + |rep|] == tail[p - k .. p - k + |rep|];
        if i < |s| {
          assert r[p + |rep|] == tail[p - k + |rep|];
          assert s[1..][i - 1] == s[i];
        }
      }
    }
  }

  /** Python's `s.replace(pat, rep)`: every non-overlapping occurrence of
      `pat`, found scanning from the left, is replaced by `rep`. */
  function Replace(s: string, pat: string, rep: string): string
    decreases |s|
  {
    if pat == [] then InsertEverywhere(s, rep)
    else if |s| < |pat| then s
    else if s[..|pat|] == pat then rep + Replace(s[|pat|..], pat, rep)
    else [s[0]] + Replace(s[1..], pat, rep)
  }

  /** Nothing to replace: the string comes back unchanged. */
  lemma {:induction false} ReplaceAbsent(s: string, pat: string, rep: string)
    requires |pat| > 0
    requires !Contains(s, pat)
    ensures Replace(s, pat, rep) == s
    decreases |s|
  {
    if |s| >= |pat| {
      ReplaceAbsent(s[1..], pat, rep);
      assert s == [s[0]] + s[1..];
    }
  }

  /** Every character of the result comes from the input or from `rep`. */
  lemma {:induction false} ReplaceChars(s: string, pat: string, rep: string, c: char)
    requires |pat| > 0
    requires c in Replace(s, pat, rep)
    ensures c in s || c in rep
    decreases |s|
  {
    if |s| < |pat| {
    } else if s[..|pat|] == pat {
      if c !in rep {
        ReplaceChars(s[|pat|..], pat, rep, c);
      }
    } else {
      if c != s[0] {
        ReplaceChars(s[1..], pat, rep, c);
      }
    }
  }

  /** A character in neither the input nor the replacement is not in the
      result. */
  lemma ReplaceKeepsAbsent(s: string, pat: string, rep: string, c: char)
    requires |pat| > 0 && c !in s && c !in rep
    ensures c !in Replace(s, pat, rep)
  {
    if c in Replace(s, pat, rep) {
      ReplaceChars(s, pat, rep, c);
    }
  }

  /** Replacing by something no longer than the pattern never lengthens. */
  lemma {:induction false} ReplaceNoLonger(s: string, pat: string, rep: string)
    requires |pat| > 0 && |rep| <= |pat|
    ensures |Replace(s, pat, rep)| <= |s|
    decreases |s|
  {
    if |s| < |pat| {
    } else if s[..|pat|] == pat {
      ReplaceNoLonger(s[|pat|..], pat, rep);
    } else {
      ReplaceNoLonger(s[1..], pat, rep);
    }
  }

  /** A one-character pattern replaced by one character: the length is kept
      and exactly the positions that held the pattern change. */
  lemma {:induction false} ReplaceCharPointwise(s: string, a: char, b: char)
    ensures |Replace(s, [a], [b])| == |s|
    ensures forall i :: 0 <= i < |s| ==>
      Replace(s, [a], [b])[i] == if s[i] == a then b else s[i]
    decreases |s|
  {
    if s != [] {
      ReplaceCharPointwise(s[1..], a, b);
      assert s[..1] == [s[0]];
      var r := Replace(s, [a], [b]);
      assert r == [if s[0] == a then b else s[0]] + Replace(s[1..], [a], [b]);
      forall i | 0 <= i < |s|
        ensures r[i] == if s[i] == a then b else s[i]
      {
        if i > 0 {
          assert s[i] == s[1..][i - 1];
        }
      }
    }
  }

  /** Replacing a character by a different one leaves none of it. */
  lemma ReplaceCharRemoves(s: string, a: char, b: char)
    requires a != b
    ensures a !in Replace(s, [a], [b])
  {
    ReplaceCharPointwise(s, a, b);
  }

  /** A character-for-character replacement works on the two halves of a
      string independently. */
  lemma ReplaceCharConcat(s: string, t: string, a: char, b: char)
    ensures Replace(s + t, [a], [b]) == Replace(s, [a], [b]) + Replace(t, [a], [b])
  {
    ReplaceCharPointwise(s + t, a, b);
    ReplaceCharPointwise(s, a, b);
    ReplaceCharPointwise(t, a, b);
    var l, r := Replace(s + t, [a], [b]), Replace(s, [a], [b]) + Replace(t, [a], [b]);
    forall i | 0 <= i < |s + t| ensures l[i] == r[i] {
      if i < |s| {
        assert (s + t)[i] == s[i];
      } else {
        assert (s + t)[i] == t[i - |s|];
      }
    }
  }

  /** A string without the replaced character comes back unchanged. */
  lemma ReplaceCharAbsent(s: string, a: char, b: char)
    requires a !in s
    ensures Replace(s, [a], [b]) == s
  {
    ReplaceCharPointwise(s, a, b);
  }

  /** A prefix that does not hold the first character of the pattern is
      copied as it is. */
  lemma {:induction false} ReplaceSkipsPrefix(a: string, t: string, pat: string, rep: string)
    requires |pat| > 0 && pat[0] !in a
    ensures Replace(a + t, pat, rep) == a + Replace(t, pat, rep)
    decreases |a|
  {
    if a != [] {
      var s := a + t;
      assert a[0] in a;
      assert s[0] == a[0] != pat[0];
      assert s[1..] == a[1..] + t;
      ReplaceSkipsPrefix(a[1..], t, pat, rep);
      assert [a[0]] + a[1..] == a;
      if |s| >= |pat| {
        assert s[..|pat|][0] == a[0];
        assert Replace(s, pat, rep) == [s[0]] + Replace(s[1..], pat, rep);
        assert [a[0]] + (a[1..] + Replace(t, pat, rep)) == a + Replace(t, pat, rep);
      } else {
        assert |t| < |pat|;
        assert Replace(t, pat, rep) == t;
        assert Replace(s, pat, rep) == s;
      }
    } else {
      assert a + t == t;
    }
  }

  /** No occurrence of `pat` can start inside `a`, whatever follows it:
      every character of `a` equal to the first of `pat` is followed,
      still inside `a`, by one that differs from the second. */
  predicate NoStartIn(a: string, pat: string)
    requires |pat| >= 2
  {
    forall i :: 0 <= i < |a| && a[i] == pat[0] ==> i + 1 < |a| && a[i + 1] != pat[1]
  }

  /** Such a prefix is copied as it is and the scan goes on after it. */
  lemma {:induction false} ReplaceSplit(a: string, t: string, pat: string, rep: string)
    requires |pat| >= 2 && NoStartIn(a, pat)
    ensures Replace(a + t, pat, rep) == a + Replace(t, pat, rep)
    decreases |a|
  {
    if a == [] {
      assert a + t == t;
    } else {
      var s := a + t;
      assert s[0] == a[0];
      assert s[1..] == a[1..] + t;
      assert NoStartIn(a[1..], pat) by {
        forall i | 0 <= i < |a[1..]| && a[1..][i] == pat[0]
          ensures i + 1 < |a[1..]| && a[1..][i + 1] != pat[1]
        {
          assert a[i + 1] == pat[0];
        }
      }
      ReplaceSplit(a[1..], t, pat, rep);
      assert [a[0]] + a[1..] == a;
      if |s| >= |pat| {
        if a[0] == pat[0] {
          assert s[1] == a[1] != pat[1];
          assert s[..|pat|][1] == s[1];
        } else {
          assert s[..|pat|][0] == s[0];
        }
        assert Replace(s, pat, rep) == [s[0]] + Replace(s[1..], pat, rep);
        assert [a[0]] + (a[1..] + Replace(t, pat, rep)) == a + Replace(t, pat, rep);
      } else {
        assert Replace(t, pat, rep) == t;
        assert Replace(s, pat, rep) == s;
      }
    }
  }

  /** A single character that does not start an occurrence is copied. */
  lemma ReplaceSkipsChar(c: char, t: string, pat: string, rep: string)
    requires |pat| > 0 && !StartsWith([c] + t, pat)
    ensures Replace([c] + t, pat, rep) == [c] + Replace(t, pat, rep)
  {
    assert ([c] + t)[1..] == t;
  }

  /** An occurrence at the front is replaced and the scan resumes after it. */
  lemma ReplaceAtFront(t: string, pat: string, rep: string)
    requires |pat| > 0
    ensures Replace(pat + t, pat, rep) == rep + Replace(t, pat, rep)
  {
    assert (pat + t)[..|pat|] == pat;
    assert (pat + t)[|pat|..] == t;
  }

  /** A pattern that cannot overlap itself: no proper suffix of it is also a
      prefix of it. */
  predicate SelfDisjoint(pat: string) {
    forall k :: 0 < k < |pat| ==> pat[k..] != pat[..|pat| - k]
  }

  /** Two occurrences of `pat`, at the front and at the end of a string
      shorter than two copies, share a border of the pattern. */
  lemma OverlapIsBorder(s: string, pat: string)
    requires StartsWith(s, pat) && EndsWith(s, pat)
    requires |pat| < |s| < 2 * |pat|
    ensures pat[|s| - |pat|..] == pat[..2 * |pat| - |s|]
  {
    var k := |s| - |pat|;
    assert pat[k..] == s[k..|pat|];
    assert s[k..|pat|] == s[k..][..|pat| - k];
  }

  /** For a pattern that cannot overlap itself, an input ending with the
      pattern gives a result ending with the replacement. */
  lemma {:induction false} ReplaceKeepsSuffix(s: string, pat: string, rep: string)
    requires |pat| > 0 && SelfDisjoint(pat)
    requires EndsWith(s, pat)
    ensures EndsWith(Replace(s, pat, rep), rep)
    decreases |s|
  {
    if s[..|pat|] == pat {
      var rest := s[|pat|..];
      if rest == [] {
        assert Replace(rest, pat, rep) == [];
      } else {
        if |rest| < |pat| {
          // the occurrence at the front and the one at the end would overlap
          OverlapIsBorder(s, pat);
          assert false;
        }
        assert rest[|rest| - |pat|..] == s[|s| - |pat|..];
        ReplaceKeepsSuffix(rest, pat, rep);
      }
      assert Replace(s, pat, rep) == rep + Replace(rest, pat, rep);
    } else {
      assert s[1..][|s| - 1 - |pat|..] == s[|s| - |pat|..];
      ReplaceKeepsSuffix(s[1..], pat, rep);
      assert Replace(s, pat, rep) == [s[0]] + Replace(s[1..], pat, rep);
    }
  }

  /** Suffixes survive a character-for-character replacement that does not
      touch them. */
  lemma ReplaceCharKeepsSuffix(s: string, a: char, b: char, suffix: string)
    requires EndsWith(s, suffix) && a !in suffix
    ensures EndsWith(Replace(s, [a], [b]), suffix)
  {
    ReplaceCharPointwise(s, a, b);
    var r := Replace(s, [a], [b]);
    var d := |s| - |suffix|;
    forall j | 0 <= j < |suffix|
      ensures r[d..][j] == suffix[j]
    {
      assert s[d + j] == suffix[j];
    }
  }
}
