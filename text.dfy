/** String operations the core relies on: the case-insensitive substring test
    behind the `contains … mode insensitive` filters, the order behind
    `orderBy name asc`, and JavaScript's `startsWith` and `split(' ')`. */
module Text {

  /** ASCII letters fold to lower case; every other character is kept. */
  function Lower(c: char): char {
    if 'A' <= c <= 'Z' then (c as int + 32) as char else c
  }

  function LowerAll(s: string): string {
    seq(|s|, i requires 0 <= i < |s| => Lower(s[i]))
  }

  function StartsWith(s: string, prefix: string): bool {
    |prefix| <= |s| && s[..|prefix|] == prefix
  }

  /** `needle` occurs in `hay` starting at offset `k`. */
  predicate OccursAt(needle: string, hay: string, k: nat) {
    k + |needle| <= |hay| && hay[k..k + |needle|] == needle
  }

  /** `needle` occurs in `hay` as a contiguous piece. */
  function IsInfix(needle: string, hay: string): (r: bool)
    ensures r <==> exists k: nat :: OccursAt(needle, hay, k)
    decreases |hay|
  {
    if StartsWith(hay, needle) then
      assert OccursAt(needle, hay, 0);
      true
    else if |hay| == 0 then false
    else
      var rest := IsInfix(needle, hay[1..]);
      forall k: nat | k + |needle| <= |hay| - 1
        ensures OccursAt(needle, hay[1..], k) <==> OccursAt(needle, hay, k + 1)
      {
        assert hay[1..][k..k + |needle|] == hay[k + 1..k + 1 + |needle|];
      }
      assert !OccursAt(needle, hay, 0);
      assert forall k: nat :: OccursAt(needle, hay, k) ==> k > 0 && OccursAt(needle, hay[1..], k - 1);
      rest
  }

  /** Case-insensitive substring test (ASCII case folding). */
  function ContainsInsensitive(hay: string, needle: string): (r: bool)
    ensures r <==> exists k: nat :: OccursAt(LowerAll(needle), LowerAll(hay), k)
  {
    IsInfix(LowerAll(needle), LowerAll(hay))
  }

  /** An optional filter: the empty string means "no filter", as the
      truthiness test `if (name)` does. */
  function FilterMatches(field: string, query: string): (r: bool)
    ensures query == "" ==> r
    ensures query != "" ==> (r <==> ContainsInsensitive(field, query))
  {
    query == "" || ContainsInsensitive(field, query)
  }

  /** Lexicographic order on character codes. */
  predicate LexLe(a: string, b: string)
    decreases |a|
  {
    |a| == 0 || (|b| > 0 && (a[0] < b[0] || (a[0] == b[0] && LexLe(a[1..], b[1..]))))
  }

  lemma {:induction false} LexTotal(a: string, b: string)
    ensures LexLe(a, b) || LexLe(b, a)
    decreases |a|
  {
    if |a| > 0 && |b| > 0 && a[0] == b[0] {
      LexTotal(a[1..], b[1..]);
    }
  }

  lemma {:induction false} LexTransitive(a: string, b: string, c: string)
    requires LexLe(a, b) && LexLe(b, c)
    ensures LexLe(a, c)
    decreases |a|
  {
    if |a| > 0 && a[0] == b[0] && b[0] == c[0] {
      LexTransitive(a[1..], b[1..], c[1..]);
    }
  }

  /** The characters of `s` before its first `sep`. */
  function TakeUntil(s: string, sep: char): (r: string)
    ensures StartsWith(s, r) && sep !in r
    ensures |r| < |s| ==> s[|r|] == sep
    decreases |s|
  {
    if |s| == 0 || s[0] == sep then ""
    else [s[0]] + TakeUntil(s[1..], sep)
  }

  /** A string without the separator is taken whole. */
  lemma TakeUntilWhole(s: string, sep: char)
    requires sep !in s
    ensures TakeUntil(s, sep) == s
  {
    assert forall k :: 0 <= k < |s| ==> s[k] != sep;
  }

  /** JavaScript's `s.split(sep)` for a one-character separator. */
  function Split(s: string, sep: char): (r: seq<string>)
    ensures |r| >= 1
    ensures |r| == 1 <==> sep !in s
    ensures r[0] == TakeUntil(s, sep)
    decreases |s|
  {
    if |s| == 0 then [""]
    else if s[0] == sep then [""] + Split(s[1..], sep)
    else
      var rest := Split(s[1..], sep);
      assert sep in s <==> sep in s[1..];
      [[s[0]] + rest[0]] + rest[1..]
  }

  /** Splitting a word, a separator and the rest gives the word, then the
      pieces of the rest. */
  lemma {:induction false} SplitAfterWord(w: string, rest: string, sep: char)
    requires sep !in w
    ensures Split(w + [sep] + rest, sep) == [w] + Split(rest, sep)
    decreases |w|
  {
    var s := w + [sep] + rest;
    if |w| > 0 {
      assert s[1..] == w[1..] + [sep] + rest;
      SplitAfterWord(w[1..], rest, sep);
      assert [w[0]] + w[1..] == w;
    } else {
      assert s[1..] == rest;
    }
  }
}
