/**
 * The keyword matcher of the tag classifier (`ClassEngine` in src/utils/tagService.ts):
 * text normalisation, the in-order character test, the two-row Levenshtein distance,
 * the similarity ratio and the four-strategy keyword check.
 *
 * A string is a sequence of `char`, each a Unicode scalar value. The source's `length`,
 * indexing and non-`u` regular expressions work on UTF-16 code units instead; the two
 * agree on text within the Basic Multilingual Plane.
 */
module ClassEngine {

  // ---------------------------------------------------------------------------
  // Normalisation
  // ---------------------------------------------------------------------------

  /** The characters `\s` matches (and `String.prototype.trim` removes). */
  predicate IsWhitespace(c: char) {
    c == '\t' || c == '\n' || c == '\U{000B}' || c == '\U{000C}' || c == '\r' || c == ' '
    || c == '\U{00A0}' || c == '\U{1680}' || ('\U{2000}' <= c <= '\U{200A}')
    || c == '\U{2028}' || c == '\U{2029}' || c == '\U{202F}' || c == '\U{205F}'
    || c == '\U{3000}' || c == '\U{FEFF}'
  }

  /** The ASCII punctuation the second replace removes. */
  predicate IsStrippedPunctuation(c: char) {
    c in ".,;:!?\"'()[]{}|\\/_+=-*&^%$#@~`"
  }

  /** Zero-width characters U+200B..U+200F and the byte-order mark U+FEFF. */
  predicate IsZeroWidth(c: char) {
    ('\U{200B}' <= c <= '\U{200F}') || c == '\U{FEFF}'
  }

  /** A character that one of the three replaces deletes. */
  predicate IsDropped(c: char) {
    IsWhitespace(c) || IsStrippedPunctuation(c) || IsZeroWidth(c)
  }

  /** `toLowerCase` on one character, restricted to ASCII letters. */
  function LowerChar(c: char): char {
    if 'A' <= c <= 'Z' then (c as int + 32) as char else c
  }

  /**
   * `normalizeText`: lower-case, then delete whitespace, the listed punctuation and
   * zero-width characters. Every step works character by character, so the chain
   * of replaces is one filter over the lower-cased characters.
   */
  function Normalize(text: string): string {
    if text == [] then []
    else
      var c := LowerChar(text[0]);
      (if IsDropped(c) then [] else [c]) + Normalize(text[1..])
  }

  /** A string `Normalize` leaves as it is: nothing to delete, nothing to lower-case. */
  predicate IsNormal(s: string) {
    forall i :: 0 <= i < |s| ==> !IsDropped(s[i]) && LowerChar(s[i]) == s[i]
  }

  /** The output of `normalizeText` holds no deleted character and no upper-case ASCII letter. */
  lemma {:induction false} NormalizeIsNormal(text: string)
    ensures IsNormal(Normalize(text))
    ensures |Normalize(text)| <= |text|
  {
    if text != [] {
      NormalizeIsNormal(text[1..]);
      var c := LowerChar(text[0]);
      var head: string := if IsDropped(c) then [] else [c];
      assert Normalize(text) == head + Normalize(text[1..]);
    }
  }

  /** A normal string is a fixed point of `normalizeText`. */
  lemma {:induction false} NormalizeFixesNormal(s: string)
    requires IsNormal(s)
    ensures Normalize(s) == s
  {
    if s != [] {
      assert IsNormal(s[1..]) by {
        forall i | 0 <= i < |s[1..]|
          ensures !IsDropped(s[1..][i]) && LowerChar(s[1..][i]) == s[1..][i]
        {
          assert s[1..][i] == s[i + 1];
        }
      }
      NormalizeFixesNormal(s[1..]);
      assert !IsDropped(s[0]) && LowerChar(s[0]) == s[0];
      assert s == [s[0]] + s[1..];
    }
  }

  /** `normalizeText("")` is `""`, and normalising twice is normalising once. */
  lemma NormalizeIdempotent(text: string)
    ensures Normalize([]) == []
    ensures Normalize(Normalize(text)) == Normalize(text)
  {
    NormalizeIsNormal(text);
    NormalizeFixesNormal(Normalize(text));
  }

  // ---------------------------------------------------------------------------
  // In-order characters (containsCharSequence)
  // ---------------------------------------------------------------------------

  /**
   * `k` can be obtained from `t` by deleting characters: either `t` is used from its
   * first element on to match `k[0]`, or its first element is skipped.
   */
  predicate IsSubsequence<T(==)>(k: seq<T>, t: seq<T>)
    decreases |t|
  {
    k == [] ||
    (t != [] && ((k[0] == t[0] && IsSubsequence(k[1..], t[1..])) || IsSubsequence(k, t[1..])))
  }

  /** A subsequence is never longer than the sequence it comes from. */
  lemma {:induction false} SubsequenceLength<T>(k: seq<T>, t: seq<T>)
    requires IsSubsequence(k, t)
    ensures |k| <= |t|
    decreases |t|
  {
    if k != [] {
      if k[0] == t[0] && IsSubsequence(k[1..], t[1..]) {
        SubsequenceLength(k[1..], t[1..]);
      } else {
        SubsequenceLength(k, t[1..]);
      }
    }
  }

  /** Dropping the first element of a subsequence leaves a subsequence. */
  lemma {:induction false} SubsequenceTail<T>(k: seq<T>, t: seq<T>)
    requires k != [] && IsSubsequence(k, t)
    ensures IsSubsequence(k[1..], t)
    decreases |t|
  {
    if k[0] == t[0] && IsSubsequence(k[1..], t[1..]) {
      if k[1..] != [] {
        assert IsSubsequence(k[1..], t[1..]);
      }
    } else {
      SubsequenceTail(k, t[1..]);
    }
  }

  /** Matching the first element greedily loses nothing. */
  lemma GreedyStep<T>(k: seq<T>, t: seq<T>)
    requires k != [] && t != [] && k[0] == t[0]
    ensures IsSubsequence(k, t) <==> IsSubsequence(k[1..], t[1..])
  {
    if IsSubsequence(k, t) && !IsSubsequence(k[1..], t[1..]) {
      SubsequenceTail(k, t[1..]);
    }
  }

  /** Every sequence is a subsequence of itself. */
  lemma {:induction false} SubsequenceReflexive<T>(s: seq<T>)
    ensures IsSubsequence(s, s)
    decreases |s|
  {
    if s != [] {
      SubsequenceReflexive(s[1..]);
    }
  }

  /** A subsequence of a suffix is a subsequence of the whole. */
  lemma {:induction false} SubsequenceOfSuffix<T>(k: seq<T>, t: seq<T>, i: nat)
    requires i <= |t| && IsSubsequence(k, t[i..])
    ensures IsSubsequence(k, t)
    decreases i
  {
    if i > 0 && k != [] {
      assert t[i - 1..][1..] == t[i..];
      SubsequenceOfSuffix(k, t, i - 1);
    }
  }

  /** A subsequence of a prefix is a subsequence of the whole. */
  lemma {:induction false} SubsequenceOfPrefix<T>(k: seq<T>, t: seq<T>, j: nat)
    requires j <= |t| && IsSubsequence(k, t[..j])
    ensures IsSubsequence(k, t)
    decreases j
  {
    if k != [] {
      assert t[..j] != [];
      if k[0] == t[0] && IsSubsequence(k[1..], t[..j][1..]) {
        assert t[..j][1..] == t[1..][..j - 1];
        SubsequenceOfPrefix(k[1..], t[1..], j - 1);
      } else {
        assert t[..j][1..] == t[1..][..j - 1];
        SubsequenceOfPrefix(k, t[1..], j - 1);
      }
    }
  }

  /** The `n` characters of `t` starting at index `i`. */
  function Slice(t: string, i: nat, n: nat): (w: string)
    requires i + n <= |t|
    ensures |w| == n
  {
    t[i..i + n]
  }

  /** `t.includes(k)`: `k` occurs in `t` as a contiguous block. */
  predicate IsInfix(k: string, t: string) {
    exists i: nat :: i + |k| <= |t| && Slice(t, i, |k|) == k
  }

  /** A contiguous occurrence is in particular an in-order occurrence. */
  lemma InfixIsSubsequence(k: string, t: string)
    requires IsInfix(k, t)
    ensures IsSubsequence(k, t)
  {
    var i: nat :| i + |k| <= |t| && Slice(t, i, |k|) == k;
    SubsequenceReflexive(k);
    assert t[i..][..|k|] == k;
    SubsequenceOfPrefix(k, t[i..], |k|);
    SubsequenceOfSuffix(k, t, i);
  }

  /**
   * `containsCharSequence`: walks `text` once, advancing through `keyword` on each
   * equal character, and answers whether `keyword` is an in-order subsequence of `text`.
   */
  method ContainsCharSequence(text: string, keyword: string) returns (found: bool)
    ensures found <==> IsSubsequence(keyword, text)
    ensures keyword == [] ==> found
    ensures |keyword| > |text| ==> !found
  {
    if keyword == [] {
      return true;
    }
    if text == [] || |keyword| > |text| {
      if IsSubsequence(keyword, text) {
        SubsequenceLength(keyword, text);
      }
      return false;
    }
    var keywordIndex := 0;
    for i := 0 to |text|
      invariant keywordIndex < |keyword|
      invariant IsSubsequence(keyword, text) == IsSubsequence(keyword[keywordIndex..], text[i..])
    {
      if text[i] == keyword[keywordIndex] {
        GreedyStep(keyword[keywordIndex..], text[i..]);
        assert keyword[keywordIndex..][1..] == keyword[keywordIndex + 1..];
        assert text[i..][1..] == text[i + 1..];
        keywordIndex := keywordIndex + 1;
        if keywordIndex == |keyword| {
          return true;
        }
      } else {
        assert text[i..][1..] == text[i + 1..];
      }
    }
    return false;
  }

  // ---------------------------------------------------------------------------
  // Levenshtein distance and similarity
  // ---------------------------------------------------------------------------

  function Min3(a: nat, b: nat, c: nat): nat {
    if a <= b && a <= c then a else if b <= c then b else c
  }

  function Max(a: nat, b: nat): nat {
    if a >= b then a else b
  }

  /**
   * The edit distance with insertion, deletion and substitution each costing 1,
   * defined on the last characters of the two strings.
   */
  function Levenshtein(a: string, b: string): nat
    decreases |a| + |b|
  {
    if |a| == 0 then |b|
    else if |b| == 0 then |a|
    else Min3(Levenshtein(a, b[..|b| - 1]) + 1,
              Levenshtein(a[..|a| - 1], b) + 1,
              Levenshtein(a[..|a| - 1], b[..|b| - 1]) + (if a[|a| - 1] == b[|b| - 1] then 0 else 1))
  }

  /** The distance does not depend on the order of its arguments. */
  lemma {:induction false} LevenshteinSymmetric(a: string, b: string)
    ensures Levenshtein(a, b) == Levenshtein(b, a)
    decreases |a| + |b|
  {
    if |a| != 0 && |b| != 0 {
      LevenshteinSymmetric(a[..|a| - 1], b);
      LevenshteinSymmetric(a, b[..|b| - 1]);
      LevenshteinSymmetric(a[..|a| - 1], b[..|b| - 1]);
    }
  }

  /** A string is at distance 0 from itself and at distance |a| from the empty string. */
  lemma {:induction false} LevenshteinIdentity(a: string)
    ensures Levenshtein(a, a) == 0
    ensures Levenshtein(a, []) == |a| && Levenshtein([], a) == |a|
  {
    if |a| != 0 {
      LevenshteinIdentity(a[..|a| - 1]);
    }
  }

  /** Never more than the longer length: substitute the overlap, insert the rest. */
  lemma {:induction false} LevenshteinUpperBound(a: string, b: string)
    ensures Levenshtein(a, b) <= Max(|a|, |b|)
    decreases |a| + |b|
  {
    if |a| != 0 && |b| != 0 {
      LevenshteinUpperBound(a[..|a| - 1], b[..|b| - 1]);
    }
  }

  /** Distance 0 exactly between equal strings. */
  lemma {:induction false} LevenshteinZeroIffEqual(a: string, b: string)
    ensures Levenshtein(a, b) == 0 <==> a == b
    decreases |a| + |b|
  {
    if a == b {
      LevenshteinIdentity(a);
    } else if |a| != 0 && |b| != 0 && Levenshtein(a, b) == 0 {
      LevenshteinZeroIffEqual(a[..|a| - 1], b[..|b| - 1]);
    }
  }

  /** One cell of the distance table in terms of its three neighbours. */
  lemma LevenshteinPrefixStep(s1: string, s2: string, j: nat, i: nat)
    requires 1 <= j <= |s1| && 1 <= i <= |s2|
    ensures Levenshtein(s1[..j], s2[..i])
            == Min3(Levenshtein(s1[..j], s2[..i - 1]) + 1,
                    Levenshtein(s1[..j - 1], s2[..i]) + 1,
                    Levenshtein(s1[..j - 1], s2[..i - 1]) + (if s1[j - 1] == s2[i - 1] then 0 else 1))
  {
    assert s1[..j][..j - 1] == s1[..j - 1];
    assert s2[..i][..i - 1] == s2[..i - 1];
  }

  /** A cell of the distance table computed from its neighbours' values. */
  lemma TableCell(s1: string, s2: string, j: nat, i: nat, up: nat, left: nat, diag: nat)
    requires 1 <= j <= |s1| && 1 <= i <= |s2|
    requires up == Levenshtein(s1[..j], s2[..i - 1])
    requires left == Levenshtein(s1[..j - 1], s2[..i])
    requires diag == Levenshtein(s1[..j - 1], s2[..i - 1])
    ensures Min3(up + 1, left + 1, diag + (if s1[j - 1] == s2[i - 1] then 0 else 1))
            == Levenshtein(s1[..j], s2[..i])
  {
    LevenshteinPrefixStep(s1, s2, j, i);
  }

  /**
   * One pass of the outer loop of `editDistance`: from the row for the first `i - 1`
   * characters of `s2`, the row for the first `i`.
   */
  method NextRow(s1: string, s2: string, i: nat, previousRow: seq<nat>) returns (currentRow: seq<nat>)
    requires 1 <= i <= |s2| && |previousRow| == |s1| + 1
    requires forall j :: 0 <= j <= |s1| ==> previousRow[j] == Levenshtein(s1[..j], s2[..i - 1])
    ensures |currentRow| == |s1| + 1
    ensures forall j :: 0 <= j <= |s1| ==> currentRow[j] == Levenshtein(s1[..j], s2[..i])
  {
    currentRow := [i];
    LevenshteinIdentity(s2[..i]);
    assert s1[..0] == [];
    var j := 1;
    while j <= |s1|
      invariant 1 <= j <= |s1| + 1
      invariant |currentRow| == j
      invariant forall k :: 0 <= k < j ==> currentRow[k] == Levenshtein(s1[..k], s2[..i])
    {
      var cost := if s1[j - 1] == s2[i - 1] then 0 else 1;
      var cell := Min3(previousRow[j] + 1, currentRow[j - 1] + 1, previousRow[j - 1] + cost);
      TableCell(s1, s2, j, i, previousRow[j], currentRow[j - 1], previousRow[j - 1]);
      currentRow := currentRow + [cell];
      j := j + 1;
    }
  }

  /**
   * `editDistance`: swaps so that `str1` is the shorter string, then keeps one row of
   * the distance table, `previousRow[j]` being the distance between the first `j`
   * characters of `str1` and the first `i - 1` characters of `str2`.
   */
  method EditDistance(str1: string, str2: string) returns (distance: nat)
    ensures distance == Levenshtein(str1, str2)
  {
    var s1, s2 := str1, str2;
    if |s1| > |s2| {
      s1, s2 := str2, str1;
    }
    var previousRow := seq(|s1| + 1, j => j);
    forall j | 0 <= j <= |s1|
      ensures previousRow[j] == Levenshtein(s1[..j], s2[..0])
    {
      LevenshteinIdentity(s1[..j]);
    }
    var i := 1;
    while i <= |s2|
      invariant 1 <= i <= |s2| + 1
      invariant |previousRow| == |s1| + 1
      invariant forall j :: 0 <= j <= |s1| ==> previousRow[j] == Levenshtein(s1[..j], s2[..i - 1])
    {
      previousRow := NextRow(s1, s2, i, previousRow);
      i := i + 1;
    }
    assert s1[..|s1|] == s1 && s2[..|s2|] == s2;
    distance := previousRow[|s1|];
    if s1 != str1 {
      LevenshteinSymmetric(str1, str2);
    }
  }

  /**
   * `similarity`: 1 for equal strings, 0 when exactly one is empty, otherwise one minus
   * the edit distance over the longer length.
   */
  function Similarity(a: string, b: string): (r: real)
    ensures 0.0 <= r <= 1.0
    ensures r == 1.0 <==> a == b
    ensures a != b && (a == [] || b == []) ==> r == 0.0
  {
    if a == b then 1.0
    else if |a| == 0 || |b| == 0 then 0.0
    else
      var d := Levenshtein(a, b);
      var m := Max(|a|, |b|);
      LevenshteinUpperBound(a, b);
      LevenshteinZeroIffEqual(a, b);
      RatioBounds(d, m);
      1.0 - (d as real) / (m as real)
  }

  /** A ratio of positive naturals, numerator not above denominator, lies in (0, 1]. */
  lemma RatioBounds(d: nat, m: nat)
    requires 1 <= d <= m
    ensures 0.0 < (d as real) / (m as real) <= 1.0
  {
    assert (d as real) <= (m as real);
  }

  /** The similarity of two strings does not depend on their order. */
  lemma SimilaritySymmetric(a: string, b: string)
    ensures Similarity(a, b) == Similarity(b, a)
  {
    LevenshteinSymmetric(a, b);
  }

  // ---------------------------------------------------------------------------
  // Keyword check (checkKeywords)
  // ---------------------------------------------------------------------------

  /** Some window of `text` as long as `keyword` is at least `threshold` similar to it. */
  predicate WindowHit(text: string, keyword: string, threshold: real) {
    |keyword| <= |text| &&
    exists i: nat :: i + |keyword| <= |text| && Similarity(Slice(text, i, |keyword|), keyword) >= threshold
  }

  /**
   * Whether the normalised keyword `nk` matches the normalised text `nt`: exact
   * substring, in-order characters, and for keywords of at least two characters the
   * global similarity (at least four characters) or a sliding window.
   */
  predicate KeywordMatches(nt: string, nk: string, threshold: real) {
    nk != [] &&
    (IsInfix(nk, nt) || IsSubsequence(nk, nt) ||
     (|nk| >= 2 && ((|nk| >= 4 && Similarity(nt, nk) >= threshold) || WindowHit(nt, nk, threshold))))
  }

  /** The keywords of `keywords`, in order, whose normalised form matches `nt`. */
  function MatchedKeywords(nt: string, keywords: seq<string>, threshold: real): seq<string> {
    if keywords == [] then []
    else
      (if KeywordMatches(nt, Normalize(keywords[0]), threshold) then [keywords[0]] else [])
      + MatchedKeywords(nt, keywords[1..], threshold)
  }

  /** The sliding-window strategy: stops at the first window similar enough. */
  method SlidingWindowMatch(nt: string, nk: string, threshold: real) returns (hit: bool)
    ensures hit == WindowHit(nt, nk, threshold)
  {
    var windowSize := |nk|;
    if windowSize <= |nt| {
      for i := 0 to |nt| - windowSize + 1
        invariant forall j: nat :: j < i ==> Similarity(Slice(nt, j, windowSize), nk) < threshold
      {
        if Similarity(Slice(nt, i, windowSize), nk) >= threshold {
          return true;
        }
      }
    }
    return false;
  }

  /**
   * The body of the keyword loop of `checkKeywords` for one non-empty normalised
   * keyword: the four strategies tried in turn, the first that succeeds deciding.
   */
  method MatchKeyword(normalizedText: string, normalizedKeyword: string, threshold: real) returns (matched: bool)
    requires normalizedKeyword != []
    ensures matched == KeywordMatches(normalizedText, normalizedKeyword, threshold)
  {
    if IsInfix(normalizedKeyword, normalizedText) {
      return true;
    }
    var inOrder := ContainsCharSequence(normalizedText, normalizedKeyword);
    if inOrder {
      return true;
    }
    if |normalizedKeyword| < 2 {
      return false;
    }
    if |normalizedKeyword| >= 4 && Similarity(normalizedText, normalizedKeyword) >= threshold {
      return true;
    }
    matched := SlidingWindowMatch(normalizedText, normalizedKeyword, threshold);
  }

  /**
   * One keyword of the loop of `checkKeywords`: a keyword that normalises to nothing is
   * skipped, any other is kept when it matches.
   */
  method KeywordStep(normalizedText: string, keyword: string, threshold: real) returns (hit: seq<string>)
    ensures hit == (if KeywordMatches(normalizedText, Normalize(keyword), threshold) then [keyword] else [])
  {
    var normalizedKeyword := Normalize(keyword);
    if normalizedKeyword == [] {
      return [];
    }
    var matched := MatchKeyword(normalizedText, normalizedKeyword, threshold);
    hit := if matched then [keyword] else [];
  }

  /** `MatchedKeywords` on a suffix, one keyword unfolded. */
  lemma MatchedKeywordsUnfold(nt: string, keywords: seq<string>, threshold: real, i: nat)
    requires i < |keywords|
    ensures MatchedKeywords(nt, keywords[i..], threshold)
            == (if KeywordMatches(nt, Normalize(keywords[i]), threshold) then [keywords[i]] else [])
               + MatchedKeywords(nt, keywords[i + 1..], threshold)
  {
    assert keywords[i..][1..] == keywords[i + 1..];
  }

  /**
   * `checkKeywords`: the input keywords, in their original spelling and order, that
   * match the normalised text by one of the four strategies.
   */
  method CheckKeywords(text: string, keywords: seq<string>, threshold: real) returns (matches: seq<string>)
    ensures matches == MatchedKeywords(Normalize(text), keywords, threshold)
  {
    if |keywords| == 0 {
      return [];
    }
    var normalizedText := Normalize(text);
    matches := [];
    for i := 0 to |keywords|
      invariant matches + MatchedKeywords(normalizedText, keywords[i..], threshold)
                == MatchedKeywords(normalizedText, keywords, threshold)
    {
      MatchedKeywordsUnfold(normalizedText, keywords, threshold, i);
      ghost var rest := MatchedKeywords(normalizedText, keywords[i + 1..], threshold);
      var hit := KeywordStep(normalizedText, keywords[i], threshold);
      assert matches + hit + rest == matches + (hit + rest);
      matches := matches + hit;
    }
    assert keywords[|keywords|..] == [];
  }

  /** The matches are an order-preserving selection of the input, each position used once. */
  lemma {:induction false} MatchedKeywordsAreSubsequence(nt: string, keywords: seq<string>, threshold: real)
    ensures IsSubsequence(MatchedKeywords(nt, keywords, threshold), keywords)
    decreases |keywords|
  {
    if keywords != [] {
      var rest := MatchedKeywords(nt, keywords[1..], threshold);
      MatchedKeywordsAreSubsequence(nt, keywords[1..], threshold);
      if KeywordMatches(nt, Normalize(keywords[0]), threshold) {
        var m := [keywords[0]] + rest;
        assert m[0] == keywords[0] && m[1..] == rest;
        assert IsSubsequence(m[1..], keywords[1..]);
        assert IsSubsequence(m, keywords);
      } else if rest != [] {
        assert MatchedKeywords(nt, keywords, threshold) == rest;
        assert IsSubsequence(rest, keywords[1..]);
      }
    }
  }

  /** Every returned keyword is an input keyword whose normalised form is not empty. */
  lemma {:induction false} MatchedKeywordsNonEmpty(nt: string, keywords: seq<string>, threshold: real)
    ensures forall m :: m in MatchedKeywords(nt, keywords, threshold) ==> m in keywords && Normalize(m) != []
    ensures keywords == [] ==> MatchedKeywords(nt, keywords, threshold) == []
    decreases |keywords|
  {
    if keywords != [] {
      MatchedKeywordsNonEmpty(nt, keywords[1..], threshold);
      assert forall m :: m in keywords[1..] ==> m in keywords;
    }
  }

  /**
   * Whatever the threshold, a keyword whose normalised form occurs in the normalised
   * text, contiguously or only in order, is returned.
   */
  lemma {:induction false} InOrderKeywordAlwaysMatched(nt: string, keywords: seq<string>, threshold: real, k: string)
    requires k in keywords && Normalize(k) != []
    requires IsInfix(Normalize(k), nt) || IsSubsequence(Normalize(k), nt)
    ensures k in MatchedKeywords(nt, keywords, threshold)
    decreases |keywords|
  {
    if keywords[0] != k {
      InOrderKeywordAlwaysMatched(nt, keywords[1..], threshold, k);
    }
  }

  /**
   * The fuzzy strategies only ever decide for keywords of length at least 2, and the
   * global similarity only for length at least 4: a keyword that is not an in-order
   * occurrence matches only through them.
   */
  lemma FuzzyStrategiesGated(nt: string, nk: string, threshold: real)
    requires KeywordMatches(nt, nk, threshold) && !IsSubsequence(nk, nt)
    ensures |nk| >= 2
    ensures (|nk| >= 4 && Similarity(nt, nk) >= threshold) || WindowHit(nt, nk, threshold)
  {
    if IsInfix(nk, nt) {
      InfixIsSubsequence(nk, nt);
    }
  }
}
