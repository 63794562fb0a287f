/** The three .NET string operations the seeders rely on: ordinal
    `string.Contains`, `string.StartsWith` with
    `StringComparison.OrdinalIgnoreCase`, and `string.IsNullOrWhiteSpace`.
    Case folding covers the ASCII letters and white space the Latin-1 set;
    the other Unicode spaces are not classified as white space. */
module Text {

  /** `char.IsWhiteSpace` on Latin-1: U+0009..U+000D, U+0020, U+0085, U+00A0. */
  predicate IsWhiteSpace(c: char) {
    '\t' <= c <= '\r' || c == ' ' || c as int == 0x85 || c as int == 0xA0
  }

  /** `string.IsNullOrWhiteSpace` of a non-null string: empty, or white space only. */
  predicate IsBlank(s: string) {
    forall i :: 0 <= i < |s| ==> IsWhiteSpace(s[i])
  }

  /** Upper-case folding of the ASCII letters; every other character is its own fold. */
  function FoldCase(c: char): char {
    if 'a' <= c <= 'z' then (c as int - 32) as char else c
  }

  predicate SameIgnoringCase(a: char, b: char) {
    FoldCase(a) == FoldCase(b)
  }

  /** Every character is already folded, as in an all-capitals ASCII code. */
  predicate IsFolded(s: string) {
    forall i :: 0 <= i < |s| ==> FoldCase(s[i]) == s[i]
  }

  /** The string with every character folded. */
  function FoldAll(s: string): (r: string)
    ensures |r| == |s| && forall i :: 0 <= i < |s| ==> r[i] == FoldCase(s[i])
  {
    seq(|s|, i requires 0 <= i < |s| => FoldCase(s[i]))
  }

  /** `s.StartsWith(p, StringComparison.OrdinalIgnoreCase)`: `p` is no longer
      than `s` and matches its first |p| characters up to case. */
  function StartsWithIgnoreCase(s: string, p: string): (r: bool)
    ensures r <==> |p| <= |s| && forall i :: 0 <= i < |p| ==> SameIgnoringCase(s[i], p[i])
  {
    if |p| == 0 then true
    else if |s| == 0 then false
    else SameIgnoringCase(s[0], p[0]) && StartsWithIgnoreCase(s[1..], p[1..])
  }

  /** `p` occurs in `s` starting at index `i`. */
  predicate OccursAt(s: string, p: string, i: int) {
    0 <= i <= |s| - |p| && s[i..i + |p|] == p
  }

  /** Ordinal, case-sensitive `s.Contains(p)`: `p` occurs somewhere in `s`. */
  function Contains(s: string, p: string): (r: bool)
    ensures r <==> exists i :: OccursAt(s, p, i)
    decreases |s|
  {
    if |p| > |s| then false
    else if s[..|p|] == p then assert OccursAt(s, p, 0); true
    else
      ShiftOccurrence(s, p);
      Contains(s[1..], p)
  }

  /** Dropping the first character of `s` shifts every later occurrence by one. */
  lemma ShiftOccurrence(s: string, p: string)
    requires |p| <= |s| && s[..|p|] != p
    ensures (exists i :: OccursAt(s, p, i)) <==> (exists i :: OccursAt(s[1..], p, i))
  {
    forall i | OccursAt(s, p, i)
      ensures OccursAt(s[1..], p, i - 1)
    {
      assert i != 0;
      assert s[1..][i - 1..i - 1 + |p|] == s[i..i + |p|];
    }
    forall i | OccursAt(s[1..], p, i)
      ensures OccursAt(s, p, i + 1)
    {
      assert s[1..][i..i + |p|] == s[i + 1..i + 1 + |p|];
    }
  }

  /** Two equally long folded prefixes of the same string are the same prefix. */
  lemma {:induction false} FoldedPrefixUnique(s: string, p: string, q: string)
    requires |p| == |q| && IsFolded(p) && IsFolded(q)
    requires StartsWithIgnoreCase(s, p)
    ensures StartsWithIgnoreCase(s, q) <==> p == q
  {
    if StartsWithIgnoreCase(s, q) {
      forall i | 0 <= i < |p|
        ensures p[i] == q[i]
      {
        assert SameIgnoringCase(s[i], p[i]) && SameIgnoringCase(s[i], q[i]);
      }
    }
  }

  /** The folded first `n` characters of a string are a folded prefix of it up to case. */
  lemma FoldedPrefixOf(s: string, n: nat)
    requires n <= |s|
    ensures IsFolded(FoldAll(s[..n]))
    ensures StartsWithIgnoreCase(s, FoldAll(s[..n]))
  {
    var key := FoldAll(s[..n]);
    forall i | 0 <= i < n
      ensures FoldCase(key[i]) == key[i]
    {
      FoldCaseIdempotent(s[i]);
    }
  }

  lemma FoldCaseIdempotent(c: char)
    ensures FoldCase(FoldCase(c)) == FoldCase(c)
  {
    if 'a' <= c <= 'z' {
      assert 'A' <= FoldCase(c) <= 'Z';
    }
  }
}
