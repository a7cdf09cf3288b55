/**
 Character classes and whitespace trimming as Python's `str` methods define
 them, restricted to ASCII: `str.isalnum` is read as the ASCII letters and
 digits, `\d` as the ASCII digits and `str.isspace` as the ASCII characters
 Python counts as whitespace.
 */
module Text {

  predicate IsDigit(c: char) {
    '0' <= c <= '9'
  }

  predicate IsLetter(c: char) {
    'a' <= c <= 'z' || 'A' <= c <= 'Z'
  }

  predicate IsAlnum(c: char) {
    IsDigit(c) || IsLetter(c)
  }

  /** Tab, line feed, vertical tab, form feed, carriage return, the four
      ASCII separators and the space. */
  predicate IsSpace(c: char) {
    c == ' ' || '\U{9}' <= c <= '\U{D}' || '\U{1C}' <= c <= '\U{1F}'
  }

  /** Every position from `a` up to `b` holds whitespace. */
  predicate SpaceBetween(s: string, a: int, b: int) {
    0 <= a && b <= |s| && forall m :: a <= m < b ==> IsSpace(s[m])
  }

  predicate AllDigits(s: string) {
    forall i :: 0 <= i < |s| ==> IsDigit(s[i])
  }

  /** Neither the first nor the last character is whitespace. */
  predicate NoEdgeSpace(s: string) {
    s == [] || (!IsSpace(s[0]) && !IsSpace(s[|s| - 1]))
  }

  /** The first position at or after `i` that is not whitespace. */
  function SkipSpaces(s: string, i: nat): (k: nat)
    requires i <= |s|
    ensures i <= k <= |s|
    ensures SpaceBetween(s, i, k)
    ensures k == |s| || !IsSpace(s[k])
    decreases |s| - i
  {
    if i < |s| && IsSpace(s[i]) then SkipSpaces(s, i + 1) else i
  }

  /** The end of `s[lo..j]` once its trailing whitespace is cut off. */
  function TrimSpaces(s: string, lo: nat, j: nat): (e: nat)
    requires lo <= j <= |s|
    ensures lo <= e <= j
    ensures SpaceBetween(s, e, j)
    ensures e == lo || !IsSpace(s[e - 1])
    decreases j
  {
    if lo < j && IsSpace(s[j - 1]) then TrimSpaces(s, lo, j - 1) else j
  }

  /** `s.rstrip()`: the longest prefix of `s` that does not end in whitespace. */
  function RStrip(s: string): (r: string)
    ensures r <= s
    ensures SpaceBetween(s, |r|, |s|)
    ensures r == [] || !IsSpace(r[|r| - 1])
  {
    s[..TrimSpaces(s, 0, |s|)]
  }

  /** `s.strip()`: `s` without its leading and trailing whitespace. */
  function Strip(s: string): (r: string)
    ensures NoEdgeSpace(r)
    ensures exists i :: StrippedAt(s, r, i)
  {
    var a := SkipSpaces(s, 0);
    var r := s[a..TrimSpaces(s, a, |s|)];
    assert StrippedAt(s, r, a);
    r
  }

  /** `r` sits in `s` at position `i` with only whitespace around it. */
  ghost predicate StrippedAt(s: string, r: string, i: int) {
    && 0 <= i
    && i + |r| <= |s|
    && s[i..i + |r|] == r
    && SpaceBetween(s, 0, i)
    && SpaceBetween(s, i + |r|, |s|)
  }

  /** SkipSpaces stops exactly at the first non-space position. */
  lemma {:induction false} SkipSpacesAt(s: string, i: nat, k: nat)
    requires i <= k <= |s|
    requires SpaceBetween(s, i, k)
    requires k == |s| || !IsSpace(s[k])
    ensures SkipSpaces(s, i) == k
    decreases k - i
  {
    if i < k {
      SkipSpacesAt(s, i + 1, k);
    }
  }

  /** TrimSpaces stops exactly after the last non-space position. */
  lemma {:induction false} TrimSpacesAt(s: string, lo: nat, e: nat, j: nat)
    requires lo <= e <= j <= |s|
    requires SpaceBetween(s, e, j)
    requires e == lo || !IsSpace(s[e - 1])
    ensures TrimSpaces(s, lo, j) == e
    decreases j
  {
    if e < j {
      TrimSpacesAt(s, lo, e, j - 1);
    }
  }

  /** Strip is characterised by its contract: the result is the unique
      string without edge whitespace that sits in `s` between whitespace. */
  lemma StripUnique(s: string, r: string, i: int)
    requires NoEdgeSpace(r)
    requires StrippedAt(s, r, i)
    ensures Strip(s) == r
  {
    if r == [] {
      SkipSpacesAt(s, 0, |s|);
      TrimSpacesAt(s, |s|, |s|, |s|);
    } else {
      assert s[i] == r[0] && s[i + |r| - 1] == r[|r| - 1];
      SkipSpacesAt(s, 0, i);
      TrimSpacesAt(s, i, i + |r|, |s|);
    }
  }

  /** Stripping twice is stripping once. */
  lemma StripIdempotent(s: string)
    ensures Strip(Strip(s)) == Strip(s)
  {
    var r := Strip(s);
    assert r[0..|r|] == r;
    StripUnique(r, r, 0);
  }
}
