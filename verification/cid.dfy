/**
 The CID of a compound (IMPPAT.py lines 11-43): the first match of the
 regular expression `CID:(\d+)` in the stripped text of the identifier link,
 written here as a scanner over characters.
 */
module CidText {
  import opened Wrappers
  import opened Text
  import opened Pages

  /** A match of `CID:\d` starts at `i`. */
  predicate CidAt(s: string, i: int) {
    0 <= i && i + 5 <= |s| && s[i..i + 4] == "CID:" && IsDigit(s[i + 4])
  }

  /** The match at `i` is the one `re.search` finds. */
  ghost predicate LeftmostCid(s: string, i: int) {
    CidAt(s, i) && forall j :: 0 <= j < i ==> !CidAt(s, j)
  }

  /** `d` is group 1 of the match at `i`: the whole digit run after `CID:`. */
  ghost predicate CidGroup(s: string, i: int, d: string) {
    && CidAt(s, i)
    && i + 4 + |d| <= |s|
    && s[i + 4..i + 4 + |d|] == d
    && |d| > 0
    && AllDigits(d)
    && (i + 4 + |d| == |s| || !IsDigit(s[i + 4 + |d|]))
  }

  /** Where the run of digits starting at `k` ends (greedy `\d+`). */
  function DigitRunEnd(s: string, k: nat): (e: nat)
    requires k <= |s|
    ensures k <= e <= |s|
    ensures forall m :: k <= m < e ==> IsDigit(s[m])
    ensures e == |s| || !IsDigit(s[e])
    decreases |s| - k
  {
    if k < |s| && IsDigit(s[k]) then DigitRunEnd(s, k + 1) else k
  }

  /** The first match position at or after `i`. */
  function FirstCidFrom(s: string, i: nat): (r: Option<nat>)
    requires i <= |s|
    ensures r.None? <==> forall j :: i <= j < |s| ==> !CidAt(s, j)
    ensures r.Some? ==> i <= r.value && CidAt(s, r.value)
    ensures r.Some? ==> forall j :: i <= j < r.value ==> !CidAt(s, j)
    decreases |s| - i
  {
    if i == |s| then None
    else if CidAt(s, i) then Some(i)
    else FirstCidFrom(s, i + 1)
  }

  /** `re.search(r'CID:(\d+)', s).group(1)`, or None when there is no match. */
  function FindCid(s: string): (r: Option<string>)
    ensures r.None? <==> forall j :: 0 <= j < |s| ==> !CidAt(s, j)
    ensures r.Some? ==> exists i :: LeftmostCid(s, i) && CidGroup(s, i, r.value)
  {
    match FirstCidFrom(s, 0)
    case None => None
    case Some(i) =>
      var e := DigitRunEnd(s, i + 4);
      var d := s[i + 4..e];
      assert s[i + 4..i + 4 + |d|] == d;
      assert forall m :: 0 <= m < |d| ==> d[m] == s[i + 4 + m];
      assert LeftmostCid(s, i) && CidGroup(s, i, d);
      Some(d)
  }

  /** The digit run after a match is determined by the text. */
  lemma CidGroupUnique(s: string, i: int, d: string, d': string)
    requires CidGroup(s, i, d) && CidGroup(s, i, d')
    ensures d == d'
  {
    assert forall m :: 0 <= m < |d| ==> s[i + 4 + m] == d[m];
    assert forall m :: 0 <= m < |d'| ==> s[i + 4 + m] == d'[m];
  }

  /** Any leftmost match with its maximal digit run is what FindCid returns. */
  lemma FindCidComplete(s: string, i: int, d: string)
    requires LeftmostCid(s, i) && CidGroup(s, i, d)
    ensures FindCid(s) == Some(d)
  {
    var r := FindCid(s);
    assert r.Some?;
    var i' :| LeftmostCid(s, i') && CidGroup(s, i', r.value);
    CidGroupUnique(s, i, d, r.value);
  }

  /** The example of a page whose identifier link reads "CID:12345". */
  lemma FindCidExample()
    ensures FindCid("CID:12345") == Some("12345")
  {
    var s := "CID:12345";
    assert s[0..4] == "CID:";
    assert LeftmostCid(s, 0);
    assert s[4..9] == "12345";
    assert CidGroup(s, 0, "12345");
    FindCidComplete(s, 0, "12345");
  }

  /** A non-space character of `t` lies inside the part Strip keeps. */
  lemma NonSpaceInside(t: string, r: string, k: int, m: int)
    requires StrippedAt(t, r, k)
    requires 0 <= m < |t| && !IsSpace(t[m])
    ensures k <= m < k + |r| && r[m - k] == t[m]
  {
    assert forall x :: 0 <= x < |r| ==> r[x] == t[k..k + |r|][x];
  }

  /** A slice of the stripped text is the same slice of the text, shifted by `k`. */
  lemma StrippedSlice(t: string, r: string, k: int, a: int, b: int)
    requires StrippedAt(t, r, k)
    requires 0 <= a <= b <= |r|
    ensures r[a..b] == t[k + a..k + b]
  {
    assert forall x :: 0 <= x < |r| ==> r[x] == t[k..k + |r|][x];
    assert forall x :: 0 <= x < b - a ==> r[a..b][x] == t[k + a..k + b][x];
  }

  /** Every match in the stripped text is a match in the text. */
  lemma CidAtUnstripped(t: string, r: string, k: int, j: int)
    requires StrippedAt(t, r, k)
    requires CidAt(r, j)
    ensures CidAt(t, j + k)
  {
    StrippedSlice(t, r, k, j, j + 4);
    StrippedSlice(t, r, k, j + 4, j + 5);
    assert t[j + k + 4] == t[j + k + 4..j + k + 5][0];
  }

  /** Every match in the text, with its digit run, lies inside the stripped text. */
  lemma CidGroupStripped(t: string, r: string, k: int, i: int, d: string)
    requires StrippedAt(t, r, k)
    requires CidGroup(t, i, d)
    ensures CidGroup(r, i - k, d)
  {
    assert t[i] == "CID:"[0];
    NonSpaceInside(t, r, k, i);
    var e := i + 4 + |d|;
    assert t[e - 1] == d[|d| - 1];
    NonSpaceInside(t, r, k, e - 1);
    StrippedSlice(t, r, k, i - k, i - k + 4);
    StrippedSlice(t, r, k, i - k + 4, e - k);
    assert r[i - k + 4] == r[i - k + 4..e - k][0];
    if e < k + |r| {
      StrippedSlice(t, r, k, e - k, e - k + 1);
      assert r[e - k] == r[e - k..e - k + 1][0];
    }
  }

  /** Without a match in the text there is none in the stripped text. */
  lemma NoCidStripped(t: string, r: string, k: int)
    requires StrippedAt(t, r, k)
    requires forall j :: 0 <= j < |t| ==> !CidAt(t, j)
    ensures forall j :: 0 <= j < |r| ==> !CidAt(r, j)
  {
    forall j | 0 <= j < |r|
      ensures !CidAt(r, j)
    {
      if CidAt(r, j) {
        CidAtUnstripped(t, r, k, j);
      }
    }
  }

  /** The leftmost match of the text is, shifted, the leftmost of the stripped text. */
  lemma LeftmostCidStripped(t: string, r: string, k: int, i: int, d: string)
    requires StrippedAt(t, r, k)
    requires LeftmostCid(t, i) && CidGroup(t, i, d)
    ensures LeftmostCid(r, i - k) && CidGroup(r, i - k, d)
  {
    CidGroupStripped(t, r, k, i, d);
    forall j | 0 <= j < i - k
      ensures !CidAt(r, j)
    {
      if CidAt(r, j) {
        CidAtUnstripped(t, r, k, j);
      }
    }
  }

  /** Stripping the link text before the search (IMPPAT.py line 35) never changes the CID. */
  lemma FindCidIgnoresStrip(t: string)
    ensures FindCid(Strip(t)) == FindCid(t)
  {
    var r := Strip(t);
    var k :| StrippedAt(t, r, k);
    var found := FindCid(t);
    if found.None? {
      NoCidStripped(t, r, k);
    } else {
      var d := found.value;
      var i :| LeftmostCid(t, i) && CidGroup(t, i, d);
      LeftmostCidStripped(t, r, k, i, d);
      FindCidComplete(r, i - k, d);
    }
  }

  /** `extract_cid` on a fetched detail page. */
  function ExtractCid(page: DetailPage): (r: Option<string>)
    ensures page.status != HttpOk || page.anchorText.None? ==> r.None?
    ensures r.Some? ==> |r.value| > 0 && AllDigits(r.value)
  {
    if page.status != HttpOk then None
    else
      match page.anchorText
      case None => None
      case Some(text) => FindCid(Strip(text))
  }

  /** On a fetched page with an identifier link, the CID is the first match in
      the link text as displayed, surrounding whitespace or not. */
  lemma ExtractCidSearchesLinkText(page: DetailPage)
    requires page.status == HttpOk && page.anchorText.Some?
    ensures ExtractCid(page) == FindCid(page.anchorText.value)
  {
    FindCidIgnoresStrip(page.anchorText.value);
  }
}
