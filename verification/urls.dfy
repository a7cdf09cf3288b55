/**
 The addresses the scraper requests. The plant name goes into the listing
 address with every space written as `%20` (IMPPAT.py line 84); identifiers
 and CIDs are inserted as they are.
 */
module Urls {

  const ImppatBase := "https://cb.imsc.res.in/imppat/"
  const PubChemCompound := "https://pubchem.ncbi.nlm.nih.gov/rest/pug/compound/cid/"

  /** `s.replace(' ', '%20')`. */
  function EncodeSpaces(s: string): (r: string)
    ensures ' ' !in r
    ensures ' ' !in s ==> r == s
  {
    if |s| == 0 then []
    else
      (if s[0] == ' ' then "%20" else [s[0]]) + EncodeSpaces(s[1..])
  }

  /** Each space grows by two characters; nothing else changes length. */
  lemma {:induction false} EncodeSpacesLength(s: string)
    ensures |EncodeSpaces(s)| == |s| + 2 * multiset(s)[' ']
  {
    if s != [] {
      EncodeSpacesLength(s[1..]);
      assert s == [s[0]] + s[1..];
    }
  }

  /** Encoding works character by character. */
  lemma {:induction false} EncodeSpacesAppend(a: string, b: string)
    ensures EncodeSpaces(a + b) == EncodeSpaces(a) + EncodeSpaces(b)
  {
    if a == [] {
      assert a + b == b;
    } else {
      assert (a + b)[1..] == a[1..] + b;
      EncodeSpacesAppend(a[1..], b);
    }
  }

  /** Reads every `%20` back as a space, left to right. */
  function DecodeSpaces(s: string): (r: string)
    ensures |r| <= |s|
  {
    if |s| == 0 then []
    else if |s| >= 3 && s[..3] == "%20" then " " + DecodeSpaces(s[3..])
    else [s[0]] + DecodeSpaces(s[1..])
  }

  lemma DecodeSpacesEncodedSpace(rest: string)
    ensures DecodeSpaces("%20" + rest) == " " + DecodeSpaces(rest)
  {
    var t := "%20" + rest;
    assert t[..3] == "%20" && t[3..] == rest;
  }

  lemma DecodeSpacesOther(c: char, rest: string)
    requires c != '%'
    ensures DecodeSpaces([c] + rest) == [c] + DecodeSpaces(rest)
  {
    var t := [c] + rest;
    assert t[0] == c && t[1..] == rest;
    assert |t| >= 3 ==> t[..3][0] == c;
  }

  /** Encoding loses nothing for names without a percent sign. */
  lemma {:induction false} DecodeEncodeSpaces(s: string)
    requires '%' !in s
    ensures DecodeSpaces(EncodeSpaces(s)) == s
  {
    if s != [] {
      assert s == [s[0]] + s[1..];
      DecodeEncodeSpaces(s[1..]);
      var rest := EncodeSpaces(s[1..]);
      if s[0] == ' ' {
        DecodeSpacesEncodedSpace(rest);
      } else {
        DecodeSpacesOther(s[0], rest);
      }
    }
  }

  /** A literal `%20` in a name is read back as a space, so the restriction above is needed. */
  lemma PercentNameNotRecovered()
    ensures DecodeSpaces(EncodeSpaces("%20")) == " "
  {
    assert EncodeSpaces("%20") == "%20";
    assert "%20"[..3] == "%20" && "%20"[3..] == [];
  }

  /** Encoding is not injective: a literal `%20` and a space encode alike, so
      two different plant names can request the same listing. */
  lemma {:induction false} PercentAndSpaceCollide(a: string, b: string)
    ensures a + "%20" + b != a + " " + b
    ensures EncodeSpaces(a + "%20" + b) == EncodeSpaces(a + " " + b)
    ensures PlantPageUrl(a + "%20" + b) == PlantPageUrl(a + " " + b)
  {
    assert (a + "%20" + b)[|a|] == '%';
    assert (a + " " + b)[|a|] == ' ';
    EncodeSpacesAppend(a + "%20", b);
    EncodeSpacesAppend(a, "%20");
    EncodeSpacesAppend(a + " ", b);
    EncodeSpacesAppend(a, " ");
    assert EncodeSpaces("%20") == "%20";
    assert EncodeSpaces(" ") == "%20";
  }

  /** The listing page of a plant. */
  function PlantPageUrl(plantName: string): (r: string)
    ensures var prefix := ImppatBase + "phytochemical/";
            && |prefix| <= |r|
            && r[..|prefix|] == prefix
            && r[|prefix|..] == EncodeSpaces(plantName)
    ensures ' ' !in r
    ensures |r| == |ImppatBase + "phytochemical/"| + |plantName| + 2 * multiset(plantName)[' ']
  {
    EncodeSpacesLength(plantName);
    ImppatBase + "phytochemical/" + EncodeSpaces(plantName)
  }

  /** The detail page of a compound. */
  function DetailPageUrl(identifier: string): (r: string)
    ensures var prefix := ImppatBase + "phytochemical-detailedpage/";
            && |r| == |prefix| + |identifier|
            && r[..|prefix|] == prefix
            && r[|prefix|..] == identifier
  {
    ImppatBase + "phytochemical-detailedpage/" + identifier
  }

  /** Distinct identifiers give distinct detail pages. */
  lemma DetailPageUrlInjective(a: string, b: string)
    requires DetailPageUrl(a) == DetailPageUrl(b)
    ensures a == b
  {
    var prefix := ImppatBase + "phytochemical-detailedpage/";
    assert a == DetailPageUrl(a)[|prefix|..];
    assert b == DetailPageUrl(b)[|prefix|..];
  }

  /** The PubChem request for the canonical SMILES of a CID: the CID sits
      right after the compound prefix. */
  function SmilesUrl(cid: string): (r: string)
    ensures |r| > |PubChemCompound| + |cid|
    ensures r[..|PubChemCompound|] == PubChemCompound
    ensures r[|PubChemCompound|..|PubChemCompound| + |cid|] == cid
    ensures r[|PubChemCompound| + |cid|..] == "/property/CanonicalSMILES/TXT"
  {
    PubChemCompound + cid + "/property/CanonicalSMILES/TXT"
  }

  /** Distinct CIDs give distinct PubChem requests. */
  lemma SmilesUrlInjective(a: string, b: string)
    requires SmilesUrl(a) == SmilesUrl(b)
    ensures a == b
  {
    var n := |PubChemCompound|;
    assert |a| == |SmilesUrl(a)| - n - |"/property/CanonicalSMILES/TXT"|;
    assert |a| == |b|;
    assert a == SmilesUrl(a)[n..n + |a|];
  }

  /** The MOL file of a compound's 3D structure: the identifier sits between
      the MOL folder and the `_3D.mol` suffix. */
  function StructureUrl(identifier: string): (r: string)
    ensures var prefix := ImppatBase + "images/3D/MOL/";
            && |r| == |prefix| + |identifier| + |"_3D.mol"|
            && r[..|prefix|] == prefix
            && r[|prefix|..|prefix| + |identifier|] == identifier
            && r[|prefix| + |identifier|..] == "_3D.mol"
  {
    ImppatBase + "images/3D/MOL/" + identifier + "_3D.mol"
  }

  /** Distinct identifiers give distinct structure files. */
  lemma StructureUrlInjective(a: string, b: string)
    requires StructureUrl(a) == StructureUrl(b)
    ensures a == b
  {
    var n := |ImppatBase + "images/3D/MOL/"|;
    assert |a| == |b|;
    assert a == StructureUrl(a)[n..n + |a|];
  }
}
