/**
 The plant name as it is made safe for use as a folder and file name
 (IMPPAT.py line 195): keep letters, digits, spaces and underscores, then
 drop trailing whitespace.
 */
module PlantName {
  import opened Text

  predicate IsSafe(c: char) {
    IsAlnum(c) || c == ' ' || c == '_'
  }

  predicate AllSafe(s: string) {
    forall i :: 0 <= i < |s| ==> IsSafe(s[i])
  }

  /** The only safe character that `rstrip` can remove is the space. */
  lemma SafeSpaceIsBlank(c: char)
    requires IsSafe(c) && IsSpace(c)
    ensures c == ' '
  {
  }

  /** Safe whitespace is made of spaces. */
  lemma TrailingSafeSpaces(f: string, k: nat)
    requires k <= |f|
    requires AllSafe(f) && SpaceBetween(f, k, |f|)
    ensures forall i :: k <= i < |f| ==> f[i] == ' '
  {
    forall i | k <= i < |f|
      ensures f[i] == ' '
    {
      SafeSpaceIsBlank(f[i]);
    }
  }

  /** The generator `c for c in name if c.isalnum() or c in (' ', '_')`, joined. */
  function KeepSafe(s: string): (r: string)
    ensures AllSafe(r)
    ensures |r| <= |s|
    ensures AllSafe(s) ==> r == s
  {
    if |s| == 0 then []
    else
      assert s == [s[0]] + s[1..];
      (if IsSafe(s[0]) then [s[0]] else []) + KeepSafe(s[1..])
  }

  /** A character survives filtering exactly when it occurs in the input and is safe. */
  lemma {:induction false} KeepSafeMembers(s: string, c: char)
    ensures c in KeepSafe(s) <==> c in s && IsSafe(c)
  {
    if s != [] {
      KeepSafeMembers(s[1..], c);
      assert s == [s[0]] + s[1..];
    }
  }

  /** Filtering works piecewise, so it keeps the order of what it keeps. */
  lemma {:induction false} KeepSafeAppend(a: string, b: string)
    ensures KeepSafe(a + b) == KeepSafe(a) + KeepSafe(b)
  {
    if a == [] {
      assert a + b == b;
    } else {
      assert (a + b)[1..] == a[1..] + b;
      KeepSafeAppend(a[1..], b);
    }
  }

  /** `safe_plant_name`: the filtered name is this result followed by spaces only. */
  function SafePlantName(name: string): (r: string)
    ensures AllSafe(r)
    ensures r == [] || r[|r| - 1] != ' '
    ensures r <= KeepSafe(name)
    ensures forall i :: |r| <= i < |KeepSafe(name)| ==> KeepSafe(name)[i] == ' '
  {
    var f := KeepSafe(name);
    var r := RStrip(f);
    TrailingSafeSpaces(f, |r|);
    assert AllSafe(r) by {
      forall i | 0 <= i < |r|
        ensures IsSafe(r[i])
      {
        assert r[i] == f[i];
      }
    }
    r
  }

  /** A safe name is its own safe name. */
  lemma SafePlantNameIdempotent(name: string)
    ensures SafePlantName(SafePlantName(name)) == SafePlantName(name)
  {
    var r := SafePlantName(name);
    assert r == [] || !IsSpace(r[|r| - 1]);
  }

  /** Leading spaces survive, trailing ones and punctuation do not. */
  lemma SafePlantNameExample()
    ensures SafePlantName(" A_b! ") == " A_b"
  {
    var f := KeepSafe(" A_b! ");
    assert KeepSafe(" ") == " ";
    assert KeepSafe("! ") == " ";
    assert KeepSafe("b! ") == "b ";
    assert KeepSafe("_b! ") == "_b ";
    assert KeepSafe("A_b! ") == "A_b ";
    assert f == " A_b ";
    TrimSpacesAt(f, 0, |f| - 1, |f|);
    assert f[..|f| - 1] == " A_b";
  }
}
