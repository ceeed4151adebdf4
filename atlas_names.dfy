/**
 * The string logic of AtlasHandler.cs: the ".png" suffix test both operations start with, the
 * metadata name `atlasName.Replace(".png", ".json")`, Path.Combine, and the lower-casing that the
 * file pattern "*.png" and the parser's option switch rely on.
 */
module AtlasNames {

  const PngSuffix := ".png"
  const JsonSuffix := ".json"

  /** The character ToLower gives for c, on ASCII letters; every other character is kept. */
  function LowerChar(c: char): (d: char)
    ensures 'A' <= c <= 'Z' ==> d as int == c as int + 32
    ensures !('A' <= c <= 'Z') ==> d == c
  {
    if 'A' <= c <= 'Z' then (c as int + 32) as char else c
  }

  /** String.ToLower, character by character. */
  function ToLower(s: string): (t: string)
    ensures |t| == |s| && forall k :: 0 <= k < |s| ==> t[k] == LowerChar(s[k])
  {
    seq(|s|, k requires 0 <= k < |s| => LowerChar(s[k]))
  }

  /** String.EndsWith(suffix), compared character by character: s is some text followed by suffix. */
  function EndsWith(s: string, suffix: string): (r: bool)
    ensures r <==> |suffix| <= |s| && s == s[..|s| - |suffix|] + suffix
  {
    |suffix| <= |s| && s[|s| - |suffix|..] == suffix
  }

  /** Whether pat occurs in s starting at index i. */
  predicate OccursAt(s: string, pat: string, i: int)
  {
    0 <= i && i + |pat| <= |s| && s[i..i + |pat|] == pat
  }

  /**
   * String.Replace(pat, rep): every occurrence of pat, found from left to right without overlap,
   * is replaced by rep.
   */
  function Replace(s: string, pat: string, rep: string): (r: string)
    requires |pat| > 0
    ensures rep == pat ==> r == s
    ensures |rep| == |pat| ==> |r| == |s|
    decreases |s|
  {
    if |s| < |pat| then s
    else if s[..|pat|] == pat then rep + Replace(s[|pat|..], pat, rep)
    else [s[0]] + Replace(s[1..], pat, rep)
  }

  /**
   * The metadata file name derived from an atlas name. For a name that ends in ".png" the last
   * ".png" becomes ".json" and the rest of the name goes through the same replacement.
   */
  function JsonName(atlasName: string): (jsonName: string)
    ensures EndsWith(atlasName, PngSuffix) ==>
              jsonName == Replace(atlasName[..|atlasName| - |PngSuffix|], PngSuffix, JsonSuffix) + JsonSuffix
  {
    if EndsWith(atlasName, PngSuffix) then
      var stem := atlasName[..|atlasName| - |PngSuffix|];
      ReplaceTrailingPng(stem);
      assert atlasName == stem + PngSuffix;
      Replace(atlasName, PngSuffix, JsonSuffix)
    else Replace(atlasName, PngSuffix, JsonSuffix)
  }

  /** A string in which pat does not occur is left as it is. */
  lemma {:induction false} ReplaceWithoutMatch(s: string, pat: string, rep: string)
    requires |pat| > 0
    requires forall i :: 0 <= i < |s| ==> !OccursAt(s, pat, i)
    ensures Replace(s, pat, rep) == s
    decreases |s|
  {
    if |s| >= |pat| {
      assert !OccursAt(s, pat, 0);
      forall i | 0 <= i < |s[1..]|
        ensures !OccursAt(s[1..], pat, i)
      {
        if i + |pat| <= |s[1..]| {
          assert !OccursAt(s, pat, i + 1);
          assert s[1..][i..i + |pat|] == s[i + 1..i + 1 + |pat|];
        }
      }
      ReplaceWithoutMatch(s[1..], pat, rep);
    }
  }

  /**
   * A trailing ".png" becomes a trailing ".json", and the rest of the name goes through the same
   * replacement: no occurrence straddles the boundary, because ".png" begins with a '.' that
   * occurs nowhere else in it.
   */
  lemma ReplaceTrailingPng(t: string)
    ensures Replace(t + PngSuffix, PngSuffix, JsonSuffix) == Replace(t, PngSuffix, JsonSuffix) + JsonSuffix
  {
    assert PngSuffix[1..] == "png";
    ReplaceTrailing(t, PngSuffix, JsonSuffix);
  }

  /** The same for any pattern whose first character occurs nowhere else in it. */
  lemma {:induction false} ReplaceTrailing(t: string, pat: string, rep: string)
    requires |pat| > 0 && pat[0] !in pat[1..]
    ensures Replace(t + pat, pat, rep) == Replace(t, pat, rep) + rep
    decreases |t|
  {
    var n := |pat|;
    if |t| == 0 {
      assert t + pat == pat && pat[n..] == [];
    } else if |t| < n || t[..n] != pat {
      ReplaceTrailing(t[1..], pat, rep);
      ReplaceTrailingSkip(t, pat, rep);
    } else {
      ReplaceTrailing(t[n..], pat, rep);
      ReplaceTrailingMatch(t, pat, rep);
    }
  }

  /** The step of ReplaceTrailing where t does not start with pat: its first character is kept. */
  lemma ReplaceTrailingSkip(t: string, pat: string, rep: string)
    requires |pat| > 0 && pat[0] !in pat[1..] && 0 < |t|
    requires |t| < |pat| || t[..|pat|] != pat
    requires Replace(t[1..] + pat, pat, rep) == Replace(t[1..], pat, rep) + rep
    ensures Replace(t + pat, pat, rep) == Replace(t, pat, rep) + rep
  {
    var s := t + pat;
    var n := |pat|;
    assert s[1..] == t[1..] + pat;
    if |t| < n {
      assert s[..n] != pat by {
        assert s[|t|] == pat[0] && pat[|t|] == pat[1..][|t| - 1];
      }
      ReplaceShort(t, pat, rep);
    } else {
      assert s[..n] == t[..n];
      assert Replace(s, pat, rep) == [t[0]] + Replace(s[1..], pat, rep);
      assert [t[0]] + (Replace(t[1..], pat, rep) + rep) == ([t[0]] + Replace(t[1..], pat, rep)) + rep;
    }
  }

  /** A text shorter than pat is kept, and so is what is left of it after its first character. */
  lemma ReplaceShort(t: string, pat: string, rep: string)
    requires 0 < |t| < |pat|
    ensures Replace(t, pat, rep) == t && Replace(t[1..], pat, rep) == t[1..]
  {
  }

  /** The step of ReplaceTrailing where t starts with pat: that occurrence is replaced. */
  lemma ReplaceTrailingMatch(t: string, pat: string, rep: string)
    requires |pat| > 0 && |pat| <= |t| && t[..|pat|] == pat
    requires Replace(t[|pat|..] + pat, pat, rep) == Replace(t[|pat|..], pat, rep) + rep
    ensures Replace(t + pat, pat, rep) == Replace(t, pat, rep) + rep
  {
    var s := t + pat;
    assert s[..|pat|] == t[..|pat|];
    assert s[|pat|..] == t[|pat|..] + pat;
    calc {
      Replace(s, pat, rep);
      rep + Replace(s[|pat|..], pat, rep);
      rep + (Replace(t[|pat|..], pat, rep) + rep);
      (rep + Replace(t[|pat|..], pat, rep)) + rep;
    }
  }

  /**
   * The metadata name of an atlas name that passes the suffix test ends in ".json" and differs
   * from the atlas name, so the two files never collide.
   */
  lemma JsonNameOfPng(atlasName: string)
    requires EndsWith(atlasName, PngSuffix)
    ensures JsonName(atlasName) == JsonName(atlasName[..|atlasName| - 4]) + JsonSuffix
    ensures EndsWith(JsonName(atlasName), JsonSuffix)
    ensures JsonName(atlasName) != atlasName
  {
    var j := JsonName(atlasName);
    assert j[|j| - 5..] == JsonSuffix;
    assert j[|j| - 1] == 'n' && atlasName[|atlasName| - 1] == 'g';
  }

  /** Every occurrence is replaced, not only the suffix. */
  lemma ReplaceEveryOccurrence()
    ensures JsonName("a.png.png") == "a.json.json"
  {
    var a := "a";
    ReplaceTrailingPng(a);
    ReplaceTrailingPng(a + PngSuffix);
    assert "a.png.png" == (a + PngSuffix) + PngSuffix;
    assert Replace(a, PngSuffix, JsonSuffix) == a;
    assert (a + JsonSuffix) + JsonSuffix == "a.json.json";
  }

  /**
   * Path.Combine(dir, name) with '/' as the separator: an empty part gives the other, a rooted name
   * replaces the directory, and a separator is put between the two only when dir lacks one.
   */
  function CombinePath(dir: string, name: string): (path: string)
    ensures EndsWith(path, name) || name == ""
  {
    if name == "" then dir
    else if dir == "" || name[0] == '/' then name
    else if dir[|dir| - 1] == '/' then dir + name
    else dir + "/" + name
  }
}
