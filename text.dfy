/** The two string operations the price helpers use: `str.replace(pat, '')` and a plain-substring search. */
module Text {

  /** `pat` occurs in `s` starting at position `i`. */
  predicate OccursAt(s: string, pat: string, i: nat)
  {
    i + |pat| <= |s| && s[i..i + |pat|] == pat
  }

  /** `pat` occurs somewhere in `s` (`re.search` for a pattern without metacharacters). */
  predicate Contains(s: string, pat: string)
  {
    exists i: nat :: i <= |s| && OccursAt(s, pat, i)
  }

  /**
   * `s.replace(pat, '')`: scanning left to right, each occurrence of `pat` is
   * dropped and the scan resumes after it; every other character is kept.
   */
  function RemoveAll(s: string, pat: string): (r: string)
    requires |pat| > 0
    ensures |r| <= |s|
    decreases |s|
  {
    if |s| < |pat| then s
    else if s[..|pat|] == pat then RemoveAll(s[|pat|..], pat)
    else [s[0]] + RemoveAll(s[1..], pat)
  }

  /** With no occurrence to remove, `replace` returns the string unchanged. */
  lemma {:induction false} RemoveAllAbsent(s: string, pat: string)
    requires |pat| > 0 && !Contains(s, pat)
    ensures RemoveAll(s, pat) == s
    decreases |s|
  {
    if |s| >= |pat| {
      assert !OccursAt(s, pat, 0);
      assert s[..|pat|] != pat;
      if Contains(s[1..], pat) {
        var i: nat :| i <= |s[1..]| && OccursAt(s[1..], pat, i);
        assert s[1..][i..i + |pat|] == s[i + 1..i + 1 + |pat|];
        assert OccursAt(s, pat, i + 1);
      }
      RemoveAllAbsent(s[1..], pat);
      assert s == [s[0]] + s[1..];
    }
  }

  /** A trailing `pat` whose first character does not occur in `code` is removed, and nothing else: `code` is left. */
  lemma {:induction false} RemoveSuffix(code: string, pat: string)
    requires |pat| > 0 && pat[0] !in code
    ensures RemoveAll(code + pat, pat) == code
    decreases |code|
  {
    var s := code + pat;
    if code == [] {
      assert s[..|pat|] == pat && s[|pat|..] == [];
    } else {
      assert s[0] == code[0] != pat[0];
      assert s[..|pat|] != pat;
      assert s[1..] == code[1..] + pat;
      RemoveSuffix(code[1..], pat);
    }
  }

  /** Appending the same suffix keeps distinct strings distinct. */
  lemma SuffixCancel(a: string, b: string, suffix: string)
    ensures a + suffix == b + suffix <==> a == b
  {
    if a + suffix == b + suffix {
      assert |a| == |b|;
      assert a == (a + suffix)[..|a|] && b == (b + suffix)[..|b|];
    }
  }
}
