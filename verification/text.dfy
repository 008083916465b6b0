/** String helpers the pipeline takes from Python's str type: isspace, strip,
    lower (as far as the "not" test needs it), the `in` substring test and replace.
    Strings are sequences of Unicode scalar values. */
module Text {

  /** Python's str.isspace for one code point; these are exactly the characters
      that str.strip() with no argument removes. */
  predicate IsSpace(c: char) {
    var n := c as int;
    || (0x09 <= n <= 0x0D)
    || (0x1C <= n <= 0x20)
    || n == 0x85 || n == 0xA0 || n == 0x1680
    || (0x2000 <= n <= 0x200A)
    || n == 0x2028 || n == 0x2029 || n == 0x202F || n == 0x205F || n == 0x3000
  }

  predicate AllSpace(s: string) {
    forall k :: 0 <= k < |s| ==> IsSpace(s[k])
  }

  /** Neither the first nor the last character is whitespace. */
  predicate IsStripped(s: string) {
    |s| == 0 || (!IsSpace(s[0]) && !IsSpace(s[|s| - 1]))
  }

  /** `y` is `x` with whitespace, and only whitespace, cut from both ends,
      and nothing more left to cut: the meaning of `y == x.strip()`. */
  ghost predicate StripOf(x: string, y: string) {
    && IsStripped(y)
    && exists i :: CutAt(x, y, i)
  }

  /** `y` is the slice of `x` starting at `i`, and everything outside it is whitespace. */
  ghost predicate CutAt(x: string, y: string, i: int) {
    0 <= i <= |x| - |y| && y == x[i..i + |y|] && AllSpace(x[..i]) && AllSpace(x[i + |y|..])
  }

  /** str.lstrip() */
  function LStrip(s: string): (r: string)
    ensures |r| <= |s| && r == s[|s| - |r|..]
    ensures AllSpace(s[..|s| - |r|])
    ensures |r| == 0 || !IsSpace(r[0])
    decreases |s|
  {
    if |s| > 0 && IsSpace(s[0]) then
      var r := LStrip(s[1..]);
      assert s[..|s| - |r|] == [s[0]] + s[1..][..|s| - 1 - |r|];
      r
    else s
  }

  /** str.rstrip() */
  function RStrip(s: string): (r: string)
    ensures |r| <= |s| && r == s[..|r|]
    ensures AllSpace(s[|r|..])
    ensures |r| == 0 || !IsSpace(r[|r| - 1])
    decreases |s|
  {
    if |s| > 0 && IsSpace(s[|s| - 1]) then
      var r := RStrip(s[..|s| - 1]);
      assert s[|r|..] == s[..|s| - 1][|r|..] + [s[|s| - 1]];
      r
    else s
  }

  /** str.strip() */
  function Strip(s: string): (r: string)
    ensures IsStripped(r)
    ensures |r| <= |s|
    ensures |r| == |s| ==> r == s
    ensures IsStripped(s) ==> r == s
    ensures |r| == 0 <==> AllSpace(s)
  {
    StripParts(s);
    StripEmpty(s, RStrip(LStrip(s)), |s| - |LStrip(s)|);
    RStrip(LStrip(s))
  }

  lemma StripParts(s: string)
    ensures IsStripped(RStrip(LStrip(s)))
    ensures CutAt(s, RStrip(LStrip(s)), |s| - |LStrip(s)|)
  {
    var l := LStrip(s);
    var r := RStrip(l);
    var i := |s| - |l|;
    assert l == s[i..];
    assert r == l[..|r|];
    assert r == s[i..i + |r|];
    assert s[i + |r|..] == l[|r|..];
    assert AllSpace(s[..i]);
    assert AllSpace(s[i + |r|..]);
    assert IsStripped(r) by {
      if |r| > 0 {
        assert r[0] == l[0];
      }
    }
    assert CutAt(s, r, i);
  }

  lemma StripEmpty(s: string, r: string, i: nat)
    requires CutAt(s, r, i) && IsStripped(r)
    ensures |r| == 0 <==> AllSpace(s)
  {
    if |r| == 0 {
      forall k | 0 <= k < |s| ensures IsSpace(s[k]) {
        if k < i {
          assert s[..i][k] == s[k];
        } else {
          assert s[i..][k - i] == s[k];
        }
      }
    } else {
      assert r[0] == s[i];
    }
  }

  /** A string has only one stripped form: `StripOf` pins `Strip` down completely. */
  lemma StripOfUnique(x: string, y: string, z: string)
    requires StripOf(x, y) && StripOf(x, z)
    ensures y == z
  {
    var i :| CutAt(x, y, i);
    var j :| CutAt(x, z, j);
    NonSpaceInside(x, i, |y|, j, |z|);
    NonSpaceInside(x, j, |z|, i, |y|);
    if |y| > 0 && |z| > 0 {
      assert i == j && |y| == |z|;
    } else {
      assert |y| == 0 && |z| == 0;
    }
  }

  /** When x[..i] and x[i + n..] are all whitespace, a stripped non-empty slice
      x[j..j + m] lies inside x[i..i + n]. */
  lemma NonSpaceInside(x: string, i: nat, n: nat, j: nat, m: nat)
    requires i + n <= |x| && j + m <= |x|
    requires AllSpace(x[..i]) && AllSpace(x[i + n..])
    requires IsStripped(x[j..j + m])
    ensures m > 0 ==> i <= j && j + m <= i + n
  {
    assert forall k :: 0 <= k < i ==> IsSpace(x[k]) by {
      forall k | 0 <= k < i ensures IsSpace(x[k]) {
        assert x[..i][k] == x[k];
      }
    }
    assert forall k :: i + n <= k < |x| ==> IsSpace(x[k]) by {
      forall k | i + n <= k < |x| ensures IsSpace(x[k]) {
        assert x[i + n..][k - (i + n)] == x[k];
      }
    }
    if m > 0 {
      assert x[j..j + m][0] == x[j];
      assert x[j..j + m][m - 1] == x[j + m - 1];
    }
  }

  /** `Strip` is exactly Python's strip as characterised by `StripOf`. */
  lemma StripCharacterised(x: string, y: string)
    ensures StripOf(x, y) <==> y == Strip(x)
  {
    StripParts(x);
    if StripOf(x, y) {
      StripOfUnique(x, y, Strip(x));
    }
  }

  /** Python's str.lower restricted to ASCII letters. */
  function Lower(c: char): (d: char)
    ensures 'A' <= c <= 'Z' ==> d as int == c as int + 32
    ensures !('A' <= c <= 'Z') ==> d == c
  {
    if 'A' <= c <= 'Z' then (c as int + 32) as char else c
  }

  function LowerStr(s: string): (r: string)
    ensures |r| == |s|
    ensures forall k :: 0 <= k < |s| ==> r[k] == Lower(s[k])
  {
    seq(|s|, k requires 0 <= k < |s| => Lower(s[k]))
  }

  ghost predicate OccursAt(s: string, pat: string, i: int) {
    0 <= i && i + |pat| <= |s| && s[i..i + |pat|] == pat
  }

  /** Python's `pat in s`, computed by scanning from the left. */
  function HasSubstring(s: string, pat: string): (b: bool)
    ensures b <==> exists i :: OccursAt(s, pat, i)
    decreases |s|
  {
    if |pat| <= |s| && s[..|pat|] == pat then
      assert OccursAt(s, pat, 0);
      true
    else if |s| == 0 then
      false
    else
      var b := HasSubstring(s[1..], pat);
      assert forall i :: OccursAt(s[1..], pat, i) ==> OccursAt(s, pat, i + 1) by {
        forall i | OccursAt(s[1..], pat, i) ensures OccursAt(s, pat, i + 1) {
          assert s[i + 1..i + 1 + |pat|] == s[1..][i..i + |pat|];
        }
      }
      assert forall i :: OccursAt(s, pat, i) ==> i == 0 || OccursAt(s[1..], pat, i - 1) by {
        forall i | OccursAt(s, pat, i) && i != 0 ensures OccursAt(s[1..], pat, i - 1) {
          assert s[i..i + |pat|] == s[1..][i - 1..i - 1 + |pat|];
        }
      }
      b
  }

  /** Python's s.replace(pat, rep) for a non-empty pattern: occurrences are found
      left to right and do not overlap. */
  function ReplaceAll(s: string, pat: string, rep: string): (r: string)
    requires |pat| > 0
    ensures forall c :: c in r ==> c in s || c in rep
    ensures !HasSubstring(s, pat) ==> r == s
    decreases |s|
  {
    if |s| < |pat| then s
    else if s[..|pat|] == pat then
      assert OccursAt(s, pat, 0);
      var t := ReplaceAll(s[|pat|..], pat, rep);
      assert forall c :: c in s[|pat|..] ==> c in s;
      rep + t
    else
      var t := ReplaceAll(s[1..], pat, rep);
      assert forall i :: OccursAt(s[1..], pat, i) ==> OccursAt(s, pat, i + 1) by {
        forall i | OccursAt(s[1..], pat, i) ensures OccursAt(s, pat, i + 1) {
          assert s[i + 1..i + 1 + |pat|] == s[1..][i..i + |pat|];
        }
      }
      assert s == [s[0]] + s[1..];
      assert forall c :: c in s[1..] ==> c in s;
      [s[0]] + t
  }

  /** A prefix that cannot start an occurrence is copied unchanged. */
  lemma {:induction false} ReplaceSkipsPrefix(a: string, b: string, pat: string, rep: string)
    requires |pat| > 0 && pat[0] !in a
    ensures ReplaceAll(a + b, pat, rep) == a + ReplaceAll(b, pat, rep)
    decreases |a|
  {
    if |a| > 0 {
      var s := a + b;
      assert s[0] == a[0] && s[0] != pat[0];
      if |s| >= |pat| {
        assert s[..|pat|] != pat;
      }
      assert s[1..] == a[1..] + b;
      ReplaceSkipsPrefix(a[1..], b, pat, rep);
      assert a == [a[0]] + a[1..];
    } else {
      assert a + b == b;
    }
  }

  /** The pattern alone is replaced by the replacement. */
  lemma ReplaceWholePattern(pat: string, rep: string)
    requires |pat| > 0
    ensures ReplaceAll(pat, pat, rep) == rep
  {
    assert pat[..|pat|] == pat;
    assert pat[|pat|..] == [];
    assert ReplaceAll([], pat, rep) == [];
    assert rep + [] == rep;
  }
}
