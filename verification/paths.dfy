/** The parts of Python's posixpath that the pipeline uses to name its output
    files: basename, splitext and join, with '/' as the only separator. */
module Paths {

  const SEP: char := '/'
  const EXTSEP: char := '.'

  /** str.rfind for one character: the index of its last occurrence, or -1. */
  function RFind(s: string, c: char): (i: int)
    ensures -1 <= i < |s|
    ensures 0 <= i ==> s[i] == c
    ensures forall k :: i < k < |s| ==> s[k] != c
    decreases |s|
  {
    if |s| == 0 then -1
    else if s[|s| - 1] == c then |s| - 1
    else RFind(s[..|s| - 1], c)
  }

  /** os.path.basename: everything after the last separator. */
  function Basename(p: string): (r: string)
    ensures SEP !in r
    ensures |r| <= |p| && r == p[|p| - |r|..]
    ensures |r| < |p| ==> p[|p| - |r| - 1] == SEP
  {
    var i := RFind(p, SEP) + 1;
    assert forall c :: c in p[i..] ==> c != SEP by {
      forall c | c in p[i..] ensures c != SEP {
        var k :| 0 <= k < |p[i..]| && p[i..][k] == c;
        assert p[i + k] == c;
      }
    }
    p[i..]
  }

  predicate AllDots(s: string) {
    forall k :: 0 <= k < |s| ==> s[k] == EXTSEP
  }

  /** The last path component has an extension: some dot in it follows a
      character other than a dot (so ".bashrc" and "..x" have none). */
  ghost predicate HasExtension(p: string) {
    exists k :: RFind(p, SEP) < k < |p| && p[k] == EXTSEP && !AllDots(p[RFind(p, SEP) + 1..k])
  }

  /** os.path.splitext: (root, ext) with ext the last dot and what follows it,
      unless that dot only follows leading dots of the last component. */
  function Splitext(p: string): (r: (string, string))
    ensures r.0 + r.1 == p
    ensures r.1 != [] <==> HasExtension(p)
    ensures r.1 != [] ==> r.1[0] == EXTSEP
    ensures forall k :: 1 <= k < |r.1| ==> r.1[k] != EXTSEP && r.1[k] != SEP
  {
    var sepIndex := RFind(p, SEP);
    var dotIndex := RFind(p, EXTSEP);
    if dotIndex > sepIndex && !AllDots(p[sepIndex + 1..dotIndex]) then
      assert p[..dotIndex] + p[dotIndex..] == p;
      assert forall k :: dotIndex < k < |p| ==> p[k] != SEP;
      (p[..dotIndex], p[dotIndex..])
    else
      NoExtension(p, sepIndex, dotIndex);
      (p, [])
  }

  lemma NoExtension(p: string, sepIndex: int, dotIndex: int)
    requires sepIndex == RFind(p, SEP) && dotIndex == RFind(p, EXTSEP)
    requires !(dotIndex > sepIndex && !AllDots(p[sepIndex + 1..dotIndex]))
    ensures !HasExtension(p)
  {
    forall k | sepIndex < k < |p| && p[k] == EXTSEP
      ensures AllDots(p[sepIndex + 1..k])
    {
      assert k <= dotIndex;
      assert forall m :: sepIndex < m < dotIndex ==> p[m] == EXTSEP by {
        forall m | sepIndex < m < dotIndex ensures p[m] == EXTSEP {
          assert p[sepIndex + 1..dotIndex][m - sepIndex - 1] == p[m];
        }
      }
    }
  }

  /** os.path.join(a, b): an absolute `b` replaces `a`; otherwise one separator
      is inserted unless `a` is empty or already ends with one. */
  function Join(a: string, b: string): (r: string)
    ensures |b| > 0 && b[0] == SEP ==> r == b
    ensures !(|b| > 0 && b[0] == SEP) ==> r == a + b || r == a + [SEP] + b
    ensures !(|b| > 0 && b[0] == SEP) && |a| > 0 && a[|a| - 1] != SEP ==> r == a + [SEP] + b
    ensures !(|b| > 0 && b[0] == SEP) && (|a| == 0 || a[|a| - 1] == SEP) ==> r == a + b
  {
    if |b| > 0 && b[0] == SEP then b
    else if |a| == 0 || a[|a| - 1] == SEP then a + b
    else a + [SEP] + b
  }

  /** The basename of "dir/name" is "name". */
  lemma BasenameAfterSeparator(dir: string, name: string)
    requires SEP !in name
    ensures Basename(dir + [SEP] + name) == name
  {
    var p := dir + [SEP] + name;
    assert p[|dir|] == SEP;
    assert forall k :: |dir| < k < |p| ==> p[k] == name[k - |dir| - 1];
    assert RFind(p, SEP) == |dir|;
    assert p[|dir| + 1..] == name;
  }

  /** splitext("name.jsonl") == ("name", ".jsonl") for a plain name. */
  lemma SplitextJsonl(name: string)
    requires |name| > 0 && SEP !in name && EXTSEP !in name
    ensures Splitext(name + ".jsonl") == (name, ".jsonl")
  {
    var p := name + ".jsonl";
    assert forall k :: 0 <= k < |name| ==> p[k] == name[k];
    assert p[|name|] == EXTSEP;
    assert forall k :: |name| < k < |p| ==> p[k] == ".jsonl"[k - |name|];
    assert forall k :: |name| < k < |p| ==> p[k] != EXTSEP;
    assert RFind(p, EXTSEP) == |name|;
    assert RFind(p, SEP) == -1;
    assert p[0..|name|][0] == name[0];
    assert p[..|name|] == name;
  }

  /** f"{os.path.splitext(os.path.basename(path))[0]}{suffix}": the file
      name without its extension, followed by `suffix`. */
  function StemWith(path: string, suffix: string): (r: string)
    ensures |r| >= |suffix| && r[|r| - |suffix|..] == suffix
    ensures SEP !in suffix ==> SEP !in r
    ensures
      var stem, base := r[..|r| - |suffix|], Basename(path);
      |stem| <= |base| && stem == base[..|stem|]
    ensures r[..|r| - |suffix|] + Splitext(Basename(path)).1 == Basename(path)
  {
    var stem := Splitext(Basename(path)).0;
    StemIsPrefix(Basename(path));
    NoSepInConcat(stem, suffix);
    var r := stem + suffix;
    assert r[..|stem|] == stem && r[|stem|..] == suffix;
    r
  }

  lemma StemIsPrefix(base: string)
    requires SEP !in base
    ensures
      var stem := Splitext(base).0;
      |stem| <= |base| && stem == base[..|stem|] && SEP !in stem
  {
    var stem := Splitext(base).0;
    assert stem + Splitext(base).1 == base;
    assert stem == base[..|stem|];
    forall k | 0 <= k < |stem| ensures stem[k] != SEP {
      assert stem[k] == base[k];
    }
  }

  lemma NoSepInConcat(a: string, b: string)
    requires SEP !in a
    ensures SEP !in b ==> SEP !in a + b
  {
    if SEP !in b {
      forall k | 0 <= k < |a + b| ensures (a + b)[k] != SEP {
        if k < |a| {
          assert (a + b)[k] == a[k];
        } else {
          assert (a + b)[k] == b[k - |a|];
        }
      }
    }
  }

  /** For "dir/name.jsonl" the stem is "name". */
  lemma StemWithOfJsonl(dir: string, name: string, suffix: string)
    requires |name| > 0 && SEP !in name && EXTSEP !in name
    ensures StemWith(dir + [SEP] + name + ".jsonl", suffix) == name + suffix
  {
    assert dir + [SEP] + name + ".jsonl" == dir + [SEP] + (name + ".jsonl");
    assert SEP !in name + ".jsonl";
    BasenameAfterSeparator(dir, name + ".jsonl");
    SplitextJsonl(name);
  }
}
