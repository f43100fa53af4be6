/** POSIX path helpers with the semantics of Python's `posixpath`:
    `normpath`, `splitext`, and the "strip one leading separator" idiom the
    importer applies after normalising. The separator is '/'. */
module Paths {
  import opened Strings

  const Sep: char := '/'

  /** Index of the last `c` in `s`, or -1 (Python `str.rfind`). */
  function LastIndexOf(s: string, c: char): (r: int)
    ensures -1 <= r < |s|
    ensures r >= 0 ==> s[r] == c
    ensures forall k :: r < k < |s| ==> s[k] != c
  {
    if |s| == 0 then -1
    else if s[|s| - 1] == c then |s| - 1
    else LastIndexOf(s[..|s| - 1], c)
  }

  predicate AllDots(s: string)
  {
    forall k :: 0 <= k < |s| ==> s[k] == '.'
  }

  /** Empty, or a dot followed by anything but dots and separators. */
  predicate IsExtension(e: string)
  {
    e == "" || (e[0] == '.' && Sep !in e && '.' !in e[1..])
  }

  /** The last component of `root` (a prefix of `p`) is not made of dots only. */
  predicate HasStem(p: string, root: string)
  {
    LastIndexOf(p, Sep) + 1 <= |root| && !AllDots(root[LastIndexOf(p, Sep) + 1..])
  }

  /** Python `posixpath.splitext`: the extension starts at the last '.' of the
      last path component, unless everything before that dot in the component
      is dots too (so ".bashrc" has no extension). */
  function SplitExt(p: string): (r: (string, string))
    ensures r.0 + r.1 == p
    ensures IsExtension(r.1)
    ensures r.1 != "" ==> HasStem(p, r.0)
  {
    var sepIndex := LastIndexOf(p, Sep);
    var dotIndex := LastIndexOf(p, '.');
    if dotIndex > sepIndex && !AllDots(p[sepIndex + 1..dotIndex]) then
      ExtensionShape(p, sepIndex, dotIndex);
      StemShape(p, sepIndex, dotIndex);
      (p[..dotIndex], p[dotIndex..])
    else
      (p, "")
  }

  lemma ExtensionShape(p: string, sepIndex: int, dotIndex: int)
    requires sepIndex == LastIndexOf(p, Sep) && dotIndex == LastIndexOf(p, '.')
    requires sepIndex < dotIndex
    ensures p[..dotIndex] + p[dotIndex..] == p
    ensures IsExtension(p[dotIndex..])
  {
    var e := p[dotIndex..];
    forall k | 0 <= k < |e| ensures e[k] != Sep {
      assert e[k] == p[dotIndex + k];
    }
    forall k | 0 <= k < |e[1..]| ensures e[1..][k] != '.' {
      assert e[1..][k] == p[dotIndex + 1 + k];
    }
  }

  lemma StemShape(p: string, sepIndex: int, dotIndex: int)
    requires sepIndex == LastIndexOf(p, Sep)
    requires sepIndex < dotIndex <= |p|
    requires !AllDots(p[sepIndex + 1..dotIndex])
    ensures HasStem(p, p[..dotIndex])
  {
    assert p[..dotIndex][sepIndex + 1..] == p[sepIndex + 1..dotIndex];
  }

  /** `os.path.basename`: the part of `p` after its last separator, all of
      `p` when it has none. */
  function Basename(p: string): (r: string)
    ensures Sep !in r
    ensures |r| <= |p| && p[|p| - |r|..] == r
    ensures |r| < |p| ==> p[|p| - |r| - 1] == Sep
  {
    p[LastIndexOf(p, Sep) + 1..]
  }

  /** The leading separators `normpath` keeps: POSIX preserves exactly two
      leading slashes, while one or three or more collapse to one. */
  function InitialSlashes(p: string): nat
  {
    if StartsWith(p, "//") && !StartsWith(p, "///") then 2
    else if StartsWith(p, "/") then 1
    else 0
  }

  /** One step of the `normpath` component loop. */
  function NormStep(acc: seq<string>, comp: string, rooted: bool): seq<string>
  {
    if comp == "" || comp == "." then acc
    else if comp != ".." || (!rooted && |acc| == 0) || (|acc| > 0 && acc[|acc| - 1] == "..") then acc + [comp]
    else if |acc| > 0 then acc[..|acc| - 1]
    else acc
  }

  function NormFold(acc: seq<string>, comps: seq<string>, rooted: bool): seq<string>
    decreases |comps|
  {
    if |comps| == 0 then acc else NormFold(NormStep(acc, comps[0], rooted), comps[1..], rooted)
  }

  function Slashes(n: nat): string
  {
    if n == 0 then "" else "/" + Slashes(n - 1)
  }

  /** Python `posixpath.normpath`. The result is never empty, and it starts
      with exactly the leading separators POSIX keeps: two when the path
      starts with exactly two, one when it starts with one or three or more. */
  function NormPath(p: string): (r: string)
    ensures r != ""
    ensures StartsWith(r, "/") <==> StartsWith(p, "/")
    ensures StartsWith(r, "//") <==> StartsWith(p, "//") && !StartsWith(p, "///")
    ensures !StartsWith(r, "///")
  {
    if p == "" then
      assert "."[0] != Sep;
      "."
    else
      var n := InitialSlashes(p);
      var comps := NormFold([], Split(p, Sep), n > 0);
      NormFoldNormal([], Split(p, Sep), n > 0);
      AssembleShape(n, comps);
      Assemble(n, comps)
  }

  /** The slashes in front of normal components are the only leading ones. */
  lemma AssembleShape(n: nat, comps: seq<string>)
    requires n <= 2 && Normal(comps, n > 0)
    ensures Assemble(n, comps) != ""
    ensures StartsWith(Assemble(n, comps), "/") <==> n > 0
    ensures StartsWith(Assemble(n, comps), "//") <==> n == 2
    ensures !StartsWith(Assemble(n, comps), "///")
  {
    SlashesLength(n);
    var j := Join(comps, Sep);
    var q := Slashes(n) + j;
    if |comps| == 0 {
      assert j == "";
      assert q == Slashes(n);
      if n > 0 {
        assert q[..1] == "/";
      } else {
        assert "."[0] != Sep;
      }
      if n == 2 {
        assert q[..2] == "//";
      }
    } else {
      JoinStartsWith(comps);
      assert comps[0] != "" && comps[0][0] != Sep;
      assert j[0] == comps[0][0];
      assert q[n] == j[0];
    }
  }

  /** The leading slashes followed by the joined components, or "." when that is empty. */
  function Assemble(n: nat, comps: seq<string>): string
  {
    var q := Slashes(n) + Join(comps, Sep);
    if q == "" then "." else q
  }

  /** Remove one leading separator if there is one (`p[1:] if p.startswith(os.sep)`). */
  function StripLeadingSep(p: string): (r: string)
    ensures StartsWith(p, "/") ==> [Sep] + r == p
    ensures !StartsWith(p, "/") ==> r == p
  {
    if StartsWith(p, "/") then p[1..] else p
  }

  /** The importer's path normalisation: `normpath`, then at most one leading
      separator removed. */
  function LibraryPath(p: string): (r: string)
    ensures !StartsWith(r, "//")
    ensures StartsWith(r, "/") <==> StartsWith(p, "//") && !StartsWith(p, "///")
  {
    var n := NormPath(p);
    StripShape(n);
    StripLeadingSep(n)
  }

  /** Below at most two leading separators, removing one leaves at most one,
      and one exactly when there were two. */
  lemma StripShape(n: string)
    requires !StartsWith(n, "///")
    ensures !StartsWith(StripLeadingSep(n), "//")
    ensures StartsWith(StripLeadingSep(n), "/") <==> StartsWith(n, "//")
  {
    if StartsWith(n, "/") {
      var r := n[1..];
      assert StartsWith(r, "/") <==> StartsWith(n, "//") by {
        if |n| >= 2 {
          assert n[..2] == [n[0], n[1]] && r[..1] == [n[1]];
        }
      }
      assert StartsWith(r, "//") ==> StartsWith(n, "///") by {
        if |r| >= 2 {
          assert r[..2] == [n[1], n[2]] && n[..3] == [n[0], n[1], n[2]];
        }
      }
    } else {
      assert StartsWith(n, "//") ==> StartsWith(n, "/") by {
        if |n| >= 2 {
          assert n[..1] == [n[0]] && n[..2] == [n[0], n[1]];
        }
      }
    }
  }

  /** A component list `normpath` can produce: no empty or "." components, ".."
      only in a leading run, and no ".." at all under the root. */
  predicate Normal(cs: seq<string>, rooted: bool)
  {
    && (forall i :: 0 <= i < |cs| ==> cs[i] != "" && cs[i] != "." && Sep !in cs[i])
    && (forall i, j :: 0 <= i < j < |cs| && cs[j] == ".." ==> cs[i] == "..")
    && (rooted ==> forall i :: 0 <= i < |cs| ==> cs[i] != "..")
  }

  /** Each step of the loop keeps the accumulator normal. */
  lemma {:induction false} NormFoldNormal(acc: seq<string>, comps: seq<string>, rooted: bool)
    requires Normal(acc, rooted)
    requires forall i :: 0 <= i < |comps| ==> Sep !in comps[i]
    ensures Normal(NormFold(acc, comps, rooted), rooted)
    decreases |comps|
  {
    if |comps| > 0 {
      var next := NormStep(acc, comps[0], rooted);
      assert Normal(next, rooted) by {
        if comps[0] == "" || comps[0] == "." {
        } else if comps[0] != ".." || (!rooted && |acc| == 0) || (|acc| > 0 && acc[|acc| - 1] == "..") {
          assert next == acc + [comps[0]];
          if comps[0] == ".." {
            assert !rooted;
            forall i | 0 <= i < |acc| ensures acc[i] == ".." {
              assert acc[|acc| - 1] == "..";
            }
          }
        } else {
        }
      }
      NormFoldNormal(next, comps[1..], rooted);
    }
  }

  /** Folding over components that are already normal appends them unchanged. */
  lemma {:induction false} NormFoldOfNormal(acc: seq<string>, comps: seq<string>, rooted: bool)
    requires Normal(acc + comps, rooted)
    ensures NormFold(acc, comps, rooted) == acc + comps
    decreases |comps|
  {
    if |comps| > 0 {
      var c := comps[0];
      assert (acc + comps)[|acc|] == c;
      if c == ".." {
        assert !rooted;
        if |acc| > 0 {
          assert (acc + comps)[|acc| - 1] == acc[|acc| - 1];
        }
      }
      assert NormStep(acc, c, rooted) == acc + [c];
      assert acc + [c] + comps[1..] == acc + comps;
      NormFoldOfNormal(acc + [c], comps[1..], rooted);
    }
  }

  lemma SlashesLength(n: nat)
    ensures |Slashes(n)| == n
    ensures forall k :: 0 <= k < n ==> Slashes(n)[k] == Sep
  {
  }

  /** Normalising a path that is already normal changes nothing. */
  lemma NormPathIdempotent(p: string)
    ensures NormPath(NormPath(p)) == NormPath(p)
  {
    if p != "" {
      var n := InitialSlashes(p);
      var comps := NormFold([], Split(p, Sep), n > 0);
      NormFoldNormal([], Split(p, Sep), n > 0);
      assert NormPath(p) == Assemble(n, comps);
      AssembleIsFixed(n, comps);
    } else {
      DotIsFixed();
    }
  }

  lemma DotIsFixed()
    ensures NormPath(".") == "."
  {
    SplitNoSep(".", Sep);
    assert InitialSlashes(".") == 0;
    assert NormFold([], ["."], false) == NormFold([], [], false);
    assert Join([], Sep) == "";
  }

  /** Normal components assembled behind up to two slashes form a fixed point. */
  lemma AssembleIsFixed(n: nat, comps: seq<string>)
    requires n <= 2
    requires Normal(comps, n > 0)
    ensures NormPath(Assemble(n, comps)) == Assemble(n, comps)
  {
    SlashesLength(n);
    if |comps| == 0 {
      assert Join(comps, Sep) == "";
      if n == 0 {
        DotIsFixed();
      } else if n == 1 {
        RootIsFixed();
      } else {
        DoubleRootIsFixed();
      }
    } else if n == 0 {
      RelativeIsFixed(comps);
      assert Assemble(0, comps) == Join(comps, Sep);
    } else if n == 1 {
      RootedIsFixed(comps);
    } else {
      DoubleRootedIsFixed(comps);
    }
  }

  lemma RootIsFixed()
    ensures NormPath("/") == "/"
  {
    SplitPrefix("", "", Sep);
    assert "" + [Sep] + "" == "/";
    SplitNoSep("", Sep);
    assert Split("/", Sep) == ["", ""];
    assert InitialSlashes("/") == 1;
    assert NormFold([], ["", ""], true) == [];
    assert Join([], Sep) == "";
    assert Slashes(1) == "/";
  }

  lemma DoubleRootIsFixed()
    ensures NormPath("//") == "//"
  {
    SplitPrefix("", "/", Sep);
    assert "" + [Sep] + "/" == "//";
    RootSplit();
    assert Split("//", Sep) == ["", "", ""];
    assert InitialSlashes("//") == 2;
    assert NormFold([], ["", "", ""], true) == [];
    assert Join([], Sep) == "";
    assert Slashes(2) == "//";
  }

  lemma RootSplit()
    ensures Split("/", Sep) == ["", ""]
  {
    SplitPrefix("", "", Sep);
    assert "" + [Sep] + "" == "/";
    SplitNoSep("", Sep);
  }

  lemma RelativeIsFixed(comps: seq<string>)
    requires |comps| > 0 && Normal(comps, false)
    ensures NormPath(Join(comps, Sep)) == Join(comps, Sep)
  {
    var j := Join(comps, Sep);
    SplitJoin(comps, Sep);
    assert j != "" && j[0] != Sep by {
      JoinStartsWith(comps);
      assert comps[0] != "" && comps[0][0] != Sep;
    }
    assert NormFold([], comps, false) == comps by {
      NormFoldOfNormal([], comps, false);
      assert [] + comps == comps;
    }
    UnrootedIsFixed(j, comps);
  }

  lemma UnrootedIsFixed(j: string, comps: seq<string>)
    requires j != "" && j[0] != Sep && j == Join(comps, Sep)
    requires Split(j, Sep) == comps && NormFold([], comps, false) == comps
    ensures NormPath(j) == j
  {
    assert !StartsWith(j, "/") by {
      assert j[..1][0] == j[0];
    }
    assert InitialSlashes(j) == 0;
    NormPathFromParts(j, 0, comps, comps);
    assert Slashes(0) == "";
    assert Slashes(0) + j == j;
  }

  lemma RootedIsFixed(comps: seq<string>)
    requires |comps| > 0 && Normal(comps, true)
    ensures NormPath(Slashes(1) + Join(comps, Sep)) == Slashes(1) + Join(comps, Sep)
  {
    var j := Join(comps, Sep);
    JoinShape(comps);
    RootedFold(comps);
    RootedParts(j, comps);
    NormPathFromParts([Sep] + j, 1, [""] + comps, comps);
  }

  lemma DoubleRootedIsFixed(comps: seq<string>)
    requires |comps| > 0 && Normal(comps, true)
    ensures NormPath(Slashes(2) + Join(comps, Sep)) == Slashes(2) + Join(comps, Sep)
  {
    var j := Join(comps, Sep);
    JoinShape(comps);
    RootedFold(comps);
    DoubleRootedParts(j, comps);
    NormPathFromParts([Sep, Sep] + j, 2, ["", ""] + comps, comps);
  }

  lemma NormPathFromParts(q: string, n: nat, parts: seq<string>, comps: seq<string>)
    requires q != "" && InitialSlashes(q) == n && Split(q, Sep) == parts
    requires NormFold([], parts, n > 0) == comps
    ensures NormPath(q) == Assemble(n, comps)
  {
  }

  lemma RootedFold(comps: seq<string>)
    requires Normal(comps, true)
    ensures NormFold([], [""] + comps, true) == comps
    ensures NormFold([], ["", ""] + comps, true) == comps
  {
    assert ([""] + comps)[1..] == comps;
    assert (["", ""] + comps)[1..] == [""] + comps;
    NormFoldOfNormal([], comps, true);
    assert [] + comps == comps;
  }

  lemma RootedParts(j: string, comps: seq<string>)
    requires |j| > 0 && j[0] != Sep && Split(j, Sep) == comps
    ensures InitialSlashes([Sep] + j) == 1
    ensures Split([Sep] + j, Sep) == [""] + comps
    ensures Slashes(1) + j == [Sep] + j
  {
    SplitBehindSlash(j);
    SlashPrefixes(j, 1);
    assert Slashes(1) == [Sep];
  }

  lemma DoubleRootedParts(j: string, comps: seq<string>)
    requires |j| > 0 && j[0] != Sep && Split(j, Sep) == comps
    ensures InitialSlashes([Sep, Sep] + j) == 2
    ensures Split([Sep, Sep] + j, Sep) == ["", ""] + comps
    ensures Slashes(2) + j == [Sep, Sep] + j
  {
    DoubleSplit(j, comps);
    SlashPrefixes(j, 2);
    assert Slashes(2) == [Sep, Sep];
  }

  lemma DoubleSplit(j: string, comps: seq<string>)
    requires Split(j, Sep) == comps
    ensures Split([Sep, Sep] + j, Sep) == ["", ""] + comps
  {
    var j1 := [Sep] + j;
    SplitBehindSlash(j);
    SplitBehindSlash(j1);
    assert [Sep] + j1 == [Sep, Sep] + j;
    assert [""] + ([""] + comps) == ["", ""] + comps;
  }

  /** The number of leading slashes `normpath` keeps in front of a string that
      does not start with one. */
  lemma SlashPrefixes(j: string, n: nat)
    requires |j| > 0 && j[0] != Sep && 1 <= n <= 2
    ensures InitialSlashes(Slashes(n) + j) == n
  {
    SlashesLength(n);
    var q := Slashes(n) + j;
    assert q[n] == j[0];
    if n == 1 {
      assert !StartsWith(q, "//");
      assert q[..1] == "/";
    } else {
      assert !StartsWith(q, "///");
      assert q[..2] == "//";
    }
  }

  /** A join of normal components splits back into them and does not start with a separator. */
  lemma JoinShape(comps: seq<string>)
    requires |comps| > 0 && Normal(comps, true)
    ensures Split(Join(comps, Sep), Sep) == comps
    ensures |Join(comps, Sep)| > 0 && Join(comps, Sep)[0] != Sep
  {
    SplitJoin(comps, Sep);
    JoinStartsWith(comps);
    assert comps[0][0] != Sep;
  }

  lemma SplitBehindSlash(s: string)
    ensures Split([Sep] + s, Sep) == [""] + Split(s, Sep)
  {
    SplitPrefix("", s, Sep);
    assert "" + [Sep] + s == [Sep] + s;
  }

  /** A join of non-empty components starts with the first component. */
  lemma JoinStartsWith(comps: seq<string>)
    requires |comps| > 0
    ensures StartsWith(Join(comps, Sep), comps[0])
  {
  }

  // ---------------------------------------------------------------------------
  // The last component survives normalisation

  /** A component that is neither empty, ".", nor ".." is kept by the loop. */
  lemma {:induction false} NormFoldAppend(acc: seq<string>, cs: seq<string>, c: string, rooted: bool)
    requires c != "" && c != "." && c != ".."
    ensures NormFold(acc, cs + [c], rooted) == NormFold(acc, cs, rooted) + [c]
    decreases |cs|
  {
    if |cs| == 0 {
      assert ([c])[1..] == [];
    } else {
      assert (cs + [c])[1..] == cs[1..] + [c];
      NormFoldAppend(NormStep(acc, cs[0], rooted), cs[1..], c, rooted);
    }
  }

  /** Appending a suffix that is not all dots to a path names a file that
      `normpath` keeps at the end: its base name with the suffix. */
  lemma NormPathKeepsName(x: string, s: string)
    requires Sep !in s && !AllDots(s)
    ensures EndsWith(NormPath(x + s), Basename(x) + s)
  {
    var c := Basename(x) + s;
    var front := SplitWithName(x, s);
    PlainName(Basename(x), s);
    var n := InitialSlashes(x + s);
    NormFoldAppend([], front, c, n > 0);
    AssembleEndsWith(n, NormFold([], front, n > 0), c);
  }

  /** Slashes and a join of components end with the last component. */
  lemma AssembleEndsWith(n: nat, f: seq<string>, c: string)
    requires c != ""
    ensures EndsWith(Assemble(n, f + [c]), c)
  {
    JoinEndsWith(f, c);
    var j := Join(f + [c], Sep);
    var q := Slashes(n) + j;
    assert q[|q| - |c|..] == j[|j| - |c|..];
  }

  /** The last piece of a path with a separator-free suffix is its base name
      with the suffix. */
  lemma SplitWithName(x: string, s: string) returns (front: seq<string>)
    requires Sep !in s
    ensures Split(x + s, Sep) == front + [Basename(x) + s]
  {
    var b := Basename(x);
    var c := b + s;
    var i := LastIndexOf(x, Sep);
    assert Sep !in c;
    SplitNoSep(c, Sep);
    if i < 0 {
      front := [];
      assert x + s == c;
    } else {
      front := Split(x[..i], Sep);
      assert x == x[..i] + [Sep] + b;
      assert x + s == x[..i] + [Sep] + c;
      SplitAt(x[..i], c, Sep);
    }
  }

  /** A name ending in something that is not all dots is neither empty, ".",
      nor "..". */
  lemma PlainName(b: string, s: string)
    requires !AllDots(s)
    ensures b + s != "" && b + s != "." && b + s != ".."
  {
    var c := b + s;
    var k :| 0 <= k < |s| && s[k] != '.';
    assert c[|b| + k] == s[k];
  }

  /** A join ends with its last piece. */
  lemma JoinEndsWith(f: seq<string>, c: string)
    ensures EndsWith(Join(f + [c], Sep), c)
  {
    if |f| == 0 {
      assert f + [c] == [c];
    } else {
      JoinSnoc(f, c, Sep);
    }
  }

  /** Removing a leading separator keeps a separator-free ending. */
  lemma StripKeepsEnding(r: string, c: string)
    requires EndsWith(r, c) && Sep !in c
    ensures EndsWith(StripLeadingSep(r), c)
  {
  }

  // ---------------------------------------------------------------------------
  // `splitext` of a path with a plain name appended

  /** `LastIndexOf` is characterised by its contract. */
  lemma LastIndexOfIs(s: string, c: char, i: int)
    requires -1 <= i < |s| && (i >= 0 ==> s[i] == c)
    requires forall k :: i < k < |s| ==> s[k] != c
    ensures LastIndexOf(s, c) == i
  {
  }

  /** After the dot put before a name, only the name's own characters follow. */
  lemma AfterDot(q: string, n: string, c: char)
    requires c !in n
    ensures forall k :: |q| < k < |q + "." + n| ==> (q + "." + n)[k] != c
  {
    var p := q + "." + n;
    forall k | |q| < k < |p| ensures p[k] != c {
      assert p[k] == n[k - |q| - 1];
    }
  }

  /** The dot put before a dot-free name is the last dot. */
  lemma LastDotOfName(q: string, n: string)
    requires '.' !in n
    ensures LastIndexOf(q + "." + n, '.') == |q|
  {
    AfterDot(q, n, '.');
    assert (q + "." + n)[|q|] == '.';
    LastIndexOfIs(q + "." + n, '.', |q|);
  }

  /** Appending ".n" for a name n without separators keeps the last separator. */
  lemma LastSepOfName(q: string, n: string)
    requires Sep !in n
    ensures LastIndexOf(q + "." + n, Sep) == LastIndexOf(q, Sep)
  {
    var si := LastIndexOf(q, Sep);
    AfterDot(q, n, Sep);
    BeforeDot(q, n, si);
    LastIndexOfIs(q + "." + n, Sep, si);
  }

  /** Up to and including the dot, "q.n" agrees with q followed by the dot. */
  lemma BeforeDot(q: string, n: string, si: int)
    requires si == LastIndexOf(q, Sep)
    ensures si >= 0 ==> (q + "." + n)[si] == Sep
    ensures forall k :: si < k <= |q| ==> (q + "." + n)[k] != Sep
  {
    var p := q + "." + n;
    forall k | si < k <= |q| ensures p[k] != Sep {
      if k < |q| {
        assert p[k] == q[k];
      }
    }
  }

  /** `SplitExt` when the last separator and last dot are known. */
  lemma SplitExtAt(p: string, sepIndex: int, dotIndex: int)
    requires LastIndexOf(p, Sep) == sepIndex && LastIndexOf(p, '.') == dotIndex
    requires sepIndex < dotIndex && !AllDots(p[sepIndex + 1..dotIndex])
    ensures SplitExt(p) == (p[..dotIndex], p[dotIndex..])
  {
  }

  /** `SplitExt` of `q + e` when its last dot is the first character of `e`
      and its last separator lies in `q` before a stem. */
  lemma SplitExtOfParts(p: string, q: string, e: string, sepIndex: int)
    requires p == q + e
    requires LastIndexOf(p, Sep) == sepIndex && LastIndexOf(p, '.') == |q|
    requires sepIndex < |q| && !AllDots(q[sepIndex + 1..])
    ensures SplitExt(p) == (q, e)
  {
    assert p[..|q|] == q && p[|q|..] == e;
    assert p[sepIndex + 1..|q|] == q[sepIndex + 1..];
    SplitExtAt(p, sepIndex, |q|);
  }

  /** Splitting "q.n" where n is a plain name and q's last component has a
      stem gives back q and ".n". */
  lemma SplitExtOfName(q: string, n: string)
    requires Sep !in n && '.' !in n
    requires !AllDots(q[LastIndexOf(q, Sep) + 1..])
    ensures SplitExt(q + "." + n) == (q, "." + n)
  {
    LastDotOfName(q, n);
    LastSepOfName(q, n);
    ConcatAssoc(q, ".", n);
    SplitExtOfParts(q + "." + n, q, "." + n, LastIndexOf(q, Sep));
  }

  /** Appending ".n" gives the last component a stem. */
  lemma ExtendedHasStem(q: string, n: string)
    requires |n| >= 1 && n[0] != '.' && Sep !in n
    ensures !AllDots((q + "." + n)[LastIndexOf(q + "." + n, Sep) + 1..])
  {
    var sepIndex := LastIndexOf(q, Sep);
    LastSepOfName(q, n);
    StemCharAfterDot(q, n, sepIndex);
  }

  /** The name's first character sits in the last component, after the dot. */
  lemma StemCharAfterDot(q: string, n: string, sepIndex: int)
    requires |n| >= 1 && n[0] != '.' && -1 <= sepIndex < |q|
    ensures !AllDots((q + "." + n)[sepIndex + 1..])
  {
    var p := q + "." + n;
    var t := p[sepIndex + 1..];
    assert p[|q| + 1] == n[0];
    assert t[|q| - sepIndex] == p[|q| + 1];
  }
}
