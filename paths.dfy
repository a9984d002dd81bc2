/** POSIX path manipulation as Python's `os.path` does it (`posixpath`):
    `basename`, `dirname`, `join` and `splitext`. Paths are plain strings;
    nothing here touches a filesystem. */
module Paths {
  import opened Text

  const Sep: char := '/'

  /** `os.path.basename(p)`: everything after the last separator. */
  function Basename(p: string): (r: string)
    ensures Sep !in r
    ensures |r| <= |p| && r == p[|p| - |r|..]
    ensures Sep !in p ==> r == p
  {
    p[RFind(p, Sep) + 1..]
  }

  predicate AllSeps(s: string) {
    forall k :: 0 <= k < |s| ==> s[k] == Sep
  }

  /** `s.rstrip('/')`. */
  function StripTrailingSeps(s: string): (r: string)
    ensures |r| <= |s| && r == s[..|r|]
    ensures r == [] || r[|r| - 1] != Sep
    ensures AllSeps(s[|r|..])
  {
    if s == [] || s[|s| - 1] != Sep then s else StripTrailingSeps(s[..|s| - 1])
  }

  /** `os.path.dirname(p)`: everything before the last separator, without
      trailing separators unless it consists of separators only. The
      result is a prefix of the path; between it and the base name there
      are only separators; it ends in a separator only when it is all
      separators, and then it is everything before the base name. */
  function Dirname(p: string): (r: string)
    ensures |r| + |Basename(p)| <= |p| && r == p[..|r|]
    ensures AllSeps(p[|r|..|p| - |Basename(p)|])
    ensures AllSeps(r) ==> |r| + |Basename(p)| == |p|
    ensures !AllSeps(r) ==> r[|r| - 1] != Sep
  {
    var head := p[..RFind(p, Sep) + 1];
    assert |head| + |Basename(p)| == |p|;
    if head != [] && !AllSeps(head) then
      var r := StripTrailingSeps(head);
      assert head[|r|..] == p[|r|..|p| - |Basename(p)|];
      assert r != [];
      r
    else head
  }

  /** `os.path.join(a, b)` for two components: an absolute `b` replaces
      `a`; otherwise `b` follows `a`, with a separator inserted unless `a`
      is empty or already ends in one. */
  function PathJoin(a: string, b: string): (r: string)
    ensures b != [] && b[0] == Sep ==> r == b
    ensures !(b != [] && b[0] == Sep) && (a == [] || a[|a| - 1] == Sep) ==> r == a + b
    ensures !(b != [] && b[0] == Sep) && a != [] && a[|a| - 1] != Sep ==> r == a + [Sep] + b
  {
    if b != [] && b[0] == Sep then b
    else if a == [] || a[|a| - 1] == Sep then a + b
    else a + [Sep] + b
  }

  /** Joining a directory with a plain file name gives back that name as
      the base name. */
  lemma BasenameOfJoin(dir: string, name: string)
    requires Sep !in name
    ensures Basename(PathJoin(dir, name)) == name
  {
    var j := PathJoin(dir, name);
    if dir == [] || dir[|dir| - 1] == Sep {
      BasenameAfterSep(dir, name);
    } else {
      BasenameAfterSep(dir + [Sep], name);
      assert dir + [Sep] + name == (dir + [Sep]) + name;
    }
  }

  /** The base name of `d + name` is `name` when `d` is empty or ends in a
      separator and `name` has none. */
  lemma BasenameAfterSep(d: string, name: string)
    requires d == [] || d[|d| - 1] == Sep
    requires Sep !in name
    ensures Basename(d + name) == name
  {
    var p := d + name;
    var i := RFind(p, Sep);
    if d != [] {
      assert p[|d| - 1] == Sep;
      assert p[|d|..] == name;
    } else {
      assert p == name;
    }
  }

  predicate AllDots(s: string) {
    forall k :: 0 <= k < |s| ==> s[k] == '.'
  }

  /** `os.path.splitext(p)`: the root and the extension. The extension
      starts at the last dot of the base name, unless everything in the
      base name before that dot is a dot too (so ".bashrc" has none). */
  function SplitExt(p: string): (string, string) {
    CutWith(p, RFind(p, Sep), RFind(p, '.'))
  }

  /** The cut for a path whose last separator is at `sepIndex` and whose
      last dot is at `dotIndex`. */
  function CutWith(p: string, sepIndex: int, dotIndex: int): (string, string)
    requires -1 <= sepIndex < |p| && -1 <= dotIndex < |p|
  {
    if dotIndex > sepIndex && !AllDots(p[sepIndex + 1..dotIndex]) then
      (p[..dotIndex], p[dotIndex..])
    else
      (p, [])
  }

  /** The root and the extension put back together give the path; the
      extension is empty or a dot followed by neither a dot nor a
      separator. */
  lemma SplitExtShape(p: string)
    ensures SplitExt(p).0 + SplitExt(p).1 == p
    ensures var e := SplitExt(p).1; e == [] || (e[0] == '.' && '.' !in e[1..] && Sep !in e)
  {
    CutShape(p, RFind(p, Sep), RFind(p, '.'));
  }

  lemma CutShape(p: string, sepIndex: int, dotIndex: int)
    requires -1 <= sepIndex < |p| && -1 <= dotIndex < |p|
    requires Sep !in p[sepIndex + 1..]
    requires dotIndex >= 0 ==> p[dotIndex] == '.' && '.' !in p[dotIndex + 1..]
    ensures var r := CutWith(p, sepIndex, dotIndex);
      r.0 + r.1 == p && (r.1 == [] || (r.1[0] == '.' && '.' !in r.1[1..] && Sep !in r.1))
  {
    if dotIndex > sepIndex && !AllDots(p[sepIndex + 1..dotIndex]) {
      assert p[..dotIndex] + p[dotIndex..] == p;
      ExtensionShape(p, sepIndex, dotIndex);
    }
  }

  /** When `splitext` finds an extension: exactly when the base name has a
      character other than a dot before one of its dots. */
  lemma SplitExtCut(p: string)
    ensures var r := SplitExt(p);
      r.1 != [] ==> |p| - |Basename(p)| <= |r.0| && !AllDots(p[|p| - |Basename(p)|..|r.0|])
    ensures var r := SplitExt(p);
      r.1 == [] ==> forall j :: |p| - |Basename(p)| <= j < |p| && p[j] == '.' ==>
                                AllDots(p[|p| - |Basename(p)|..j])
  {
    var sepIndex := RFind(p, Sep);
    var dotIndex := RFind(p, '.');
    assert |p| - |Basename(p)| == sepIndex + 1;
    if dotIndex > sepIndex && !AllDots(p[sepIndex + 1..dotIndex]) {
      assert SplitExt(p) == (p[..dotIndex], p[dotIndex..]);
    } else {
      assert SplitExt(p) == (p, []);
      forall j | sepIndex + 1 <= j < |p| && p[j] == '.'
        ensures AllDots(p[sepIndex + 1..j])
      {
        AtMostLast(p, '.', j);
        AllDotsPrefix(p, sepIndex + 1, j, dotIndex);
      }
    }
  }

  lemma AtMostLast(s: string, c: char, j: nat)
    requires j < |s| && s[j] == c
    ensures j <= RFind(s, c)
  {
  }

  lemma AllDotsPrefix(p: string, i: nat, j: nat, k: nat)
    requires i <= j <= k <= |p| && AllDots(p[i..k])
    ensures AllDots(p[i..j])
  {
    forall m | 0 <= m < j - i
      ensures p[i..j][m] == '.'
    {
      assert p[i..j][m] == p[i..k][m];
    }
  }

  lemma ExtensionShape(p: string, sepIndex: int, dotIndex: nat)
    requires -1 <= sepIndex < dotIndex < |p|
    requires Sep !in p[sepIndex + 1..] && p[dotIndex] == '.' && '.' !in p[dotIndex + 1..]
    ensures var e := p[dotIndex..]; e[0] == '.' && '.' !in e[1..] && Sep !in e
  {
    assert p[dotIndex..][1..] == p[dotIndex + 1..];
    NotInSuffix(p, Sep, sepIndex + 1, dotIndex);
  }

  lemma NotInSuffix(s: string, c: char, i: nat, j: nat)
    requires i <= j <= |s| && c !in s[i..]
    ensures c !in s[j..]
  {
    assert s[j..] == s[i..][j - i..];
  }

  /** The root of `splitext`. */
  function Stem(p: string): string {
    SplitExt(p).0
  }

  /** The extension of `splitext`, with its dot. */
  function Ext(p: string): string {
    SplitExt(p).1
  }

  /** A name with at least one non-dot character and no separator, followed
      by a dot-led extension, splits back into exactly those two parts. */
  lemma SplitExtOfNamed(stem: string, ext: string)
    requires Sep !in stem && !AllDots(stem)
    requires |ext| >= 1 && ext[0] == '.' && '.' !in ext[1..] && Sep !in ext[1..]
    ensures SplitExt(stem + ext) == (stem, ext)
  {
    var p := stem + ext;
    assert p[|stem|] == '.';
    assert p[|stem| + 1..] == ext[1..];
    var dotIndex := RFind(p, '.');
    assert dotIndex == |stem|;
    var sepIndex := RFind(p, Sep);
    assert Sep !in p;
    assert p[..dotIndex] == stem;
    assert p[sepIndex + 1..dotIndex] == stem;
  }

  /** A directory prefix does not change where the extension of a file
      name starts: `splitext(d + name)` splits `name` and keeps `d` in
      front, when `d` is empty or ends in a separator. */
  lemma SplitExtUnderDir(d: string, name: string)
    requires d == [] || d[|d| - 1] == Sep
    requires Sep !in name
    ensures SplitExt(d + name) == (d + Stem(name), Ext(name))
  {
    LastSepUnderDir(d, name);
    RFindConcat(d, name, '.');
    if '.' in name {
      DottedUnderDir(d, name);
    } else {
      UndottedUnderDir(d, name);
    }
  }

  lemma DottedUnderDir(d: string, name: string)
    requires RFind(d + name, Sep) == |d| - 1 && RFind(name, Sep) == -1
    requires '.' in name && RFind(d + name, '.') == |d| + RFind(name, '.')
    ensures SplitExt(d + name) == (d + SplitExt(name).0, SplitExt(name).1)
  {
    var dn := RFind(name, '.');
    SplitExtIs(name, -1, dn);
    SplitExtIs(d + name, |d| - 1, |d| + dn);
    CutUnderDir(d, name, dn);
  }

  lemma UndottedUnderDir(d: string, name: string)
    requires RFind(d + name, Sep) == |d| - 1 && RFind(name, Sep) == -1
    requires '.' !in name && RFind(d + name, '.') == RFind(d, '.')
    ensures SplitExt(d + name) == (d + SplitExt(name).0, SplitExt(name).1)
  {
    SplitExtIs(name, -1, -1);
    SplitExtIs(d + name, |d| - 1, RFind(d, '.'));
  }

  /** Joining a directory with a plain file name keeps the name's
      extension, and the root is the directory joined with the name's root. */
  lemma SplitExtOfJoin(dir: string, name: string)
    requires Sep !in name
    ensures Ext(PathJoin(dir, name)) == Ext(name)
    ensures Stem(PathJoin(dir, name)) == PathJoin(dir, Stem(name))
  {
    SplitExtShape(name);
    assert Sep !in Stem(name) by {
      assert name == Stem(name) + Ext(name);
      assert forall c :: c in Stem(name) ==> c in name;
    }
    if dir == [] || dir[|dir| - 1] == Sep {
      SplitExtUnderDir(dir, name);
    } else {
      SplitExtUnderDir(dir + [Sep], name);
      assert dir + [Sep] + name == (dir + [Sep]) + name;
    }
  }

  lemma LastSepUnderDir(d: string, name: string)
    requires d == [] || d[|d| - 1] == Sep
    requires Sep !in name
    ensures RFind(d + name, Sep) == |d| - 1 && RFind(name, Sep) == -1
  {
    RFindConcat(d, name, Sep);
  }

  lemma SplitExtIs(p: string, sepIndex: int, dotIndex: int)
    requires RFind(p, Sep) == sepIndex && RFind(p, '.') == dotIndex
    ensures SplitExt(p) == CutWith(p, sepIndex, dotIndex)
  {
  }

  lemma CutUnderDir(d: string, name: string, dn: nat)
    requires dn < |name|
    ensures CutWith(d + name, |d| - 1, |d| + dn) ==
            (d + CutWith(name, -1, dn).0, CutWith(name, -1, dn).1)
  {
    var p := d + name;
    assert p[|d| - 1 + 1..|d| + dn] == name[-1 + 1..dn];
    assert p[..|d| + dn] == d + name[..dn];
    assert p[|d| + dn..] == name[dn..];
  }

  /** The last occurrence of `c` in `a + b` is the one in `b` when there is
      one, and otherwise the one in `a`. */
  lemma {:induction false} RFindConcat(a: string, b: string, c: char)
    ensures c in b ==> RFind(a + b, c) == |a| + RFind(b, c)
    ensures c !in b ==> RFind(a + b, c) == RFind(a, c)
    decreases |b|
  {
    if b == [] {
      assert a + b == a;
    } else {
      var front, last := b[..|b| - 1], b[|b| - 1];
      assert (a + b)[|a + b| - 1] == last;
      if last != c {
        assert (a + b)[..|a + b| - 1] == a + front;
        RFindConcat(a, front, c);
        assert c in b <==> c in front by {
          assert b == front + [last];
        }
      }
    }
  }
}
