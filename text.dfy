/** String primitives of the modelled program, with the meaning Python gives
    them: `str.strip`, `str.lower`, `in`, `find`, `rfind`, `split`,
    `join` and `replace(old, new, 1)`. */
module Text {
  import opened Wrappers

  /** The characters Python's `str.isspace` accepts (and `str.strip` removes). */
  predicate IsSpace(c: char) {
    var n := c as int;
    (9 <= n <= 13) || (28 <= n <= 32) || n == 0x85 || n == 0xA0 || n == 0x1680
    || (0x2000 <= n <= 0x200A) || n == 0x2028 || n == 0x2029 || n == 0x202F
    || n == 0x205F || n == 0x3000
  }

  predicate AllSpace(s: string) {
    forall k :: 0 <= k < |s| ==> IsSpace(s[k])
  }

  /** Number of whitespace characters at the start of `s`. */
  function LeadingSpaces(s: string): (n: nat)
    ensures n <= |s|
    ensures forall k :: 0 <= k < n ==> IsSpace(s[k])
    ensures n < |s| ==> !IsSpace(s[n])
  {
    if s == [] || !IsSpace(s[0]) then 0 else 1 + LeadingSpaces(s[1..])
  }

  /** Number of whitespace characters at the end of `s`. */
  function TrailingSpaces(s: string): (n: nat)
    ensures n <= |s|
    ensures forall k :: |s| - n <= k < |s| ==> IsSpace(s[k])
    ensures n < |s| ==> !IsSpace(s[|s| - 1 - n])
  {
    if s == [] || !IsSpace(s[|s| - 1]) then 0 else 1 + TrailingSpaces(s[..|s| - 1])
  }

  /** Python's `s.strip()`: the input with its leading and its trailing
      run of whitespace cut off. */
  function Strip(s: string): (r: string)
    ensures |r| <= |s|
    ensures r != [] ==> !IsSpace(r[0]) && !IsSpace(r[|r| - 1])
    ensures r == [] <==> AllSpace(s)
    ensures !AllSpace(s) ==> LeadingSpaces(s) + TrailingSpaces(s) < |s|
                             && r == s[LeadingSpaces(s)..|s| - TrailingSpaces(s)]
  {
    var t := s[LeadingSpaces(s)..];
    StripShape(s, t);
    t[..|t| - TrailingSpaces(t)]
  }

  lemma StripShape(s: string, t: string)
    requires t == s[LeadingSpaces(s)..]
    ensures var r := t[..|t| - TrailingSpaces(t)];
      && (r != [] ==> !IsSpace(r[0]) && !IsSpace(r[|r| - 1]))
      && (r == [] <==> AllSpace(s))
      && (!AllSpace(s) ==> LeadingSpaces(s) + TrailingSpaces(s) < |s|
                           && r == s[LeadingSpaces(s)..|s| - TrailingSpaces(s)])
  {
    var r := t[..|t| - TrailingSpaces(t)];
    if AllSpace(s) {
      assert LeadingSpaces(s) == |s|;
    } else {
      var i := LeadingSpaces(s);
      TrailingOfSuffix(s, i);
      assert r != [] by {
        assert !IsSpace(t[0]);
      }
    }
  }

  /** Cutting leading characters that are followed by a non-space one does
      not change the trailing whitespace count. */
  lemma TrailingOfSuffix(s: string, i: nat)
    requires i < |s| && !IsSpace(s[i])
    ensures TrailingSpaces(s[i..]) == TrailingSpaces(s) && TrailingSpaces(s) < |s| - i
  {
    var t := s[i..];
    var m := TrailingSpaces(t);
    assert !IsSpace(t[0]);
    assert m < |t|;
    TrailingUnique(s, m);
  }

  /** A trailing run of whitespace followed on the left by a non-space
      character is the trailing whitespace. */
  lemma TrailingUnique(s: string, m: nat)
    requires m < |s| && !IsSpace(s[|s| - 1 - m])
    requires forall k :: |s| - m <= k < |s| ==> IsSpace(s[k])
    ensures TrailingSpaces(s) == m
  {
    var n := TrailingSpaces(s);
    if n < m {
      assert IsSpace(s[|s| - 1 - n]);
    }
  }

  /** Stripping is idempotent. */
  lemma StripIdempotent(s: string)
    ensures Strip(Strip(s)) == Strip(s)
  {
    StripOfTrimmed(Strip(s));
  }

  /** A string without whitespace at either end is its own strip. */
  lemma StripOfTrimmed(s: string)
    requires s != [] ==> !IsSpace(s[0]) && !IsSpace(s[|s| - 1])
    ensures Strip(s) == s
  {
  }

  /** Whitespace put in front of a string disappears when it is stripped. */
  lemma {:induction false} LeadingSpacesOfPrefixed(w: string, t: string)
    requires AllSpace(w)
    ensures LeadingSpaces(w + t) == |w| + LeadingSpaces(t)
  {
    if w != [] {
      assert (w + t)[1..] == w[1..] + t;
      LeadingSpacesOfPrefixed(w[1..], t);
    } else {
      assert w + t == t;
    }
  }

  lemma StripOfPrefixed(w: string, t: string)
    requires AllSpace(w)
    ensures Strip(w + t) == Strip(t)
  {
    LeadingSpacesOfPrefixed(w, t);
    assert (w + t)[|w| + LeadingSpaces(t)..] == t[LeadingSpaces(t)..];
  }

  /** ASCII lower-casing of one character. */
  function LowerChar(c: char): (r: char)
    ensures 'A' <= c <= 'Z' ==> r as int == c as int + 32
    ensures !('A' <= c <= 'Z') ==> r == c
  {
    if 'A' <= c <= 'Z' then (c as int + 32) as char else c
  }

  /** Python's `s.lower()`, restricted to ASCII letters. */
  function Lower(s: string): (r: string)
    ensures |r| == |s|
    ensures forall k :: 0 <= k < |s| ==> r[k] == LowerChar(s[k])
  {
    if s == [] then [] else [LowerChar(s[0])] + Lower(s[1..])
  }

  /** Lower-casing an already lower-cased string changes nothing. */
  lemma LowerIdempotent(s: string)
    ensures Lower(Lower(s)) == Lower(s)
  {
  }

  lemma LowerConcat(a: string, b: string)
    ensures Lower(a + b) == Lower(a) + Lower(b)
  {
  }

  /** `sub` occurs in `s` starting at index `i`. */
  predicate OccursAt(s: string, sub: string, i: nat) {
    i + |sub| <= |s| && s[i..i + |sub|] == sub
  }

  /** Index of the first occurrence of `sub` in `s` at or after `from`. */
  function IndexFrom(s: string, sub: string, from: nat): (r: Option<nat>)
    decreases |s| - from
    ensures r.Some? ==> from <= r.value && OccursAt(s, sub, r.value)
    ensures r.Some? ==> forall k :: from <= k < r.value ==> !OccursAt(s, sub, k)
    ensures r.None? ==> forall k :: from <= k ==> !OccursAt(s, sub, k)
  {
    if from + |sub| > |s| then None
    else if s[from..from + |sub|] == sub then Some(from)
    else IndexFrom(s, sub, from + 1)
  }

  /** Index of the first occurrence of `sub` in `s`; Python's `s.find(sub)`
      with `None` for -1. */
  function IndexOf(s: string, sub: string): (r: Option<nat>)
    ensures r.Some? ==> OccursAt(s, sub, r.value)
    ensures r.Some? ==> forall k :: 0 <= k < r.value ==> !OccursAt(s, sub, k)
    ensures r.None? ==> forall k :: !OccursAt(s, sub, k)
  {
    IndexFrom(s, sub, 0)
  }

  /** Python's `sub in s`. */
  predicate Contains(s: string, sub: string) {
    IndexOf(s, sub).Some?
  }

  lemma ContainsWhenOccurs(s: string, sub: string, i: nat)
    requires OccursAt(s, sub, i)
    ensures Contains(s, sub)
  {
  }

  /** Python's `s.find(c)` for a single character: -1 when absent. */
  function Find(s: string, c: char): (r: int)
    ensures -1 <= r < |s|
    ensures r == -1 <==> c !in s
    ensures r >= 0 ==> s[r] == c && c !in s[..r]
  {
    if s == [] then -1
    else if s[0] == c then 0
    else var k := Find(s[1..], c); if k == -1 then -1 else k + 1
  }

  /** Python's `s.rfind(c)` for a single character: -1 when absent. */
  function RFind(s: string, c: char): (r: int)
    ensures -1 <= r < |s|
    ensures r == -1 <==> c !in s
    ensures r >= 0 ==> s[r] == c && c !in s[r + 1..]
  {
    if s == [] then -1
    else if s[|s| - 1] == c then |s| - 1
    else RFind(s[..|s| - 1], c)
  }

  /** Python's `s.replace(pat, rep, 1)`: replaces the first occurrence only. */
  function ReplaceFirst(s: string, pat: string, rep: string): (r: string)
    ensures IndexOf(s, pat).None? ==> r == s
    ensures IndexOf(s, pat).Some? ==>
      var i := IndexOf(s, pat).value;
      i + |pat| <= |s| && r == s[..i] + rep + s[i + |pat|..]
  {
    match IndexOf(s, pat)
    case None => s
    case Some(i) => s[..i] + rep + s[i + |pat|..]
  }

  /** Python's `s.split(c)` for a single-character separator. */
  function Split(s: string, c: char): (r: seq<string>)
    decreases |s|
    ensures |r| >= 1
    ensures forall k :: 0 <= k < |r| ==> c !in r[k]
  {
    var i := Find(s, c);
    if i == -1 then [s] else [s[..i]] + Split(s[i + 1..], c)
  }

  /** Splitting at the first separator. */
  lemma SplitAtFirst(a: string, c: char, b: string)
    requires c !in a
    ensures Split(a + [c] + b, c) == [a] + Split(b, c)
  {
    var s := a + [c] + b;
    FindAfterPrefix(a, c, b);
    assert s[..|a|] == a;
    assert s[|a| + 1..] == b;
  }

  lemma {:induction false} FindAfterPrefix(a: string, c: char, b: string)
    requires c !in a
    ensures Find(a + [c] + b, c) == |a|
  {
    if a != [] {
      assert (a + [c] + b)[1..] == a[1..] + [c] + b;
      FindAfterPrefix(a[1..], c, b);
    }
  }

  /** Python's `sep.join(parts)`. */
  function Join(parts: seq<string>, sep: string): (r: string)
    ensures parts == [] ==> r == []
    ensures |parts| == 1 ==> r == parts[0]
    ensures parts != [] ==> |r| >= |parts[0]| && r[..|parts[0]|] == parts[0]
  {
    if parts == [] then []
    else if |parts| == 1 then parts[0]
    else parts[0] + sep + Join(parts[1..], sep)
  }

  /** Joining two non-empty lists of parts is joining each and putting one
      separator between them: with the one-part case this fixes every join. */
  lemma {:induction false} JoinConcat(a: seq<string>, b: seq<string>, sep: string)
    requires a != [] && b != []
    ensures Join(a + b, sep) == Join(a, sep) + sep + Join(b, sep)
    decreases |a|
  {
    if |a| == 1 {
      assert (a + b)[1..] == b;
    } else {
      assert (a + b)[1..] == a[1..] + b;
      JoinConcat(a[1..], b, sep);
    }
  }

  /** Every string is the join of its split: `c.join(s.split(c)) == s`. */
  lemma {:induction false} JoinSplit(s: string, c: char)
    ensures Join(Split(s, c), [c]) == s
    decreases |s|
  {
    var i := Find(s, c);
    if i != -1 {
      var head, rest := s[..i], s[i + 1..];
      JoinSplit(rest, c);
      var tail := Split(rest, c);
      assert Split(s, c) == [head] + tail;
      JoinConcat([head], tail, [c]);
      assert Join([head], [c]) == head;
      CutAt(s, i);
    }
  }

  lemma CutAt(s: string, i: nat)
    requires i < |s|
    ensures s == s[..i] + [s[i]] + s[i + 1..]
  {
    assert s[i..] == [s[i]] + s[i + 1..];
    assert s == s[..i] + s[i..];
  }

  /** Splitting a joined string at the (one-character) separator gives back
      the parts, when no part contains the separator. */
  lemma {:induction false} SplitJoin(parts: seq<string>, c: char)
    requires parts != []
    requires forall k :: 0 <= k < |parts| ==> c !in parts[k]
    ensures Split(Join(parts, [c]), c) == parts
  {
    if |parts| > 1 {
      var tail := parts[1..];
      TailHasNo(parts, c);
      SplitJoin(tail, c);
      SplitJoinStep(parts[0], tail, c);
      assert parts == [parts[0]] + tail;
    } else {
      assert Find(parts[0], c) == -1;
    }
  }

  lemma TailHasNo(parts: seq<string>, c: char)
    requires parts != []
    requires forall k :: 0 <= k < |parts| ==> c !in parts[k]
    ensures forall k :: 0 <= k < |parts[1..]| ==> c !in parts[1..][k]
  {
    forall k | 0 <= k < |parts[1..]|
      ensures c !in parts[1..][k]
    {
      assert parts[1..][k] == parts[k + 1];
    }
  }

  lemma SplitJoinStep(head: string, tail: seq<string>, c: char)
    requires tail != [] && c !in head
    ensures Split(Join([head] + tail, [c]), c) == [head] + Split(Join(tail, [c]), c)
  {
    var parts := [head] + tail;
    assert parts[0] == head && parts[1..] == tail;
    assert Join(parts, [c]) == head + [c] + Join(tail, [c]);
    SplitAtFirst(head, c, Join(tail, [c]));
  }
}
