/**
 * The few Python `str` operations the core relies on: `sep.join`, `split` on
 * one character, `strip` of one character, `endswith`, the substring test
 * `in`, `lower` and code-point ordering.
 */
module Strings {

  /** Python `sep.join(parts)`. */
  function Join(parts: seq<string>, sep: string): (r: string)
    ensures parts == [] ==> r == ""
    ensures |parts| == 1 ==> r == parts[0]
  {
    if parts == [] then ""
    else if |parts| == 1 then parts[0]
    else parts[0] + sep + Join(parts[1..], sep)
  }

  /** Joining a non-empty list extended by one part appends the separator and that part. */
  lemma {:induction false} JoinSnoc(parts: seq<string>, last: string, sep: string)
    requires parts != []
    ensures Join(parts + [last], sep) == Join(parts, sep) + sep + last
  {
    if |parts| == 1 {
      assert (parts + [last])[1..] == [last];
    } else {
      assert (parts + [last])[1..] == parts[1..] + [last];
      JoinSnoc(parts[1..], last, sep);
    }
  }

  /** Python `s.split(c)`: the maximal runs between occurrences of `c`. */
  function Split(s: string, c: char): (r: seq<string>)
    ensures |r| >= 1
    ensures forall i | 0 <= i < |r| :: c !in r[i]
    decreases |s|
  {
    if s == [] then [""]
    else
      var rest := Split(s[1..], c);
      if s[0] == c then [""] + rest
      else [[s[0]] + rest[0]] + rest[1..]
  }

  /** `c.join(s.split(c)) == s`: splitting loses nothing. */
  lemma {:induction false} JoinSplit(s: string, c: char)
    ensures Join(Split(s, c), [c]) == s
    decreases |s|
  {
    if s != [] {
      var rest := Split(s[1..], c);
      JoinSplit(s[1..], c);
      if s[0] != c {
        var r := Split(s, c);
        assert r[1..] == rest[1..];
        if |rest| > 1 {
          assert Join(rest, [c]) == rest[0] + [c] + Join(rest[1..], [c]);
        }
      }
    }
  }

  /** Splitting a joined list of separator-free parts gives the parts back. */
  lemma {:induction false} SplitJoin(parts: seq<string>, c: char)
    requires parts != []
    requires forall i | 0 <= i < |parts| :: c !in parts[i]
    ensures Split(Join(parts, [c]), c) == parts
  {
    if |parts| == 1 {
      SplitNoSep(parts[0], c);
    } else {
      var tail := parts[1..];
      assert forall i | 0 <= i < |tail| :: tail[i] == parts[i + 1];
      SplitJoin(tail, c);
      assert c !in parts[0];
      assert Join(parts, [c]) == parts[0] + [c] + Join(tail, [c]);
      SplitPrefix(parts[0], Join(tail, [c]), c);
      assert [parts[0]] + tail == parts;
    }
  }

  /** A string without the separator splits into itself. */
  lemma {:induction false} SplitNoSep(s: string, c: char)
    requires c !in s
    ensures Split(s, c) == [s]
    decreases |s|
  {
    if s != [] {
      SplitNoSep(s[1..], c);
      assert [s[0]] + s[1..] == s;
    }
  }

  /** Splitting `a + [c] + b`, where `a` has no separator, yields `a` then the parts of `b`. */
  lemma {:induction false} SplitPrefix(a: string, b: string, c: char)
    requires c !in a
    ensures Split(a + [c] + b, c) == [a] + Split(b, c)
    decreases |a|
  {
    if a == [] {
      assert (a + [c] + b)[1..] == b;
    } else {
      assert (a + [c] + b)[1..] == a[1..] + [c] + b;
      SplitPrefix(a[1..], b, c);
      assert [a[0]] + a[1..] == a;
    }
  }

  /** The last element of a non-empty list (Python `xs[-1]`). */
  function Last<T>(xs: seq<T>): T
    requires xs != []
  {
    xs[|xs| - 1]
  }

  /** Drops the leading occurrences of `c` (Python `s.lstrip(c)`). */
  function StripLeft(s: string, c: char): (r: string)
    ensures |r| <= |s| && r == s[|s| - |r|..]
    ensures r == [] || r[0] != c
    ensures forall i | 0 <= i < |s| - |r| :: s[i] == c
  {
    if s != [] && s[0] == c then StripLeft(s[1..], c) else s
  }

  /** Drops the trailing occurrences of `c` (Python `s.rstrip(c)`). */
  function StripRight(s: string, c: char): (r: string)
    ensures |r| <= |s| && r == s[..|r|]
    ensures r == [] || Last(r) != c
    ensures forall i | |r| <= i < |s| :: s[i] == c
  {
    if s != [] && Last(s) == c then StripRight(s[..|s| - 1], c) else s
  }

  /** Python `s.strip(c)`: the longest middle part that neither starts nor ends with `c`. */
  function Strip(s: string, c: char): (r: string)
    ensures r == [] || (r[0] != c && Last(r) != c)
    ensures exists i :: StrippedAt(s, r, c, i)
  {
    var l := StripLeft(s, c);
    var r := StripRight(l, c);
    StrippedBoth(s, l, r, c);
    r
  }

  /** A left strip `l` of `s` and a right strip `r` of `l` leave `r` surrounded by runs of `c` in `s`. */
  lemma StrippedBoth(s: string, l: string, r: string, c: char)
    requires |l| <= |s| && l == s[|s| - |l|..] && forall i | 0 <= i < |s| - |l| :: s[i] == c
    requires |r| <= |l| && r == l[..|r|] && forall i | |r| <= i < |l| :: l[i] == c
    ensures StrippedAt(s, r, c, |s| - |l|)
  {
    var i := |s| - |l|;
    assert s[i..i + |r|] == r;
    forall k | i + |r| <= k < |s| ensures s[k] == c {
      assert s[k] == l[k - i];
    }
  }

  /** `s` is `r` surrounded by runs of `c`, with `r` starting at index `i`. */
  predicate StrippedAt(s: string, r: string, c: char, i: int) {
    && 0 <= i <= |s| - |r|
    && s[i..i + |r|] == r
    && (forall k | 0 <= k < i :: s[k] == c)
    && (forall k | i + |r| <= k < |s| :: s[k] == c)
  }

  /** Python `s.endswith(suffix)`. */
  predicate EndsWith(s: string, suffix: string) {
    |suffix| <= |s| && s[|s| - |suffix|..] == suffix
  }

  /** Python `sub in s` for strings: `sub` occurs contiguously in `s`. */
  ghost predicate ContainsSub(s: string, sub: string) {
    exists i :: OccursAt(s, sub, i)
  }

  /** `sub` occurs in `s` starting at index `i`. */
  predicate OccursAt(s: string, sub: string, i: int) {
    0 <= i <= |s| - |sub| && s[i..i + |sub|] == sub
  }

  /** Appending `y` keeps a prefix occurrence of `p` in `x` and makes `y` a suffix. */
  lemma PrefixThenSuffix(x: string, y: string, p: string)
    requires OccursAt(x, p, 0)
    ensures OccursAt(x + y, p, 0) && EndsWith(x + y, y)
  {
    assert (x + y)[..|p|] == x[..|p|];
    assert (x + y)[|x|..] == y;
  }

  /** Executable form of `ContainsSub`, scanning start positions left to right. */
  function FindFrom(s: string, sub: string, i: nat): (r: bool)
    requires i <= |s| + 1
    ensures r <==> exists k :: i <= k && OccursAt(s, sub, k)
    decreases |s| + 1 - i
  {
    if i + |sub| > |s| then false
    else if s[i..i + |sub|] == sub then assert OccursAt(s, sub, i); true
    else
      assert !OccursAt(s, sub, i);
      assert forall k :: i <= k && OccursAt(s, sub, k) ==> i + 1 <= k;
      FindFrom(s, sub, i + 1)
  }

  /** Python `sub in s`. */
  function Contains(s: string, sub: string): (r: bool)
    ensures r <==> ContainsSub(s, sub)
  {
    FindFrom(s, sub, 0)
  }

  /** Lower-cases one ASCII letter; other characters are unchanged. */
  function LowerChar(ch: char): char {
    if 'A' <= ch <= 'Z' then (ch as int + 32) as char else ch
  }

  /** Python `s.lower()`, restricted to ASCII letters. */
  function Lower(s: string): (r: string)
    ensures |r| == |s|
    ensures forall i | 0 <= i < |s| :: r[i] == LowerChar(s[i])
  {
    if s == [] then [] else [LowerChar(s[0])] + Lower(s[1..])
  }

  /** Python's `<` on strings: lexicographic by code point, a proper prefix first. */
  predicate Less(a: string, b: string) {
    if a == [] then b != []
    else if b == [] then false
    else if a[0] != b[0] then a[0] < b[0]
    else Less(a[1..], b[1..])
  }

  /** Python's `<=` on strings. */
  predicate LessEq(a: string, b: string) {
    a == b || Less(a, b)
  }

  /** Any two strings are ordered one way or the other. */
  lemma {:induction false} LessEqTotal(a: string, b: string)
    ensures LessEq(a, b) || LessEq(b, a)
  {
    if a != [] && b != [] && a[0] == b[0] {
      LessEqTotal(a[1..], b[1..]);
      if a[1..] == b[1..] {
        assert a == [a[0]] + a[1..] && b == [b[0]] + b[1..];
      }
    }
  }

  /** `<=` on strings is transitive. */
  lemma {:induction false} LessEqTrans(a: string, b: string, c: string)
    requires LessEq(a, b) && LessEq(b, c)
    ensures LessEq(a, c)
  {
    if a != b && b != c && a != [] && b != [] && c != [] && a[0] == b[0] && b[0] == c[0] {
      LessEqTrans(a[1..], b[1..], c[1..]);
      if a[1..] == c[1..] {
        assert a == [a[0]] + a[1..] && c == [c[0]] + c[1..];
      }
    }
  }

  /** The decimal digits of `n`, as `str(n)` prints them. */
  function NatToString(n: nat): (r: string)
    ensures |r| >= 1
    ensures forall i | 0 <= i < |r| :: '0' <= r[i] <= '9'
  {
    if n < 10 then [Digit(n)] else NatToString(n / 10) + [Digit(n % 10)]
  }

  function Digit(d: nat): char
    requires d < 10
  {
    ['0', '1', '2', '3', '4', '5', '6', '7', '8', '9'][d]
  }
}
