/** Python `str` operations the repository relies on, over `seq<char>`:
    `startswith`, `endswith`, `in`, `split` on one separator character,
    `join`, `lower`, `strip`, `replace`, slicing with possibly negative
    bounds, and decimal formatting of integers. */
module Strings {

  predicate StartsWith(s: string, p: string) {
    |p| <= |s| && s[..|p|] == p
  }

  predicate EndsWith(s: string, p: string) {
    |p| <= |s| && s[|s| - |p|..] == p
  }

  /** Python's `p in s` for strings. */
  predicate Contains(s: string, p: string)
    decreases |s|
  {
    StartsWith(s, p) || (|s| > 0 && Contains(s[1..], p))
  }

  lemma {:induction false} ContainsSuffix(s: string, k: nat, p: string)
    requires k <= |s|
    requires Contains(s[k..], p)
    ensures Contains(s, p)
    decreases k
  {
    if k > 0 {
      assert s[1..][k - 1..] == s[k..];
      ContainsSuffix(s[1..], k - 1, p);
    }
  }

  // ---------------------------------------------------------------------
  // split / join on a single separator character

  /** `s.split(c)`: the pieces between occurrences of `c`. */
  function Split(s: string, c: char): (parts: seq<string>)
    ensures |parts| >= 1
    ensures forall i :: 0 <= i < |parts| ==> c !in parts[i]
    decreases |s|
  {
    if |s| == 0 then [""]
    else
      var rest := Split(s[1..], c);
      if s[0] == c then [""] + rest
      else
        assert c !in [s[0]] + rest[0];
        [[s[0]] + rest[0]] + rest[1..]
  }

  /** `c.join(parts)`. */
  function Join(parts: seq<string>, c: char): string
    decreases |parts|
  {
    if |parts| == 0 then ""
    else if |parts| == 1 then parts[0]
    else parts[0] + [c] + Join(parts[1..], c)
  }

  /** Joining the pieces of a split gives back the string. */
  lemma {:induction false} SplitThenJoin(s: string, c: char)
    ensures Join(Split(s, c), c) == s
    decreases |s|
  {
    if |s| > 0 {
      var rest := Split(s[1..], c);
      SplitThenJoin(s[1..], c);
      if s[0] == c {
        assert ([""] + rest)[1..] == rest;
        assert s == [c] + s[1..];
      } else if |rest| == 1 {
        assert s == [s[0]] + s[1..];
      } else {
        var parts := [[s[0]] + rest[0]] + rest[1..];
        assert parts[1..] == rest[1..];
        assert s == [s[0]] + s[1..];
      }
    }
  }

  lemma {:induction false} SplitFree(p: string, c: char)
    requires c !in p
    ensures Split(p, c) == [p]
    decreases |p|
  {
    if |p| > 0 {
      SplitFree(p[1..], c);
      assert [p[0]] + p[1..] == p;
    }
  }

  lemma {:induction false} SplitPrefix(p: string, c: char, t: string)
    requires c !in p
    ensures Split(p + [c] + t, c) == [p] + Split(t, c)
    decreases |p|
  {
    var s := p + [c] + t;
    if |p| == 0 {
      assert s[1..] == t;
    } else {
      assert s[1..] == p[1..] + [c] + t;
      SplitPrefix(p[1..], c, t);
      assert [p[0]] + p[1..] == p;
    }
  }

  /** A separator-free tail after the last separator becomes the last
      piece. */
  lemma {:induction false} SplitSnoc(p: string, c: char, t: string)
    requires c !in t
    ensures Split(p + [c] + t, c) == Split(p, c) + [t]
    decreases |p|
  {
    var s := p + [c] + t;
    if |p| == 0 {
      assert s[1..] == t;
      SplitFree(t, c);
    } else {
      assert s[1..] == p[1..] + [c] + t;
      SplitSnoc(p[1..], c, t);
      var rest := Split(p[1..], c);
      if p[0] != c {
        assert (rest + [t])[1..] == rest[1..] + [t];
      }
    }
  }

  /** Splitting a join of separator-free pieces gives back the pieces. */
  lemma {:induction false} JoinThenSplit(parts: seq<string>, c: char)
    requires |parts| >= 1
    requires forall i :: 0 <= i < |parts| ==> c !in parts[i]
    ensures Split(Join(parts, c), c) == parts
    decreases |parts|
  {
    if |parts| == 1 {
      SplitFree(parts[0], c);
    } else {
      JoinThenSplit(parts[1..], c);
      SplitPrefix(parts[0], c, Join(parts[1..], c));
      assert [parts[0]] + parts[1..] == parts;
    }
  }

  lemma {:induction false} JoinSnoc(parts: seq<string>, c: char)
    requires |parts| >= 2
    ensures Join(parts, c) == Join(parts[..|parts| - 1], c) + [c] + parts[|parts| - 1]
    decreases |parts|
  {
    if |parts| > 2 {
      JoinSnoc(parts[1..], c);
      assert parts[1..][..|parts| - 2] == parts[..|parts| - 1][1..];
    }
  }

  /** The first piece of a split is the longest separator-free prefix. */
  lemma SplitHead(s: string, c: char)
    ensures var h := Split(s, c)[0];
      StartsWith(s, h) && c !in h && (|h| == |s| || s[|h|] == c)
  {
    var parts := Split(s, c);
    SplitThenJoin(s, c);
    if |parts| > 1 {
      assert s == parts[0] + [c] + Join(parts[1..], c);
      assert s[..|parts[0]|] == parts[0];
    }
  }

  /** The last piece of a split is the longest separator-free suffix. */
  lemma SplitLast(s: string, c: char)
    ensures var parts := Split(s, c);
      var l := parts[|parts| - 1];
      EndsWith(s, l) && c !in l && (|l| == |s| || s[|s| - |l| - 1] == c)
  {
    var parts := Split(s, c);
    SplitThenJoin(s, c);
    if |parts| > 1 {
      JoinSnoc(parts, c);
      var l := parts[|parts| - 1];
      assert s == Join(parts[..|parts| - 1], c) + [c] + l;
      assert s[|s| - |l|..] == l;
    }
  }

  /** Everything before the last separator, as `c.join(s.split(c)[:-1])`
      computes it: `s` is this prefix, the separator, and a separator-free
      rest; with no separator the prefix is empty. */
  lemma SplitDropLast(s: string, c: char)
    ensures var parts := Split(s, c);
      var r := Join(parts[..|parts| - 1], c);
      (c !in s ==> r == "") &&
      (c in s ==> exists t :: c !in t && s == r + [c] + t)
  {
    var parts := Split(s, c);
    SplitThenJoin(s, c);
    if |parts| == 1 {
      assert s == parts[0];
    } else {
      JoinSnoc(parts, c);
      var t := parts[|parts| - 1];
      assert s == Join(parts[..|parts| - 1], c) + [c] + t;
      assert c in s by {
        assert s[|s| - |t| - 1] == c;
      }
    }
  }

  function Last<T>(s: seq<T>): T
    requires |s| > 0
  {
    s[|s| - 1]
  }

  // ---------------------------------------------------------------------
  // lower / strip

  /** `lower()` restricted to ASCII letters. */
  function LowerChar(ch: char): char {
    if 'A' <= ch <= 'Z' then (ch as int - 'A' as int + 'a' as int) as char else ch
  }

  function Lower(s: string): (r: string)
    ensures |r| == |s|
    ensures forall i :: 0 <= i < |s| ==> r[i] == LowerChar(s[i])
  {
    seq(|s|, i requires 0 <= i < |s| => LowerChar(s[i]))
  }

  /** Lower-casing twice is lower-casing once. */
  lemma LowerIdempotent(s: string)
    ensures Lower(Lower(s)) == Lower(s)
  {
  }

  /** The characters for which Python's `str.isspace()` holds. */
  predicate IsSpace(ch: char) {
    var n := ch as int;
    (9 <= n <= 13) || (28 <= n <= 32) || n == 0x85 || n == 0xA0 || n == 0x1680
    || (0x2000 <= n <= 0x200A) || n == 0x2028 || n == 0x2029 || n == 0x202F
    || n == 0x205F || n == 0x3000
  }

  function TrimLeft(s: string): (r: string)
    ensures |r| <= |s| && r == s[|s| - |r|..]
    ensures |r| > 0 ==> !IsSpace(r[0])
    ensures forall i :: 0 <= i < |s| - |r| ==> IsSpace(s[i])
    decreases |s|
  {
    if |s| > 0 && IsSpace(s[0]) then TrimLeft(s[1..]) else s
  }

  function TrimRight(s: string): (r: string)
    ensures |r| <= |s| && r == s[..|r|]
    ensures |r| > 0 ==> !IsSpace(r[|r| - 1])
    ensures forall i :: |r| <= i < |s| ==> IsSpace(s[i])
    decreases |s|
  {
    if |s| > 0 && IsSpace(s[|s| - 1]) then TrimRight(s[..|s| - 1]) else s
  }

  /** `s.strip()`: leading and trailing whitespace removed. */
  function Strip(s: string): string {
    TrimRight(TrimLeft(s))
  }

  /** What `strip()` keeps is a contiguous part of `s` that neither begins
      nor ends with whitespace, and only whitespace is cut on either side. */
  lemma StripIsTrim(s: string) returns (k: nat)
    ensures var r := Strip(s);
      k + |r| <= |s| && s[k..k + |r|] == r
      && (forall i :: 0 <= i < k ==> IsSpace(s[i]))
      && (forall i :: k + |r| <= i < |s| ==> IsSpace(s[i]))
      && (|r| > 0 ==> !IsSpace(r[0]) && !IsSpace(r[|r| - 1]))
  {
    var l := TrimLeft(s);
    var r := TrimRight(l);
    k := |s| - |l|;
    PrefixOfSuffix(s, l, r);
  }

  /** A prefix `r` of a suffix `l` of `s` is the slice of `s` where `l`
      starts, and what follows it in `s` is what follows it in `l`. */
  lemma PrefixOfSuffix<T>(s: seq<T>, l: seq<T>, r: seq<T>)
    requires |l| <= |s| && l == s[|s| - |l|..] && |r| <= |l| && r == l[..|r|]
    ensures var k := |s| - |l|;
      s[k..k + |r|] == r && (forall i :: k + |r| <= i < |s| ==> s[i] == l[i - k])
      && (|r| > 0 ==> r[0] == l[0])
  {
  }

  // ---------------------------------------------------------------------
  // replace

  /** `s.replace(pat, rep)`: every occurrence of `pat`, scanning left to
      right without overlaps, is replaced by `rep`. */
  function Replace(s: string, pat: string, rep: string): string
    requires |pat| > 0
    decreases |s|
  {
    if |s| == 0 then ""
    else if StartsWith(s, pat) then rep + Replace(s[|pat|..], pat, rep)
    else [s[0]] + Replace(s[1..], pat, rep)
  }

  /** If the replacement's first character does not occur in `w`, a result
      that begins with `w` comes from an input that begins with `w`. */
  lemma {:induction false} ReplaceKeepsPrefix(u: string, pat: string, rep: string, w: string)
    requires |pat| > 0 && |rep| > 0
    requires rep[0] !in w
    ensures StartsWith(Replace(u, pat, rep), w) ==> StartsWith(u, w)
    decreases |u|
  {
    var r := Replace(u, pat, rep);
    if |w| > 0 && |u| > 0 {
      if StartsWith(u, pat) {
        assert r[0] == rep[0];
      } else {
        var t := Replace(u[1..], pat, rep);
        assert r == [u[0]] + t;
        ReplaceKeepsPrefix(u[1..], pat, rep, w[1..]);
        StartsWithCons(r, w);
        StartsWithCons(u, w);
        assert r[1..] == t;
      }
    }
  }

  lemma StartsWithCons(s: string, p: string)
    requires |s| > 0 && |p| > 0
    ensures StartsWith(s, p) <==> s[0] == p[0] && StartsWith(s[1..], p[1..])
  {
    if s[0] == p[0] && StartsWith(s[1..], p[1..]) {
      assert s[..|p|] == [s[0]] + s[1..][..|p| - 1];
      assert p == [p[0]] + p[1..];
    }
    if StartsWith(s, p) {
      assert s[1..][..|p| - 1] == s[..|p|][1..];
    }
  }

  /** Text without the pattern is left as it is. */
  lemma {:induction false} ReplaceAbsent(s: string, pat: string, rep: string)
    requires |pat| > 0 && !Contains(s, pat)
    ensures Replace(s, pat, rep) == s
    decreases |s|
  {
    if |s| > 0 {
      ReplaceAbsent(s[1..], pat, rep);
      assert [s[0]] + s[1..] == s;
    }
  }

  /** Prepending text that does not contain the first character of `p`
      cannot create an occurrence of `p`. */
  lemma {:induction false} ContainsPrepend(a: string, t: string, p: string)
    requires |p| > 0 && p[0] !in a
    requires !Contains(t, p)
    ensures !Contains(a + t, p)
    decreases |a|
  {
    if |a| == 0 {
      assert a + t == t;
    } else {
      assert (a + t)[0] == a[0];
      assert !StartsWith(a + t, p);
      assert (a + t)[1..] == a[1..] + t;
      ContainsPrepend(a[1..], t, p);
    }
  }

  /** When `rep` and `pat` share neither first character, no occurrence of
      `pat` survives the replacement. */
  lemma {:induction false} ReplaceRemoves(s: string, pat: string, rep: string)
    requires |pat| > 0 && |rep| > 0
    requires pat[0] !in rep && rep[0] !in pat
    ensures !Contains(Replace(s, pat, rep), pat)
    decreases |s|
  {
    if |s| > 0 {
      if StartsWith(s, pat) {
        ReplaceRemoves(s[|pat|..], pat, rep);
        ContainsPrepend(rep, Replace(s[|pat|..], pat, rep), pat);
      } else {
        var t := Replace(s[1..], pat, rep);
        ReplaceRemoves(s[1..], pat, rep);
        var r := [s[0]] + t;
        assert r[1..] == t;
        assert rep[0] !in pat[1..];
        ReplaceKeepsPrefix(s[1..], pat, rep, pat[1..]);
        StartsWithCons(r, pat);
        StartsWithCons(s, pat);
      }
    }
  }

  /** A replacement whose text shares no first character with `w` does not
      create an occurrence of `w`. */
  lemma {:induction false} ReplaceNoNewOccurrence(s: string, pat: string, rep: string, w: string)
    requires |pat| > 0 && |rep| > 0 && |w| > 0
    requires w[0] !in rep && rep[0] !in w
    requires !Contains(s, w)
    ensures !Contains(Replace(s, pat, rep), w)
    decreases |s|
  {
    if |s| > 0 {
      if StartsWith(s, pat) {
        if Contains(s[|pat|..], w) {
          ContainsSuffix(s, |pat|, w);
        }
        ReplaceNoNewOccurrence(s[|pat|..], pat, rep, w);
        ContainsPrepend(rep, Replace(s[|pat|..], pat, rep), w);
      } else {
        var t := Replace(s[1..], pat, rep);
        ReplaceNoNewOccurrence(s[1..], pat, rep, w);
        var r := [s[0]] + t;
        assert r[1..] == t;
        ReplaceKeepsPrefix(s, pat, rep, w);
      }
    }
  }

  // ---------------------------------------------------------------------
  // slicing with Python bounds

  /** How Python clamps a slice bound `i` for a sequence of length `n`. */
  function SliceBound(i: int, n: nat): (b: nat)
    ensures b <= n
  {
    if i < 0 then (if n + i < 0 then 0 else n + i)
    else if i > n then n
    else i
  }

  /** `s[:j]`. */
  function SliceTo<T>(s: seq<T>, j: int): seq<T> {
    s[..SliceBound(j, |s|)]
  }

  /** `s[i:]`. */
  function SliceFrom<T>(s: seq<T>, i: int): seq<T> {
    s[SliceBound(i, |s|)..]
  }

  // ---------------------------------------------------------------------
  // decimal formatting, as `f"{n}"` does for an int

  function DigitChar(d: nat): char
    requires d < 10
  {
    ('0' as int + d) as char
  }

  predicate IsDigit(ch: char) {
    '0' <= ch <= '9'
  }

  function NatToString(n: nat): (s: string)
    ensures |s| > 0
    ensures forall i :: 0 <= i < |s| ==> IsDigit(s[i])
    decreases n
  {
    if n < 10 then [DigitChar(n)] else NatToString(n / 10) + [DigitChar(n % 10)]
  }

  function IntToString(i: int): string {
    if i < 0 then "-" + NatToString(-i) else NatToString(i)
  }

  /** The value of a string of decimal digits. */
  function DigitsValue(s: string): nat
    requires forall i :: 0 <= i < |s| ==> IsDigit(s[i])
    decreases |s|
  {
    if |s| == 0 then 0
    else
      assert IsDigit(s[|s| - 1]);
      10 * DigitsValue(s[..|s| - 1]) + (s[|s| - 1] as int - '0' as int)
  }

  /** Reading back the digits gives the number. */
  lemma {:induction false} NatToStringRoundTrip(n: nat)
    ensures DigitsValue(NatToString(n)) == n
    decreases n
  {
    if n >= 10 {
      NatToStringRoundTrip(n / 10);
      var s := NatToString(n);
      assert s[..|s| - 1] == NatToString(n / 10);
    }
  }
}
