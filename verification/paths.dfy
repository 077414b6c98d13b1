/** POSIX `os.path` as the repository uses it: `basename`, `dirname`,
    `join` (two arguments), `splitext` and `normpath`, following Python's
    `posixpath` module character for character. */
module Paths {
  import opened Strings

  /** `s.rfind(c)`: the index of the last `c`, or -1 when there is none. */
  function RFind(s: string, c: char): (r: int)
    ensures -1 <= r < |s|
    ensures r >= 0 ==> s[r] == c
    ensures forall i :: r < i < |s| ==> s[i] != c
    decreases |s|
  {
    if |s| == 0 then -1
    else if s[|s| - 1] == c then |s| - 1
    else RFind(s[..|s| - 1], c)
  }

  lemma RFindAt(s: string, c: char, k: nat)
    requires k < |s| && s[k] == c
    requires forall i :: k < i < |s| ==> s[i] != c
    ensures RFind(s, c) == k
  {
  }

  /** `os.path.basename(p)`: everything after the last slash. */
  function Basename(p: string): (r: string)
    ensures '/' !in r && EndsWith(p, r)
  {
    p[RFind(p, '/') + 1..]
  }

  /** A name without a slash is its own basename. */
  lemma BasenameNoSlash(s: string)
    requires '/' !in s
    ensures Basename(s) == s
  {
    assert RFind(s, '/') == -1;
  }

  /** Splitting `p` at its last slash, at index `r`. */
  lemma SplitAtSlash(p: string, r: nat)
    requires r < |p| && p[r] == '/'
    ensures p == p[..r] + "/" + p[r + 1..]
  {
    assert p == p[..r] + [p[r]] + p[r + 1..];
  }

  /** The basename is exactly the last piece of `p.split("/")`, which is how
      several call sites compute it. */
  lemma BasenameIsLastPiece(p: string)
    ensures Basename(p) == Last(Split(p, '/'))
  {
    var r := RFind(p, '/');
    if r < 0 {
      assert '/' !in p;
      SplitFree(p, '/');
    } else {
      var t := p[r + 1..];
      assert '/' !in t by {
        forall i | 0 <= i < |t|
          ensures t[i] != '/'
        {
          assert t[i] == p[r + 1 + i];
        }
      }
      SplitAtSlash(p, r);
      SplitSnoc(p[..r], '/', t);
    }
  }

  /** A tail with a slash decides the basename alone. */
  lemma BasenameAppendSlash(x: string, y: string)
    requires '/' in y
    ensures Basename(x + y) == Basename(y)
  {
    var s := x + y;
    var ry := RFind(y, '/');
    forall i | |x| + ry < i < |s|
      ensures s[i] != '/'
    {
      assert s[i] == y[i - |x|];
    }
    RFindAt(s, '/', |x| + ry);
    assert s[|x| + ry + 1..] == y[ry + 1..];
  }

  /** Appending a slash-free tail keeps the last slash where it was. */
  lemma RFindAppendFree(x: string, y: string)
    requires '/' !in y
    ensures RFind(x + y, '/') == RFind(x, '/')
  {
    var s := x + y;
    var rx := RFind(x, '/');
    forall i | rx < i < |s|
      ensures s[i] != '/'
    {
      if i < |x| {
        assert s[i] == x[i];
      } else {
        assert s[i] == y[i - |x|];
      }
    }
    if rx >= 0 {
      assert s[rx] == x[rx];
      RFindAt(s, '/', rx);
    }
  }

  /** A slash-free tail adds itself to the basename. */
  lemma BasenameAppendFree(x: string, y: string)
    requires '/' !in y
    ensures Basename(x + y) == Basename(x) + y
  {
    var rx := RFind(x, '/');
    RFindAppendFree(x, y);
    assert (x + y)[rx + 1..] == x[rx + 1..] + y;
  }

  /** A slash-free tail adds itself to the basename; a tail with a slash
      decides the basename alone. */
  lemma BasenameAppend(x: string, y: string)
    ensures '/' in y ==> Basename(x + y) == Basename(y)
    ensures '/' !in y ==> Basename(x + y) == Basename(x) + y
  {
    if '/' in y {
      BasenameAppendSlash(x, y);
    } else {
      BasenameAppendFree(x, y);
    }
  }

  /** After a trailing slash, the basename is that of the tail. */
  lemma BasenameAfterSlash(a: string, b: string)
    requires |a| > 0 && a[|a| - 1] == '/'
    ensures Basename(a + b) == Basename(b)
  {
    if '/' in b {
      BasenameAppendSlash(a, b);
    } else {
      BasenameAppendFree(a, b);
      RFindAt(a, '/', |a| - 1);
      BasenameNoSlash(b);
    }
  }

  /** `head.rstrip("/")`. */
  function TrimSlashes(s: string): (r: string)
    ensures StartsWith(s, r)
    ensures |r| > 0 ==> r[|r| - 1] != '/'
    ensures forall i :: |r| <= i < |s| ==> s[i] == '/'
    decreases |s|
  {
    if |s| > 0 && s[|s| - 1] == '/' then TrimSlashes(s[..|s| - 1]) else s
  }

  predicate AllSlashes(s: string) {
    forall i :: 0 <= i < |s| ==> s[i] == '/'
  }

  /** `os.path.dirname(p)`: everything up to the last slash, with trailing
      slashes removed unless nothing but slashes is left. */
  function Dirname(p: string): (r: string)
    ensures StartsWith(p, r)
  {
    var head := p[..RFind(p, '/') + 1];
    if |head| > 0 && !AllSlashes(head) then TrimSlashes(head) else head
  }

  /** `os.path.join(a, b)`: an absolute `b` replaces `a`; otherwise a slash
      is inserted unless `a` is empty or already ends with one. */
  function PathJoin(a: string, b: string): (r: string)
    ensures EndsWith(r, b)
    ensures StartsWith(b, "/") ==> r == b
    ensures !StartsWith(b, "/") ==> StartsWith(r, a)
  {
    if StartsWith(b, "/") then b
    else if |a| == 0 || EndsWith(a, "/") then a + b
    else a + "/" + b
  }

  /** Joining never changes the basename of the second argument. */
  lemma JoinBasename(a: string, b: string)
    ensures Basename(PathJoin(a, b)) == Basename(b)
  {
    if StartsWith(b, "/") {
    } else if |a| == 0 {
      assert a + b == b;
    } else if EndsWith(a, "/") {
      assert a[|a| - 1] == '/';
      BasenameAfterSlash(a, b);
    } else {
      var a' := a + "/";
      assert a'[|a'| - 1] == '/';
      BasenameAfterSlash(a', b);
    }
  }

  lemma TrimOneSlash(s: string)
    requires |s| >= 2 && s[|s| - 1] == '/' && s[|s| - 2] != '/'
    ensures TrimSlashes(s) == s[..|s| - 1]
  {
    var t := s[..|s| - 1];
    assert t[|t| - 1] != '/';
    assert TrimSlashes(t) == t;
  }

  lemma DirnameSingleSlash(p: string)
    requires RFind(p, '/') <= 0 || p[RFind(p, '/') - 1] != '/'
    ensures RFind(p, '/') == -1 ==> Dirname(p) == ""
    ensures RFind(p, '/') == 0 ==> Dirname(p) == "/"
    ensures RFind(p, '/') > 0 ==> Dirname(p) == p[..RFind(p, '/')]
  {
    var r := RFind(p, '/');
    var head := p[..r + 1];
    if r == 0 {
      assert head == "/";
      assert AllSlashes(head);
    } else if r > 0 {
      assert head[r - 1] != '/';
      TrimOneSlash(head);
      assert head[..r] == p[..r];
    }
  }

  /** The tail after the last slash does not start with one. */
  lemma TailFree(p: string, r: nat)
    requires r < |p| && forall i :: r < i < |p| ==> p[i] != '/'
    ensures !StartsWith(p[r + 1..], "/")
  {
    if r + 1 < |p| {
      assert p[r + 1..][0] == p[r + 1];
    }
  }

  lemma DirnameJoinBasenameRelative(p: string)
    requires RFind(p, '/') < 0
    ensures PathJoin(Dirname(p), Basename(p)) == p
  {
    assert p[..0] == [] && p[0..] == p;
    assert Dirname(p) == "";
    assert Basename(p) == p;
    if |p| > 0 {
      assert p[0] != '/';
      assert !StartsWith(p, "/");
    }
    assert PathJoin("", p) == p;
  }

  lemma DirnameJoinBasenameRoot(p: string)
    requires RFind(p, '/') == 0
    ensures PathJoin(Dirname(p), Basename(p)) == p
  {
    DirnameSingleSlash(p);
    TailFree(p, 0);
    SplitAtSlash(p, 0);
    assert EndsWith("/", "/");
  }

  lemma DirnameJoinBasenameDir(p: string)
    requires RFind(p, '/') > 0 && p[RFind(p, '/') - 1] != '/'
    ensures PathJoin(Dirname(p), Basename(p)) == p
  {
    var r := RFind(p, '/');
    DirnameSingleSlash(p);
    TailFree(p, r);
    SplitAtSlash(p, r);
    assert p[..r][r - 1] != '/';
  }

  /** When the last slash of `p` is not doubled, the directory and the
      basename join back to `p`. */
  lemma DirnameJoinBasename(p: string)
    requires RFind(p, '/') <= 0 || p[RFind(p, '/') - 1] != '/'
    ensures PathJoin(Dirname(p), Basename(p)) == p
  {
    var r := RFind(p, '/');
    if r < 0 {
      DirnameJoinBasenameRelative(p);
    } else if r == 0 {
      DirnameJoinBasenameRoot(p);
    } else {
      DirnameJoinBasenameDir(p);
    }
  }

  /** `os.path.splitext(p)`: the extension starts at the last dot of the
      basename, provided some non-dot character precedes it there. */
  function Splitext(p: string): (r: (string, string))
    ensures r.0 + r.1 == p
    ensures r.1 == "" || (r.1[0] == '.' && '.' !in r.1[1..] && '/' !in r.1)
  {
    var sep := RFind(p, '/');
    var dot := RFind(p, '.');
    if dot > sep && exists k :: sep + 1 <= k < dot && p[k] != '.' then
      assert p[dot..][1..] == p[dot + 1..];
      (p[..dot], p[dot..])
    else (p, "")
  }

  /** A name with a proper stem splits at the extension that was appended
      to it. */
  lemma SplitextAppend(stem: string, ext: string)
    requires |ext| > 0 && ext[0] == '.' && '.' !in ext[1..] && '/' !in ext
    requires exists k :: RFind(stem, '/') < k < |stem| && stem[k] != '.'
    ensures Splitext(stem + ext) == (stem, ext)
  {
    var p := stem + ext;
    var k :| RFind(stem, '/') < k < |stem| && stem[k] != '.';
    forall i | |stem| < i < |p|
      ensures p[i] != '.'
    {
      assert p[i] == ext[1..][i - |stem| - 1];
    }
    RFindAt(p, '.', |stem|);
    var rs := RFind(stem, '/');
    forall i | rs < i < |p|
      ensures p[i] != '/'
    {
      if i < |stem| {
        assert p[i] == stem[i];
      } else {
        assert p[i] == ext[i - |stem|];
      }
    }
    forall i | 0 <= i < |stem|
      ensures p[i] == stem[i]
    {
    }
    assert RFind(p, '/') == rs;
    assert p[k] != '.';
    assert p[..|stem|] == stem && p[|stem|..] == ext;
  }

  // ---------------------------------------------------------------------
  // normpath

  function Repeat(c: char, n: nat): (r: string)
    ensures |r| == n && forall i :: 0 <= i < n ==> r[i] == c
  {
    seq(n, i => c)
  }

  /** One iteration of `normpath`'s component loop. */
  function NormStep(acc: seq<string>, comp: string, rooted: bool): seq<string> {
    if comp == "" || comp == "." then acc
    else if comp != ".." || (!rooted && |acc| == 0) || (|acc| > 0 && Last(acc) == "..") then acc + [comp]
    else if |acc| > 0 then acc[..|acc| - 1]
    else acc
  }

  function NormComps(comps: seq<string>, acc: seq<string>, rooted: bool): seq<string>
    decreases |comps|
  {
    if |comps| == 0 then acc
    else NormComps(comps[1..], NormStep(acc, comps[0], rooted), rooted)
  }

  /** `os.path.normpath(p)`: empty and `.` components dropped, `..`
      cancelling the component before it, one leading slash kept (two when
      there are exactly two), and `.` for an empty result. */
  function Normpath(p: string): (r: string)
    ensures |r| > 0
  {
    if |p| == 0 then "."
    else
      var slashes := if StartsWith(p, "/") then (if StartsWith(p, "//") && !StartsWith(p, "///") then 2 else 1) else 0;
      var comps := NormComps(Split(p, '/'), [], slashes > 0);
      var r := Repeat('/', slashes) + Join(comps, '/');
      if |r| == 0 then "." else r
  }

  /** A component `normpath` keeps as it is. */
  predicate PlainComponent(c: string) {
    c != "" && c != "." && c != ".."
  }

  lemma {:induction false} NormCompsPlain(comps: seq<string>, acc: seq<string>, rooted: bool)
    requires forall i :: 0 <= i < |comps| ==> PlainComponent(comps[i])
    ensures NormComps(comps, acc, rooted) == acc + comps
    decreases |comps|
  {
    if |comps| > 0 {
      NormCompsPlain(comps[1..], acc + [comps[0]], rooted);
      assert acc + [comps[0]] + comps[1..] == acc + comps;
    }
  }

  /** A relative path made of plain components is already normal. */
  lemma NormpathPlain(p: string)
    requires |p| > 0
    requires forall i :: 0 <= i < |Split(p, '/')| ==> PlainComponent(Split(p, '/')[i])
    ensures Normpath(p) == p
  {
    var parts := Split(p, '/');
    assert !StartsWith(p, "/") by {
      SplitHead(p, '/');
      assert p[0] == parts[0][0];
    }
    NormCompsPlain(parts, [], false);
    assert [] + parts == parts;
    SplitThenJoin(p, '/');
    assert Repeat('/', 0) + Join(parts, '/') == p;
  }
}
