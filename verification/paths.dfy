/** Path strings: the POSIX `os.path` functions the plugin relies on, and the
    normalisation it applies before handing a path to the editor. */
module Paths {
  import opened Common

  /** Index of the last `c` in `s`, or -1: Python's `str.rfind`. */
  function RFind(s: string, c: char): (r: int)
    ensures -1 <= r < |s|
    ensures r >= 0 ==> s[r] == c
    ensures forall j :: r < j < |s| ==> s[j] != c
  {
    if s == [] then -1
    else if s[|s| - 1] == c then |s| - 1
    else RFind(s[..|s| - 1], c)
  }

  /** `os.path.basename`: everything after the last `/`. */
  function Basename(p: string): (r: string)
    ensures EndsWith(p, r)
    ensures '/' !in r
    ensures |r| < |p| ==> p[|p| - |r| - 1] == '/'
  {
    p[RFind(p, '/') + 1..]
  }

  predicate AllChar(s: string, c: char) {
    forall k :: 0 <= k < |s| ==> s[k] == c
  }

  function RStrip(s: string, c: char): (r: string)
    ensures StartsWith(s, r)
    ensures r == [] || r[|r| - 1] != c
    ensures AllChar(s[|r|..], c)
  {
    if s == [] || s[|s| - 1] != c then s else RStrip(s[..|s| - 1], c)
  }

  /** `os.path.dirname`: the head up to the last `/`, with trailing slashes
      removed unless the head is made only of slashes. So the path is the
      directory, then a run of slashes, then the base name; the run is empty
      exactly when the directory is made only of slashes (or is empty). */
  function Dirname(p: string): (r: string)
    ensures StartsWith(p, r)
    ensures r == [] <==> '/' !in p
    ensures |r| + |Basename(p)| <= |p| && AllChar(p[|r|..|p| - |Basename(p)|], '/')
    ensures AllChar(r, '/') ==> |r| + |Basename(p)| == |p|
    ensures !AllChar(r, '/') ==> |r| + |Basename(p)| < |p| && r[|r| - 1] != '/'
  {
    var head := p[..RFind(p, '/') + 1];
    var r := if head != [] && !AllChar(head, '/') then RStrip(head, '/') else head;
    DirnameParts(p, head, r);
    r
  }

  /** The facts Dirname states, about the head up to the last `/` and the
      base name after it. */
  lemma DirnameParts(p: string, head: string, r: string)
    requires head == p[..RFind(p, '/') + 1]
    requires r == if head != [] && !AllChar(head, '/') then RStrip(head, '/') else head
    ensures StartsWith(p, r)
    ensures r == [] <==> '/' !in p
    ensures |r| + |Basename(p)| <= |p| && AllChar(p[|r|..|p| - |Basename(p)|], '/')
    ensures AllChar(r, '/') ==> |r| + |Basename(p)| == |p|
    ensures !AllChar(r, '/') ==> |r| + |Basename(p)| < |p| && r[|r| - 1] != '/'
  {
    var i := RFind(p, '/');
    assert |head| + |Basename(p)| == |p|;
    if head != [] && !AllChar(head, '/') {
      assert head[|head| - 1] == '/';
      assert StartsWith(head, r);
      assert r != [];
      assert p[|r|..|p| - |Basename(p)|] == head[|r|..];
      assert !AllChar(r, '/');
    } else {
      assert p[|r|..|p| - |Basename(p)|] == [];
      if head == [] {
        assert '/' !in p;
      } else {
        assert head[|head| - 1] == '/';
      }
    }
  }

  /** `os.path.splitext`: the extension starts at the last dot of the last
      component, provided some character before it in that component is not a dot. */
  function SplitExt(p: string): (r: (string, string))
    ensures r.0 + r.1 == p
    ensures r.1 == [] || (r.1[0] == '.' && '/' !in r.1 && '.' !in r.1[1..])
  {
    var sep := RFind(p, '/');
    var dot := RFind(p, '.');
    if dot > sep && exists k :: sep + 1 <= k < dot && p[k] != '.' then
      assert p[..dot] + p[dot..] == p;
      (p[..dot], p[dot..])
    else (p, [])
  }

  /** When `splitext` splits: exactly when the base name has a dot after a
      character that is not a dot. With SplitExt's own ensures this fixes the
      split at the base name's last dot. */
  lemma SplitExtSplits(p: string)
    ensures var b := Basename(p);
            SplitExt(p).1 != [] <==> exists j, k :: 0 <= j < k < |b| && b[j] != '.' && b[k] == '.'
  {
    var sep := RFind(p, '/');
    var dot := RFind(p, '.');
    var b := p[sep + 1..];
    assert Basename(p) == b;
    assert SplitExt(p).1 != [] <==> dot > sep && exists k :: sep + 1 <= k < dot && p[k] != '.';
    if dot > sep && exists k :: sep + 1 <= k < dot && p[k] != '.' {
      var k :| sep + 1 <= k < dot && p[k] != '.';
      SliceWitness(p, sep + 1, k, dot);
    }
    if exists j, k :: 0 <= j < k < |b| && b[j] != '.' && b[k] == '.' {
      var j, k :| 0 <= j < k < |b| && b[j] != '.' && b[k] == '.';
      SliceWitness(p, sep + 1, sep + 1 + j, sep + 1 + k);
      assert dot >= sep + 1 + k;
    }
  }

  /** A non-dot at `j` and a dot at `k` of `p`, both from `off` on, are at
      `j - off` and `k - off` of `p[off..]`. */
  lemma SliceWitness(p: string, off: int, j: int, k: int)
    requires 0 <= off <= j < k < |p|
    ensures p[off..][j - off] == p[j] && p[off..][k - off] == p[k]
  {
  }

  /** `os.path.join(a, b)`: an absolute second component replaces the first;
      otherwise it follows the first, with one `/` added between them unless
      the first is empty or already ends in `/`. */
  function Join(a: string, b: string): (r: string)
    ensures EndsWith(r, b)
    ensures StartsWith(b, "/") ==> r == b
    ensures !StartsWith(b, "/") ==> StartsWith(r, a) && (r[|a|..] == b || r[|a|..] == "/" + b)
    ensures !StartsWith(b, "/") && a != [] && !EndsWith(a, "/") ==> r[|a|..] == "/" + b
  {
    if StartsWith(b, "/") then b
    else if a == [] || EndsWith(a, "/") then a + b
    else a + "/" + b
  }

  /** `'/'.join(['Packages', dir, file])`. */
  function PackagesPath(dir: string, file: string): string {
    "Packages/" + dir + "/" + file
  }

  /** The drive-letter pattern `^([A-Za-z]{1}):(?:/|\\)(.*)` matches. */
  predicate DriveMatch(p: string) {
    |p| >= 3 && IsAsciiLetter(p[0]) && p[1] == ':' && (p[2] == '/' || p[2] == '\\')
  }

  /** `sublime_format_path`: on Windows a leading drive `X:/` or `X:\` becomes
      `X/`; the second group `(.*)` stops at the first line feed, so on that
      branch the rest of the path is cut there. Then every backslash becomes `/`. */
  function SublimeFormatPath(windows: bool, p: string): (r: string)
    ensures '\\' !in r
    ensures windows && DriveMatch(p) ==>
              r == [p[0]] + "/" + ReplaceChar(FirstLine(p[3..]), '\\', '/')
    ensures !(windows && DriveMatch(p)) ==>
              |r| == |p| && forall i :: 0 <= i < |p| ==> r[i] == (if p[i] == '\\' then '/' else p[i])
  {
    var q := if windows && DriveMatch(p) then [p[0]] + "/" + FirstLine(p[3..]) else p;
    ReplaceChar(q, '\\', '/')
  }

  /** A path with no backslash and no drive prefix is left as it is. */
  lemma FormatFixed(windows: bool, p: string)
    requires '\\' !in p
    requires !(windows && DriveMatch(p))
    ensures SublimeFormatPath(windows, p) == p
  {
    var r := SublimeFormatPath(windows, p);
    assert forall i :: 0 <= i < |p| ==> r[i] == p[i];
  }

  /** Formatting a formatted path changes nothing. */
  lemma FormatIdempotent(windows: bool, p: string)
    ensures SublimeFormatPath(windows, SublimeFormatPath(windows, p)) == SublimeFormatPath(windows, p)
  {
    var r := SublimeFormatPath(windows, p);
    if windows && DriveMatch(p) {
      assert r[1] == '/';
    } else if windows && DriveMatch(r) {
      // the rewrite keeps p[1] == ':' and maps a backslash at p[2] to '/',
      // and p[0] is a letter in r only when it was a letter in p
      assert p[0] != '\\';
      assert DriveMatch(p);
    }
    FormatFixed(windows, r);
  }
}
