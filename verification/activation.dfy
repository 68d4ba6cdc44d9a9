/** Grammar activation (`set_syntax`): each candidate name is turned into the
    path `Packages/<dir>/<stem><format>` for each grammar file format, and the
    view is switched to the first such path that differs from its current
    grammar and exists. */
module Activation {
  import opened Common
  import opened Paths
  import opened Host

  /** The resource path for candidate `n` and format `fmt`, or None when the
      candidate has no directory part or names a different known format. */
  function CandidatePath(n: string, fmt: string, env: Env): (r: Option<string>)
    ensures r.Some? <==> Dirname(n) != [] &&
                         !(SplitExt(n).1 != [] && SplitExt(n).1 in env.languages && SplitExt(n).1 != fmt)
    ensures r.Some? ==> '\\' !in r.value
    ensures r.Some? && '\\' !in n && '\\' !in fmt ==>
              r.value == "Packages/" + Dirname(n) + "/" + (SplitExt(Basename(n)).0 + fmt)
  {
    var dir := Dirname(n);
    var langExt := SplitExt(n).1;
    if dir == [] then None
    else if langExt != [] && langExt in env.languages && langExt != fmt then None
    else
      var path := PackagesPath(dir, SplitExt(Basename(n)).0 + fmt);
      CandidatePathFixed(env.windows, n, fmt);
      Some(SublimeFormatPath(env.windows, path))
  }

  lemma PrefixLacks(s: string, p: string, c: char)
    requires StartsWith(s, p) && c !in s
    ensures c !in p
  {
    assert forall k :: 0 <= k < |p| ==> p[k] == s[k];
  }

  lemma SuffixLacks(s: string, p: string, c: char)
    requires EndsWith(s, p) && c !in s
    ensures c !in p
  {
    assert forall k :: 0 <= k < |p| ==> p[k] == s[|s| - |p| + k];
  }

  /** A `Packages/<dir>/<file>` path with no backslash is left as it is by
      formatting: nothing to replace, and no drive prefix. */
  lemma PackagesPathPlain(windows: bool, dir: string, file: string)
    requires '\\' !in dir && '\\' !in file
    ensures SublimeFormatPath(windows, PackagesPath(dir, file)) == PackagesPath(dir, file)
  {
    var full := PackagesPath(dir, file);
    forall i | 0 <= i < |full| ensures full[i] != '\\' {
      if 9 <= i < 9 + |dir| { assert full[i] == dir[i - 9]; }
      else if 10 + |dir| <= i { assert full[i] == file[i - 10 - |dir|]; }
    }
    assert full[1] == 'a';
    FormatFixed(windows, full);
  }

  /** The path built from a candidate and a format with no backslash is left
      as it is by formatting. */
  lemma CandidatePathFixed(windows: bool, n: string, fmt: string)
    ensures '\\' !in n && '\\' !in fmt ==>
              var path := PackagesPath(Dirname(n), SplitExt(Basename(n)).0 + fmt);
              SublimeFormatPath(windows, path) == path
  {
    if '\\' in n || '\\' in fmt {
      return;
    }
    var dir, base := Dirname(n), Basename(n);
    var stem := SplitExt(base).0;
    PrefixLacks(n, dir, '\\');
    SuffixLacks(n, base, '\\');
    assert StartsWith(base, stem) by {
      assert stem == (stem + SplitExt(base).1)[..|stem|];
    }
    PrefixLacks(base, stem, '\\');
    PackagesPathPlain(windows, dir, stem + fmt);
  }

  /** The paths one candidate gives under each format, in order. */
  function CandidatePaths(n: string, fmts: seq<string>, env: Env): (r: seq<Option<string>>)
    ensures |r| == |fmts| && forall i :: 0 <= i < |fmts| ==> r[i] == CandidatePath(n, fmts[i], env)
  {
    seq(|fmts|, i requires 0 <= i < |fmts| => CandidatePath(n, fmts[i], env))
  }

  /** The inner loop over formats, on the paths they give: a missing path is
      skipped, the current grammar stops the loop with nothing switched, and
      the first path that exists is switched to. */
  function Choose(paths: seq<Option<string>>, resources: set<string>, cur: Option<string>): (r: Option<string>)
    ensures r.Some? ==> r.value in resources && Some(r.value) != cur
  {
    if paths == [] then None
    else
      match paths[0]
      case None => Choose(paths[1..], resources, cur)
      case Some(p) =>
        if Some(p) == cur then None
        else if p in resources then Some(p)
        else Choose(paths[1..], resources, cur)
  }

  /** The format loop of `set_syntax` for candidate `n`. */
  function FormatLoop(n: string, env: Env, cur: Option<string>): Option<string> {
    Choose(CandidatePaths(n, env.languages, env), env.resources, cur)
  }

  /** A path the loop moves past: none, or neither the current grammar nor
      an existing resource. */
  predicate Passes(path: Option<string>, resources: set<string>, cur: Option<string>) {
    path.None? || (path != cur && path.value !in resources)
  }

  /** The loop stops at the first path that does not pass: it switches to it
      when it exists, or stays put when it is the current grammar. */
  lemma {:induction false} ChooseFirstHit(paths: seq<Option<string>>, resources: set<string>, cur: Option<string>, i: nat)
    requires i < |paths|
    requires !Passes(paths[i], resources, cur)
    requires forall j :: 0 <= j < i ==> Passes(paths[j], resources, cur)
    ensures Choose(paths, resources, cur) == (if paths[i] == cur then None else paths[i])
  {
    if i > 0 {
      assert Passes(paths[0], resources, cur);
      ChooseFirstHit(paths[1..], resources, cur, i - 1);
    }
  }

  /** When every path passes, the loop switches nothing. */
  lemma {:induction false} ChooseAllPass(paths: seq<Option<string>>, resources: set<string>, cur: Option<string>)
    requires forall j :: 0 <= j < |paths| ==> Passes(paths[j], resources, cur)
    ensures Choose(paths, resources, cur) == None
  {
    if paths != [] {
      assert Passes(paths[0], resources, cur);
      ChooseAllPass(paths[1..], resources, cur);
    }
  }

  /** The grammar after a run that made `calls`, starting from `cur`. */
  function AfterCalls(calls: seq<string>, cur: Option<string>): Option<string> {
    if calls == [] then cur else Some(calls[|calls| - 1])
  }

  /** The outer loop over candidates: the `break`s leave only the format loop,
      so every candidate is tried, each against the grammar the previous ones
      left. The result is the sequence of paths switched to. */
  function SetSyntaxCalls(names: seq<string>, env: Env, cur: Option<string>): (calls: seq<string>)
    ensures |calls| <= |names|
    ensures forall i :: 0 <= i < |calls| ==> calls[i] in env.resources
    ensures calls != [] ==> Some(calls[0]) != cur
  {
    if names == [] then []
    else
      var c := FormatLoop(names[0], env, cur);
      var rest := SetSyntaxCalls(names[1..], env, if c.Some? then c else cur);
      if c.Some? then [c.value] + rest else rest
  }

  /** No two consecutive switches are to the same grammar. */
  predicate NoRepeats(calls: seq<string>) {
    forall i :: 0 < i < |calls| ==> calls[i] != calls[i - 1]
  }

  lemma ConsNoRepeats(x: string, rest: seq<string>)
    requires NoRepeats(rest) && (rest != [] ==> rest[0] != x)
    ensures NoRepeats([x] + rest)
  {
    var s := [x] + rest;
    forall i | 0 < i < |s| ensures s[i] != s[i - 1] {
      assert s[i] == rest[i - 1];
      if i > 1 { assert s[i - 1] == rest[i - 2]; }
    }
  }

  /** A run never switches the view to the grammar it is already showing. */
  lemma {:induction false} NoRepeatedSwitch(names: seq<string>, env: Env, cur: Option<string>)
    ensures NoRepeats(SetSyntaxCalls(names, env, cur))
  {
    if names != [] {
      var c := FormatLoop(names[0], env, cur);
      var cur' := if c.Some? then c else cur;
      var rest := SetSyntaxCalls(names[1..], env, cur');
      NoRepeatedSwitch(names[1..], env, cur');
      if c.Some? {
        ConsNoRepeats(c.value, rest);
      }
    }
  }

  lemma AppendAssoc<T>(a: seq<T>, b: seq<T>, c: seq<T>)
    ensures a + b + c == a + (b + c)
  {
    forall i | 0 <= i < |a| + |b| + |c| ensures (a + b + c)[i] == (a + (b + c))[i] { }
  }

  /** The grammar after `made` and then `more`. */
  lemma AfterCallsAppend(made: seq<string>, more: seq<string>, cur: Option<string>)
    ensures AfterCalls(made + more, cur) == AfterCalls(more, AfterCalls(made, cur))
  {
    if more != [] {
      assert (made + more)[|made + more| - 1] == more[|more| - 1];
    }
  }

  /** One more candidate tried: the calls made so far grow by that
      candidate's call, and the calls still to come start after it. */
  lemma SetSyntaxCallsStep(made: seq<string>, names: seq<string>, k: nat, env: Env,
                           cur: Option<string>, start: Option<string>)
    requires k < |names|
    requires made + SetSyntaxCalls(names[k..], env, cur) == SetSyntaxCalls(names, env, start)
    requires cur == AfterCalls(made, start)
    ensures var c := FormatLoop(names[k], env, cur);
            var step := if c.Some? then [c.value] else [];
            var cur' := if c.Some? then c else cur;
            (made + step) + SetSyntaxCalls(names[k + 1..], env, cur') == SetSyntaxCalls(names, env, start) &&
            cur' == AfterCalls(made + step, start)
  {
    assert names[k..][0] == names[k] && names[k..][1..] == names[k + 1..];
    var c := FormatLoop(names[k], env, cur);
    var step := if c.Some? then [c.value] else [];
    var rest := SetSyntaxCalls(names[k + 1..], env, if c.Some? then c else cur);
    assert SetSyntaxCalls(names[k..], env, cur) == step + rest;
    AppendAssoc(made, step, rest);
    AfterCallsAppend(made, step, start);
  }

  /** Running the loop again from the grammar it left switches nothing. */
  lemma {:induction false} ChooseSettles(paths: seq<Option<string>>, resources: set<string>, cur: Option<string>)
    ensures var c := Choose(paths, resources, cur);
            Choose(paths, resources, if c.Some? then c else cur) == None
  {
    if paths != [] {
      match paths[0]
      case None =>
        ChooseSettles(paths[1..], resources, cur);
      case Some(p) =>
        if Some(p) != cur && p !in resources {
          ChooseSettles(paths[1..], resources, cur);
        }
    }
  }

  /** Trying one candidate again from the grammar it left switches nothing. */
  lemma FormatLoopSettles(n: string, env: Env, cur: Option<string>)
    ensures var c := FormatLoop(n, env, cur);
            FormatLoop(n, env, if c.Some? then c else cur) == None
  {
    ChooseSettles(CandidatePaths(n, env.languages, env), env.resources, cur);
  }

  /** With a single candidate, a second run right after the first switches nothing. */
  lemma SingleCandidateIdempotent(n: string, env: Env, cur: Option<string>)
    ensures var first := SetSyntaxCalls([n], env, cur);
            SetSyntaxCalls([n], env, AfterCalls(first, cur)) == []
  {
    FormatLoopSettles(n, env, cur);
    var c := FormatLoop(n, env, cur);
    assert [n][1..] == [];
    assert SetSyntaxCalls([n], env, cur) == (if c.Some? then [c.value] else []);
  }

  /** A candidate whose preferred-format path exists stops the format loop there. */
  lemma PreferredFormatHit(n: string, p: string, env: Env, cur: Option<string>)
    requires |env.languages| > 0
    requires CandidatePath(n, env.languages[0], env) == Some(p) && p in env.resources
    ensures FormatLoop(n, env, cur) == (if Some(p) == cur then None else Some(p))
  {
    ChooseFirstHit(CandidatePaths(n, env.languages, env), env.resources, cur, 0);
  }

  lemma TwoCandidates(a: string, b: string, env: Env, cur: Option<string>)
    ensures var ca := FormatLoop(a, env, cur);
            var cur' := if ca.Some? then ca else cur;
            var cb := FormatLoop(b, env, cur');
            SetSyntaxCalls([a, b], env, cur)
            == (if ca.Some? then [ca.value] else []) + (if cb.Some? then [cb.value] else [])
  {
    assert [a, b][1..] == [b] && [b][1..] == [];
  }

  /** With two candidates that both resolve under the preferred format, the
      later one always ends up applied. */
  lemma LaterCandidateOverrides(a: string, b: string, pa: string, pb: string, env: Env, cur: Option<string>)
    requires |env.languages| > 0
    requires CandidatePath(a, env.languages[0], env) == Some(pa) && pa in env.resources
    requires CandidatePath(b, env.languages[0], env) == Some(pb) && pb in env.resources
    requires pa != pb
    ensures AfterCalls(SetSyntaxCalls([a, b], env, cur), cur) == Some(pb)
  {
    PreferredFormatHit(a, pa, env, cur);
    var ca := FormatLoop(a, env, cur);
    var cur1 := if ca.Some? then ca else cur;
    assert cur1 == Some(pa);
    PreferredFormatHit(b, pb, env, cur1);
    TwoCandidates(a, b, env, cur);
  }

  /** ... and running again from the grammar the first run left switches to
      the first candidate and back: a repeated run is not free of switches. */
  lemma RerunSwitchesAgain(a: string, b: string, pa: string, pb: string, env: Env)
    requires |env.languages| > 0
    requires CandidatePath(a, env.languages[0], env) == Some(pa) && pa in env.resources
    requires CandidatePath(b, env.languages[0], env) == Some(pb) && pb in env.resources
    requires pa != pb
    ensures SetSyntaxCalls([a, b], env, Some(pb)) == [pa, pb]
  {
    PreferredFormatHit(a, pa, env, Some(pb));
    assert FormatLoop(a, env, Some(pb)) == Some(pa);
    PreferredFormatHit(b, pb, env, Some(pa));
    assert FormatLoop(b, env, Some(pa)) == Some(pb);
    TwoCandidates(a, b, env, Some(pb));
  }
}
