/** Function rules: a rule `{"function": {"source": ..., "name": ..., "args": ...}}`
    names a Python module inside the Packages folder by a dotted reference; the
    plugin loads it, looks up the entry point and calls it with the file name. */
module Plugins {
  import opened Common
  import opened Paths
  import opened Host

  /** The value of a rule's `function` key. */
  datatype FunctionSpec = FunctionSpec(source: Option<string>, name: Option<string>, args: Option<Args>)

  /** The entry point looked up when a function rule names none. */
  const DefaultEntryPoint: string := "syntax_test"

  function EntryPoint(name: Option<string>): string {
    match name
    case Some(n) => n
    case None => DefaultEntryPoint
  }

  /** A source the loader accepts: not empty, and not written with a `.py` suffix. */
  predicate ValidSource(source: string) {
    source != [] && !EndsWith(Lower(source), ".py")
  }

  /** `source.replace('.', '/') + '.py'`. */
  function PathToFile(source: string): string {
    ReplaceChar(source, '.', '/') + ".py"
  }

  /** The resource path the module is loaded from. */
  function PathName(windows: bool, pathToFile: string): string {
    SublimeFormatPath(windows, Join("Packages", pathToFile))
  }

  /** The module name: the resource path without its extension and its first
      `Packages/`, with slashes turned into dots. */
  function ModuleName(pathName: string): string {
    ReplaceChar(ReplaceFirst(SplitExt(pathName).0, "Packages/", ""), '/', '.')
  }

  datatype Resolution = Found(callable: Callable) | NotFound | Failed

  /** `get_function`: a load, compile or lookup failure gives NotFound, or
      Failed (the exception propagates) when exceptions are reraised. */
  function GetFunction(pathToFile: string, name: Option<string>, env: Env, reraise: bool): Resolution
  {
    var pathName := PathName(env.windows, pathToFile);
    var fname := EntryPoint(name);
    if env.defines(pathName, fname) then Found(Callable(pathName, ModuleName(pathName), fname))
    else if reraise then Failed
    else NotFound
  }

  /** The loader finds exactly the entry points the module defines, and the
      callable it returns is the one for that module path and name. */
  lemma GetFunctionResolves(pathToFile: string, name: Option<string>, env: Env, reraise: bool)
    ensures var r := GetFunction(pathToFile, name, env, reraise);
            (r.Found? <==> env.defines(PathName(env.windows, pathToFile), EntryPoint(name))) &&
            (r.Found? ==> r.callable.pathName == PathName(env.windows, pathToFile) &&
                          r.callable.moduleName == ModuleName(r.callable.pathName) &&
                          r.callable.functionName == EntryPoint(name)) &&
            (r.Failed? <==> !r.Found? && reraise)
  {
  }

  lemma PackagesJoin(q: string)
    requires q != [] && q[0] != '/'
    ensures Join("Packages", q + ".py") == "Packages/" + q + ".py"
  {
    assert (q + ".py")[0] == q[0];
  }

  lemma PackagesPathFixed(windows: bool, q: string)
    requires '\\' !in q
    ensures SublimeFormatPath(windows, "Packages/" + q + ".py") == "Packages/" + q + ".py"
  {
    var full := "Packages/" + q + ".py";
    forall i | 0 <= i < |full| ensures full[i] != '\\' {
      if 9 <= i < 9 + |q| { assert full[i] == q[i - 9]; }
    }
    assert full[1] == 'a';
    FormatFixed(windows, full);
  }

  lemma SplitPy(q: string)
    requires q != [] && q[|q| - 1] != '.' && q[|q| - 1] != '/'
    ensures SplitExt("Packages/" + q + ".py").0 == "Packages/" + q
  {
    var full := "Packages/" + q + ".py";
    var sep := RFind(full, '/');
    var dot := RFind(full, '.');
    assert full[|full| - 3] == '.' && full[|full| - 2] == 'p' && full[|full| - 1] == 'y';
    assert dot == |full| - 3;
    assert full[dot - 1] == q[|q| - 1];
    assert sep < dot - 1;
    assert full[..dot] == "Packages/" + q;
  }

  /** A dotted reference made of path components (no slash or backslash, not
      starting or ending with a dot) comes back unchanged as the module name. */
  lemma ModuleNameRoundTrip(windows: bool, source: string)
    requires source != []
    requires '/' !in source && '\\' !in source
    requires source[0] != '.' && source[|source| - 1] != '.'
    ensures ModuleName(PathName(windows, PathToFile(source))) == source
  {
    var q := ReplaceChar(source, '.', '/');
    assert q[0] == source[0] && q[|q| - 1] == source[|source| - 1];
    assert '\\' !in q by {
      forall i | 0 <= i < |q| ensures q[i] != '\\' { }
    }
    PackagesJoin(q);
    PackagesPathFixed(windows, q);
    assert PathName(windows, PathToFile(source)) == "Packages/" + q + ".py";
    SplitPy(q);
    StripFirst("Packages/", q);
    ReplaceCharBack(source);
  }

  /** Replacing the first occurrence of a prefix by nothing strips it. */
  lemma StripFirst(pat: string, q: string)
    requires pat != []
    ensures ReplaceFirst(pat + q, pat, "") == q
  {
    assert StartsWith(pat + q, pat);
    assert (pat + q)[|pat|..] == q;
  }

  /** Turning dots into slashes and back restores a text without slashes. */
  lemma ReplaceCharBack(source: string)
    requires '/' !in source
    ensures ReplaceChar(ReplaceChar(source, '.', '/'), '/', '.') == source
  {
    var q := ReplaceChar(source, '.', '/');
    var m := ReplaceChar(q, '/', '.');
    forall i | 0 <= i < |source| ensures m[i] == source[i] {
      assert q[i] == (if source[i] == '.' then '/' else source[i]);
    }
  }

  /** Turns a predicate's call result into a rule outcome: an exception counts
      as no match unless exceptions are reraised. */
  function CallOutcome(r: CallResult, reraise: bool): (o: Outcome)
    ensures o.Raised? <==> r.Threw? && reraise
    ensures o.Holds() <==> r == Gave(true)
  {
    match r
    case Gave(b) => Returned(b)
    case Threw => if reraise then Raised else Returned(false)
  }

  /** `function_matches`: the callable cached under `source` is reused;
      otherwise the source is validated, resolved, cached on success, and
      called. The result holds the outcome and the new cache. */
  function FunctionStep(spec: FunctionSpec, fileName: Option<string>, env: Env, reraise: bool,
                        plugins: map<string, Callable>): (Outcome, map<string, Callable>)
  {
    match spec.source
    case None => (Returned(false), plugins)
    case Some(s) =>
      if s in plugins then (CallOutcome(env.invoke(plugins[s], fileName, spec.args), reraise), plugins)
      else if !ValidSource(s) then (Returned(false), plugins)
      else
        match GetFunction(PathToFile(s), spec.name, env, reraise)
        case NotFound => (Returned(false), plugins)
        case Failed => (Raised, plugins)
        case Found(c) => (CallOutcome(env.invoke(c, fileName, spec.args), reraise), plugins[s := c])
  }

  /** The cache only grows, and only by the callable the loader resolves for
      a valid source that was not cached yet; without reraising nothing
      raises; a missing or invalid uncached source does not match. */
  lemma FunctionStepCache(spec: FunctionSpec, fileName: Option<string>, env: Env, reraise: bool,
                          plugins: map<string, Callable>)
    ensures var r := FunctionStep(spec, fileName, env, reraise, plugins);
            (r.1 == plugins ||
             (spec.source.Some? && spec.source.value !in plugins && ValidSource(spec.source.value) &&
              GetFunction(PathToFile(spec.source.value), spec.name, env, reraise).Found? &&
              r.1 == plugins[spec.source.value := GetFunction(PathToFile(spec.source.value), spec.name, env, reraise).callable])) &&
            (!reraise ==> r.0.Returned?) &&
            ((spec.source.None? || (spec.source.value !in plugins && !ValidSource(spec.source.value)))
               ==> r == (Returned(false), plugins))
  {
    match spec.source
    case None =>
    case Some(s) =>
      if s !in plugins && ValidSource(s) {
        var g := GetFunction(PathToFile(s), spec.name, env, reraise);
        assert g.Failed? ==> reraise;
      }
  }

  /** The callable a cache entry holds for `source` is the one the loader
      resolves for it under `name`. */
  predicate CachedAs(plugins: map<string, Callable>, source: string, name: Option<string>, env: Env) {
    source in plugins ==>
      ValidSource(source) && env.defines(PathName(env.windows, PathToFile(source)), EntryPoint(name)) &&
      plugins[source] == Callable(PathName(env.windows, PathToFile(source)),
                                  ModuleName(PathName(env.windows, PathToFile(source))), EntryPoint(name))
  }

  /** The cache changes nothing when the cached callable is the one this
      rule's entry point would resolve to. */
  lemma CacheTransparent(spec: FunctionSpec, fileName: Option<string>, env: Env, reraise: bool,
                         plugins: map<string, Callable>)
    requires spec.source.Some? ==> CachedAs(plugins, spec.source.value, spec.name, env)
    ensures FunctionStep(spec, fileName, env, reraise, plugins).0
         == FunctionStep(spec, fileName, env, reraise, map[]).0
  {
  }

  /** The cache is keyed by source alone: after a rule with entry point `n1`
      has been resolved, a second rule with the same source calls the first
      rule's entry point whatever name it gives. */
  lemma CacheIgnoresEntryPoint(s: string, n1: Option<string>, spec2: FunctionSpec,
                               fileName: Option<string>, env: Env, reraise: bool)
    requires ValidSource(s) && spec2.source == Some(s)
    requires env.defines(PathName(env.windows, PathToFile(s)), EntryPoint(n1))
    ensures var after := FunctionStep(FunctionSpec(Some(s), n1, None), fileName, env, reraise, map[]).1;
            var pathName := PathName(env.windows, PathToFile(s));
            FunctionStep(spec2, fileName, env, reraise, after).0
            == CallOutcome(env.invoke(Callable(pathName, ModuleName(pathName), EntryPoint(n1)),
                                      fileName, spec2.args), reraise)
  {
  }
}
