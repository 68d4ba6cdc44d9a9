/** The event listener's detection pass: per-pass caches of the document's
    first line and whole text, the plugin cache, the set of deprecation
    warnings already shown, and the walk that applies the first matching entry. */
module Detector {
  import opened Common
  import opened Paths
  import opened Host
  import opened Plugins
  import opened Rules
  import opened Catalog
  import opened Activation

  /** An editor view: the document it shows, whether it is a scratch buffer,
      its own settings, and its grammar, which the plugin may switch. */
  class View {
    const doc: Document
    const scratch: bool
    const local: map<string, seq<Entry>>
    /** the view's `syntax` setting */
    var syntax: Option<string>
    /** every grammar the view was switched to, in order */
    var switched: seq<string>

    constructor (doc: Document, scratch: bool, local: map<string, seq<Entry>>, syntax: Option<string>)
      ensures this.doc == doc && this.scratch == scratch && this.local == local
      ensures this.syntax == syntax && switched == []
    {
      this.doc := doc;
      this.scratch := scratch;
      this.local := local;
      this.syntax := syntax;
      switched := [];
    }

    /** `view.set_syntax_file(path)` */
    method SetSyntaxFile(path: string)
      modifies this
      ensures syntax == Some(path) && switched == old(switched) + [path]
    {
      syntax := Some(path);
      switched := switched + [path];
    }
  }

  /** The plugin's global settings as far as detection reads them. */
  datatype Config = Config(values: map<string, seq<Entry>>, reraise: bool)

  /** The key a deprecation warning is remembered under. */
  function WarnKey(keyword: string, rule: Option<string>): string {
    match rule
    case Some(r) => keyword + "," + r
    case None => keyword
  }

  class ApplySyntax {
    var firstLine: Option<string>
    var fileName: Option<string>
    var entireFile: Option<string>
    var view: View?
    var syntaxes: seq<Entry>
    var reraiseExceptions: bool
    var seenDeprecationWarnings: set<string>
    var plugins: map<string, Callable>

    constructor ()
      ensures firstLine.None? && fileName.None? && entireFile.None? && view == null
      ensures syntaxes == [] && !reraiseExceptions && seenDeprecationWarnings == {} && plugins == map[]
    {
      firstLine, fileName, entireFile, view := None, None, None, null;
      syntaxes, reraiseExceptions, seenDeprecationWarnings, plugins := [], false, {}, map[];
    }

    /** The caches hold nothing but the view's own facts. */
    ghost predicate CachesAgree()
      reads this
    {
      view != null && fileName == view.doc.fileName &&
      (firstLine.Some? ==> firstLine.value == FirstLine(view.doc.contents)) &&
      (entireFile.Some? ==> entireFile.value == view.doc.contents)
    }

    /** `print_deprecation_warning`: each keyword (or keyword and rule) is
        reported once; `logged` says whether this call reported it. */
    method PrintDeprecationWarning(keyword: string, rule: Option<string>) returns (logged: bool)
      modifies this`seenDeprecationWarnings
      ensures logged == (WarnKey(keyword, rule) !in old(seenDeprecationWarnings))
      ensures seenDeprecationWarnings == old(seenDeprecationWarnings) + {WarnKey(keyword, rule)}
    {
      var warnKey := WarnKey(keyword, rule);
      logged := warnKey !in seenDeprecationWarnings;
      if logged {
        seenDeprecationWarnings := seenDeprecationWarnings + {warnKey};
      }
    }

    /** `get_setting`: the view's value, else the global one, else the default. */
    function GetSetting(name: string, default: seq<Entry>, config: Config): (r: seq<Entry>)
      reads this
      ensures view != null && name in view.local ==> r == view.local[name]
      ensures (view == null || name !in view.local) && name in config.values ==> r == config.values[name]
      ensures (view == null || name !in view.local) && name !in config.values ==> r == default
    {
      Lookup(if view != null then view.local else map[], config.values, name, default)
    }

    method ResetCacheVariables(v: View)
      modifies this`view, this`fileName, this`firstLine, this`entireFile, this`syntaxes, this`reraiseExceptions
      ensures view == v && fileName == v.doc.fileName && firstLine.None? && entireFile.None?
      ensures syntaxes == [] && !reraiseExceptions
      ensures CachesAgree()
    {
      view := v;
      fileName := v.doc.fileName;
      firstLine := None;
      entireFile := None;
      syntaxes := [];
      reraiseExceptions := false;
    }

    method FetchFirstLine()
      requires CachesAgree()
      modifies this`firstLine
      ensures CachesAgree() && firstLine == Some(FirstLine(view.doc.contents))
    {
      firstLine := Some(FirstLine(view.doc.contents));
    }

    method FetchEntireFile()
      requires CachesAgree()
      modifies this`entireFile
      ensures CachesAgree() && entireFile == Some(view.doc.contents)
    {
      entireFile := Some(view.doc.contents);
    }

    /** `create_extension_rule`, in place on each entry of the list. */
    method CreateExtensionRule(entries: array<Entry>)
      modifies entries
      ensures forall i :: 0 <= i < entries.Length ==> entries[i] == WithExtensionRule(old(entries[i]))
    {
      for i := 0 to entries.Length
        invariant forall j :: 0 <= j < i ==> entries[j] == WithExtensionRule(old(entries[j]))
        invariant forall j :: i <= j < entries.Length ==> entries[j] == old(entries[j])
      {
        var e := entries[i];
        if e.extensions.Some? {
          var rules := if e.rules.Some? then e.rules.value else [];
          entries[i] := e.(rules := Some([ExtensionRule(e.extensions.value)] + rules));
        }
      }
    }

    method PreparedTier(name: string, config: Config) returns (tier: seq<Entry>)
      ensures tier == Prepared(GetSetting(name, [], config))
    {
      var s := GetSetting(name, [], config);
      var a := new Entry[|s|](i requires 0 <= i < |s| => s[i]);
      CreateExtensionRule(a);
      tier := a[..];
      assert tier == Prepared(s);
    }

    /** `load_syntaxes`: project, then user, then default entries. */
    method LoadSyntaxes(config: Config)
      requires view != null
      modifies this`reraiseExceptions, this`syntaxes
      ensures reraiseExceptions == config.reraise
      ensures syntaxes == Tiers(view.local, config.values)
    {
      reraiseExceptions := config.reraise;
      var defaultSyntaxes := PreparedTier("default_syntaxes", config);
      var userSyntaxes := PreparedTier("syntaxes", config);
      var projectSyntaxes := PreparedTier("project_syntaxes", config);
      syntaxes := projectSyntaxes + userSyntaxes + defaultSyntaxes;
    }

    /** `function_matches`. */
    method FunctionMatches(spec: FunctionSpec, env: Env) returns (o: Outcome)
      modifies this`plugins, this`seenDeprecationWarnings
      ensures (o, plugins) == FunctionStep(spec, fileName, env, reraiseExceptions, old(plugins))
      ensures seenDeprecationWarnings == old(seenDeprecationWarnings) +
                (if (spec.source.None? || spec.source.value !in old(plugins)) && spec.name.Some?
                 then {WarnKey("name", Some("function"))} else {})
    {
      var callable: Callable;
      if spec.source.Some? && spec.source.value in plugins {
        callable := plugins[spec.source.value];
      } else {
        if spec.name.Some? {
          var _ := PrintDeprecationWarning("name", Some("function"));
        }
        if spec.source.None? || !ValidSource(spec.source.value) {
          return Returned(false);
        }
        var found := GetFunction(PathToFile(spec.source.value), spec.name, env, reraiseExceptions);
        if found.Failed? {
          return Raised;
        } else if found.NotFound? {
          return Returned(false);
        }
        callable := found.callable;
        plugins := plugins[spec.source.value := callable];
      }
      o := CallOutcome(env.invoke(callable, fileName, spec.args), reraiseExceptions);
    }

    /** `regexp_matches`: the first line and the whole text are fetched only
        when a rule needs them, and at most once per pass. */
    method RegexpMatches(rule: Rule, env: Env) returns (o: Outcome)
      requires CachesAgree()
      modifies this`firstLine, this`entireFile, this`seenDeprecationWarnings
      ensures CachesAgree()
      ensures o == RegexOutcome(rule, view.doc, env)
      ensures old(firstLine).Some? ==> firstLine == old(firstLine)
      ensures old(entireFile).Some? ==> entireFile == old(entireFile)
      ensures ReadsFirstLine(rule) ==> firstLine.Some?
      ensures !ReadsFirstLine(rule) ==> firstLine == old(firstLine)
      ensures SelectRegex(rule).None? || SelectRegex(rule).value.key != "contains" ==> entireFile == old(entireFile)
      ensures SelectRegex(rule).Some? && SelectRegex(rule).value.key == "contains" ==> entireFile.Some?
      ensures seenDeprecationWarnings == old(seenDeprecationWarnings) +
                (if SelectRegex(rule).Some? && SelectRegex(rule).value.key in {"binary", "file_name"}
                 then {SelectRegex(rule).value.key} else {})
    {
      var fromBeginning := true;
      var subject: Option<string>;
      var regexp: string;
      if rule.firstLine.Some? {
        if firstLine.None? { FetchFirstLine(); }
        subject, regexp := firstLine, rule.firstLine.value;
      } else if rule.interpreter.Some? {
        if firstLine.None? { FetchFirstLine(); }
        subject, regexp := firstLine, ShebangPrefix + rule.interpreter.value;
      } else if rule.binary.Some? {
        var _ := PrintDeprecationWarning("binary", None);
        if firstLine.None? { FetchFirstLine(); }
        subject, regexp := firstLine, ShebangPrefix + rule.binary.value;
      } else if rule.filePath.Some? {
        subject, regexp := fileName, rule.filePath.value;
      } else if rule.fileName.Some? {
        var _ := PrintDeprecationWarning("file_name", None);
        subject, regexp := fileName, rule.fileName.value;
      } else if rule.contains.Some? {
        if entireFile.None? { FetchEntireFile(); }
        subject, regexp := entireFile, rule.contains.value;
        fromBeginning := false;
      } else {
        return Returned(false);
      }
      if regexp != [] && subject.Some? && subject.value != [] {
        if fromBeginning {
          o := env.reMatch(regexp, subject.value);
        } else {
          o := env.reSearch(regexp, subject.value);
        }
      } else {
        o := Returned(false);
      }
    }

    /** One rule of `syntax_matches`: an extension rule, a function rule or a
        regular-expression rule. */
    method RuleMatches(rule: Rule, env: Env) returns (s: Step)
      requires CachesAgree()
      modifies this`firstLine, this`entireFile, this`plugins, this`seenDeprecationWarnings
      ensures CachesAgree()
      ensures (s, plugins) == StepOf(rule, view.doc, env, reraiseExceptions, old(plugins))
      ensures old(seenDeprecationWarnings) <= seenDeprecationWarnings
    {
      if rule.extensions.Some? {
        return ExtStep(ExtensionOutcome(rule.extensions.value, fileName));
      }
      var result: Outcome;
      if rule.func.Some? {
        result := FunctionMatches(rule.func.value, env);
      } else {
        result := RegexpMatches(rule, env);
      }
      s := TestStep(result);
    }

    /** `syntax_matches`: the entry's rules in order; a matching extension
        rule decides at once, other rules count as "match all" or "match any". */
    method SyntaxMatches(entry: Entry, env: Env) returns (o: Outcome)
      requires CachesAgree()
      modifies this`firstLine, this`entireFile, this`plugins, this`seenDeprecationWarnings
      ensures CachesAgree()
      ensures (o, plugins) == EntryOutcome(entry, view.doc, env, reraiseExceptions, old(plugins))
      ensures old(seenDeprecationWarnings) <= seenDeprecationWarnings
    {
      var rules := RulesOf(entry);
      var matchAll := MatchAll(entry);
      ghost var doc := view.doc;
      ghost var whole := EntryOutcome(entry, doc, env, reraiseExceptions, plugins);
      var i := 0;
      while i < |rules|
        invariant 0 <= i <= |rules|
        invariant CachesAgree() && view.doc == doc
        invariant old(seenDeprecationWarnings) <= seenDeprecationWarnings
        invariant EvalRules(rules[i..], matchAll, doc, env, reraiseExceptions, plugins) == whole
      {
        EvalRulesFrom(rules, i, matchAll, doc, env, reraiseExceptions, plugins);
        var s := RuleMatches(rules[i], env);
        if s.o.Raised? {
          return Raised;
        } else if s.ExtStep? {
          if s.o.value {
            return Returned(true);
          }
        } else if matchAll {
          if !s.o.value {
            return Returned(false);
          }
        } else if s.o.value {
          return Returned(true);
        }
        i := i + 1;
      }
      o := Returned(matchAll);
    }

    /** The inner loop of `set_syntax` for one candidate name: the formats in
        order, stopping at the current grammar or at the first path that exists. */
    method TryFormats(n: string, env: Env)
      requires view != null
      modifies view
      ensures var c := FormatLoop(n, env, old(view.syntax));
              view.switched == old(view.switched) + (if c.Some? then [c.value] else []) &&
              view.syntax == (if c.Some? then c else old(view.syntax))
    {
      var langs := env.languages;
      ghost var paths := CandidatePaths(n, langs, env);
      ghost var c := Choose(paths, env.resources, view.syntax);
      var j := 0;
      var done := false;
      while j < |langs| && !done
        invariant 0 <= j <= |langs|
        decreases |langs| - j + (if done then 0 else 1)
        invariant !done ==> view.syntax == old(view.syntax) && view.switched == old(view.switched) &&
                            Choose(paths[j..], env.resources, old(view.syntax)) == c
        invariant done ==> view.switched == old(view.switched) + (if c.Some? then [c.value] else []) &&
                           view.syntax == (if c.Some? then c else old(view.syntax))
      {
        var newSyntax := CandidatePath(n, langs[j], env);
        assert paths[j..][0] == newSyntax && paths[j..][1..] == paths[j + 1..];
        if newSyntax.None? {
          j := j + 1;
        } else if newSyntax != view.syntax {
          if newSyntax.value in env.resources {
            view.SetSyntaxFile(newSyntax.value);
            done := true;
          } else {
            j := j + 1;
          }
        } else {
          done := true;
        }
      }
      assert !done ==> paths[j..] == [];
    }

    /** `set_syntax`: every candidate name is tried in every format; an entry
        with neither `syntax` nor `name` makes the path functions raise. */
    method SetSyntax(target: Option<Target>, env: Env) returns (raised: bool)
      requires view != null
      modifies view
      ensures target.None? ==>
                raised == (|env.languages| > 0) && view.switched == old(view.switched) && view.syntax == old(view.syntax)
      ensures target.Some? ==>
                var calls := SetSyntaxCalls(Candidates(target.value), env, old(view.syntax));
                !raised && view.switched == old(view.switched) + calls &&
                view.syntax == AfterCalls(calls, old(view.syntax))
    {
      if target.None? {
        return |env.languages| > 0;
      }
      raised := false;
      var names := Candidates(target.value);
      ghost var made: seq<string> := [];
      for k := 0 to |names|
        invariant view.switched == old(view.switched) + made
        invariant view.syntax == AfterCalls(made, old(view.syntax))
        invariant made + SetSyntaxCalls(names[k..], env, view.syntax) == SetSyntaxCalls(names, env, old(view.syntax))
      {
        ghost var c := FormatLoop(names[k], env, view.syntax);
        SetSyntaxCallsStep(made, names, k, env, view.syntax, old(view.syntax));
        TryFormats(names[k], env);
        AppendAssoc(old(view.switched), made, if c.Some? then [c.value] else []);
        made := made + (if c.Some? then [c.value] else []);
      }
      assert names[|names|..] == [] && made + [] == made;
    }

    /** The loop of `detect_syntax`: the loaded entries in order, sharing the
        plugin cache, up to the first that matches or raises. */
    method FirstMatch(env: Env) returns (found: Option<nat>, raised: bool)
      requires CachesAgree()
      modifies this`firstLine, this`entireFile, this`plugins, this`seenDeprecationWarnings
      ensures CachesAgree()
      ensures var w := ScanEntries(syntaxes, view.doc, env, reraiseExceptions, old(plugins));
              (raised <==> w.ScanRaised?) && (w.Matched? <==> found.Some?) &&
              (w.Matched? ==> found.value == w.index)
      ensures old(seenDeprecationWarnings) <= seenDeprecationWarnings
    {
      var entries := syntaxes;
      ghost var doc := view.doc;
      var reraise := reraiseExceptions;
      ScanFromSuffix(entries, 0, doc, env, reraise, plugins);
      assert entries[0..] == entries;
      ghost var whole := ScanFrom(entries, 0, doc, env, reraise, plugins);
      var k := 0;
      while k < |entries|
        invariant 0 <= k <= |entries|
        invariant CachesAgree() && view.doc == doc && reraiseExceptions == reraise
        invariant old(seenDeprecationWarnings) <= seenDeprecationWarnings
        invariant whole == ScanFrom(entries, k, doc, env, reraise, plugins)
      {
        var o := SyntaxMatches(entries[k], env);
        if o.Raised? {
          return None, true;
        }
        if o.value {
          return Some(k), false;
        }
        k := k + 1;
      }
      return None, false;
    }

    /** The part of `detect_syntax` after loading: the first matching entry's
        grammar is applied. */
    method ApplyFirstMatch(env: Env) returns (raised: bool)
      requires CachesAgree()
      modifies this`firstLine, this`entireFile, this`plugins, this`seenDeprecationWarnings, view
      ensures view == old(view) && syntaxes == old(syntaxes) && reraiseExceptions == old(reraiseExceptions)
      ensures CachesAgree()
      ensures !raised ==> plugins == map[]
      ensures old(seenDeprecationWarnings) <= seenDeprecationWarnings
      ensures var w := ScanEntries(syntaxes, view.doc, env, reraiseExceptions, old(plugins));
              w.Matched? && syntaxes[w.index].name.Some? && !raised ==> WarnKey("name", None) in seenDeprecationWarnings
      ensures match ScanEntries(syntaxes, view.doc, env, reraiseExceptions, old(plugins))
              case NoMatch(_) => !raised && view.switched == old(view.switched) && view.syntax == old(view.syntax)
              case ScanRaised => raised && view.switched == old(view.switched) && view.syntax == old(view.syntax)
              case Matched(k, _) =>
                var t := TargetOf(syntaxes[k]);
                if t.None? then
                  raised == (|env.languages| > 0) && view.switched == old(view.switched) && view.syntax == old(view.syntax)
                else
                  var calls := SetSyntaxCalls(Candidates(t.value), env, old(view.syntax));
                  !raised && view.switched == old(view.switched) + calls && view.syntax == AfterCalls(calls, old(view.syntax))
    {
      ghost var w := ScanEntries(syntaxes, view.doc, env, reraiseExceptions, plugins);
      var found;
      found, raised := FirstMatch(env);
      if found.Some? {
        assert w.Matched? && found.value == w.index;
        raised := ApplyEntry(syntaxes[found.value], env);
      }
      if !raised {
        plugins := map[];
      }
    }

    /** The matching entry's part of `detect_syntax`: its grammar is set, and
        an entry that still uses the `name` key records that deprecation. */
    method ApplyEntry(entry: Entry, env: Env) returns (raised: bool)
      requires view != null
      modifies view, this`seenDeprecationWarnings
      ensures var t := TargetOf(entry);
              if t.None? then
                raised == (|env.languages| > 0) && view.switched == old(view.switched) && view.syntax == old(view.syntax)
              else
                var calls := SetSyntaxCalls(Candidates(t.value), env, old(view.syntax));
                !raised && view.switched == old(view.switched) + calls && view.syntax == AfterCalls(calls, old(view.syntax))
      ensures seenDeprecationWarnings == old(seenDeprecationWarnings) +
                (if entry.name.Some? && !raised then {WarnKey("name", None)} else {})
    {
      raised := SetSyntax(TargetOf(entry), env);
      if raised {
        return;
      }
      if entry.name.Some? {
        var _ := PrintDeprecationWarning("name", None);
      }
    }

    /** `detect_syntax`: nothing for a scratch view; otherwise the catalogue
        is loaded and the first matching entry's grammar is applied. */
    method Detect(v: View, config: Config, env: Env) returns (raised: bool)
      modifies this, v
      ensures v.scratch ==>
                (!raised && plugins == map[] && v.switched == old(v.switched) && v.syntax == old(v.syntax))
      ensures v.scratch ==>
                view == old(view) && fileName == old(fileName) && firstLine == old(firstLine) &&
                entireFile == old(entireFile) && syntaxes == old(syntaxes) &&
                reraiseExceptions == old(reraiseExceptions) && seenDeprecationWarnings == old(seenDeprecationWarnings)
      ensures !v.scratch ==>
                (view == v && syntaxes == Tiers(v.local, config.values) && reraiseExceptions == config.reraise)
      ensures !v.scratch ==> CachesAgree()
      ensures !raised ==> plugins == map[]
      ensures old(seenDeprecationWarnings) <= seenDeprecationWarnings
      ensures !v.scratch ==>
                var entries := Tiers(v.local, config.values);
                var w := ScanEntries(entries, v.doc, env, config.reraise, map[]);
                w.Matched? && entries[w.index].name.Some? && !raised ==> WarnKey("name", None) in seenDeprecationWarnings
      ensures !v.scratch ==>
                var entries := Tiers(v.local, config.values);
                match ScanEntries(entries, v.doc, env, config.reraise, map[])
                case NoMatch(_) => !raised && v.switched == old(v.switched) && v.syntax == old(v.syntax)
                case ScanRaised => raised && v.switched == old(v.switched) && v.syntax == old(v.syntax)
                case Matched(k, _) =>
                  var t := TargetOf(entries[k]);
                  if t.None? then
                    raised == (|env.languages| > 0) && v.switched == old(v.switched) && v.syntax == old(v.syntax)
                  else
                    var calls := SetSyntaxCalls(Candidates(t.value), env, old(v.syntax));
                    !raised && v.switched == old(v.switched) + calls && v.syntax == AfterCalls(calls, old(v.syntax))
    {
      plugins := map[];
      if v.scratch {
        return false;
      }
      ResetCacheVariables(v);
      LoadSyntaxes(config);
      raised := false;
      if syntaxes == [] {
        return;
      }
      raised := ApplyFirstMatch(env);
    }
  }
}
