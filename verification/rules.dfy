/** Rules and rule sets: the data a syntax entry is made of, what one rule says
    about a document, and how an entry combines its rules ("match any" or
    "match all", with matching extension rules overriding both). */
module Rules {
  import opened Common
  import opened Paths
  import opened Host
  import opened Plugins

  /** One rule dictionary; a field is Some exactly when its key is present. */
  datatype Rule = Rule(
    extensions: Option<seq<string>>,
    func: Option<FunctionSpec>,
    firstLine: Option<string>,
    interpreter: Option<string>,
    binary: Option<string>,
    filePath: Option<string>,
    fileName: Option<string>,
    contains: Option<string>)

  /** The rule `{'extensions': exts}` that loading puts in front of an entry's rules. */
  function ExtensionRule(exts: seq<string>): Rule {
    Rule(Some(exts), None, None, None, None, None, None, None)
  }

  /** The grammar an entry names: one name or a list of names tried in turn. */
  datatype Target = One(name: string) | Many(names: seq<string>)

  function Candidates(t: Target): seq<string> {
    match t
    case One(n) => [n]
    case Many(ns) => ns
  }

  /** One syntax entry: `syntax` (or its deprecated alias `name`), `extensions`,
      `match` and `rules`, each Some when present. */
  datatype Entry = Entry(
    syntax: Option<Target>,
    name: Option<Target>,
    extensions: Option<seq<string>>,
    matchMode: Option<string>,
    rules: Option<seq<Rule>>)

  /** `syntax.get("syntax", syntax.get("name"))` */
  function TargetOf(e: Entry): Option<Target> {
    if e.syntax.Some? then e.syntax else e.name
  }

  predicate MatchAll(e: Entry) { e.matchMode == Some("all") }

  function RulesOf(e: Entry): seq<Rule> {
    match e.rules
    case Some(rs) => rs
    case None => []
  }

  // ---------------------------------------------------------------- extensions

  /** One listed extension against the lower-cased base name: a dotted entry
      must equal the whole name, any entry may be the name's last suffix. */
  predicate ExtensionHit(ext: string, base: string) {
    (StartsWith(ext, ".") && ext == base) || EndsWith(base, "." + ext)
  }

  /** The loop of `extension_matches` over the listed extensions. */
  function ExtensionMatches(exts: seq<string>, base: string): (b: bool)
    ensures b <==> exists i :: 0 <= i < |exts| && ExtensionHit(exts[i], base)
  {
    if exts == [] then false
    else if ExtensionHit(exts[0], base) then true
    else
      var b := ExtensionMatches(exts[1..], base);
      assert forall i :: 1 <= i < |exts| ==> exts[i] == exts[1..][i - 1];
      b
  }

  /** `extension_matches`: the base name of the file is lower-cased, the listed
      extensions are not. A document with no file name makes `basename` raise. */
  function ExtensionOutcome(exts: seq<string>, fileName: Option<string>): (o: Outcome)
    ensures o.Raised? <==> fileName.None?
    ensures fileName.Some? ==>
              (o.Holds() <==> exists i :: 0 <= i < |exts| && ExtensionHit(exts[i], Lower(Basename(fileName.value))))
  {
    match fileName
    case None => Raised
    case Some(f) => Returned(ExtensionMatches(exts, Lower(Basename(f))))
  }

  lemma LowerMainPy()
    ensures Lower(Basename("/src/Main.PY")) == "main.py"
  {
    var p := "/src/Main.PY";
    assert p[4] == '/';
    assert forall j :: 4 < j < |p| ==> p[j] != '/';
    assert RFind(p, '/') == 4;
    assert Basename("/src/Main.PY") == "Main.PY";
  }

  /** Extensions are compared as written: an upper-case entry never matches. */
  lemma ExtensionCaseExample()
    ensures ExtensionOutcome(["py"], Some("/src/Main.PY")) == Returned(true)
    ensures ExtensionOutcome(["PY"], Some("/src/Main.PY")) == Returned(false)
  {
    LowerMainPy();
    assert ExtensionHit("py", "main.py") by { assert "main.py"[4..] == ".py"; }
    assert !ExtensionHit("PY", "main.py") by { assert "main.py"[6] != 'Y'; }
    assert ExtensionMatches(["PY"], "main.py") == false;
  }

  // ---------------------------------------------------------- regular expressions

  /** The keys a regular-expression rule is read from, in the order tried. */
  const RegexKeys: seq<string> := ["first_line", "interpreter", "binary", "file_path", "file_name", "contains"]

  /** The prefix `interpreter` and `binary` patterns are put behind: a shebang line. */
  const ShebangPrefix: string := "^#\\!(?:.+)"

  function KeyValue(r: Rule, key: string): Option<string> {
    match key
    case "first_line" => r.firstLine
    case "interpreter" => r.interpreter
    case "binary" => r.binary
    case "file_path" => r.filePath
    case "file_name" => r.fileName
    case "contains" => r.contains
    case _ => None
  }

  /** The key a regular-expression rule was read from and the pattern to apply. */
  datatype Selection = Selection(key: string, pattern: string)

  /** The choice of key and pattern in `regexp_matches`: the first key present
      in RegexKeys order wins; `interpreter` and `binary` patterns get the
      shebang prefix. */
  function SelectRegex(r: Rule): (s: Option<Selection>)
    ensures s.None? <==> r.firstLine.None? && r.interpreter.None? && r.binary.None? &&
                         r.filePath.None? && r.fileName.None? && r.contains.None?
    ensures s.Some? ==> s.value.key in RegexKeys && KeyValue(r, s.value.key).Some?
    ensures s.Some? ==>
              s.value.pattern == (if s.value.key in {"interpreter", "binary"}
                                  then ShebangPrefix + KeyValue(r, s.value.key).value
                                  else KeyValue(r, s.value.key).value)
  {
    if r.firstLine.Some? then Some(Selection("first_line", r.firstLine.value))
    else if r.interpreter.Some? then Some(Selection("interpreter", ShebangPrefix + r.interpreter.value))
    else if r.binary.Some? then Some(Selection("binary", ShebangPrefix + r.binary.value))
    else if r.filePath.Some? then Some(Selection("file_path", r.filePath.value))
    else if r.fileName.Some? then Some(Selection("file_name", r.fileName.value))
    else if r.contains.Some? then Some(Selection("contains", r.contains.value))
    else None
  }

  /** A rule whose pattern is matched against the first line: the key chosen
      is `first_line`, `interpreter` or `binary`. */
  predicate ReadsFirstLine(r: Rule)
    ensures ReadsFirstLine(r) <==> SelectRegex(r).Some? && SelectRegex(r).value.key in {"first_line", "interpreter", "binary"}
  {
    r.firstLine.Some? || r.interpreter.Some? || r.binary.Some?
  }

  /** The key chosen is the first one present in RegexKeys order. */
  lemma SelectRegexFirstKey(r: Rule)
    requires SelectRegex(r).Some?
    ensures exists i :: 0 <= i < |RegexKeys| && RegexKeys[i] == SelectRegex(r).value.key &&
              forall j :: 0 <= j < i ==> KeyValue(r, RegexKeys[j]).None?
  {
    var key := SelectRegex(r).value.key;
    var i := if key == "first_line" then 0 else if key == "interpreter" then 1
             else if key == "binary" then 2 else if key == "file_path" then 3
             else if key == "file_name" then 4 else 5;
    assert RegexKeys[i] == key;
    assert forall j :: 0 <= j < i ==> KeyValue(r, RegexKeys[j]).None? by {
      assert RegexKeys[0] == "first_line" && RegexKeys[1] == "interpreter" && RegexKeys[2] == "binary";
      assert RegexKeys[3] == "file_path" && RegexKeys[4] == "file_name";
    }
  }

  /** The text a key's pattern is applied to: the first line, the file name
      (None for an unsaved buffer) or the whole text. */
  function SubjectOf(key: string, doc: Document): Option<string> {
    if key in {"first_line", "interpreter", "binary"} then Some(FirstLine(doc.contents))
    else if key in {"file_path", "file_name"} then doc.fileName
    else Some(doc.contents)
  }

  /** Only `contains` searches anywhere; every other key matches at the start. */
  predicate Anchored(key: string) { key != "contains" }

  /** `regexp_matches`: no key, an empty pattern or an empty or missing subject
      gives False; otherwise the anchored match or the search decides, and a
      malformed pattern raises. */
  function RegexOutcome(r: Rule, doc: Document, env: Env): (o: Outcome)
    ensures SelectRegex(r).None? ==> o == Returned(false)
    ensures SelectRegex(r).Some? ==>
              var sel := SelectRegex(r).value;
              var subj := SubjectOf(sel.key, doc);
              if sel.pattern == [] || subj.None? || subj.value == [] then o == Returned(false)
              else if sel.key == "contains" then o == env.reSearch(sel.pattern, subj.value)
              else o == env.reMatch(sel.pattern, subj.value)
  {
    match SelectRegex(r)
    case None => Returned(false)
    case Some(sel) =>
      var subj := SubjectOf(sel.key, doc);
      if sel.pattern == [] || subj.None? || subj.value == [] then Returned(false)
      else if Anchored(sel.key) then env.reMatch(sel.pattern, subj.value)
      else env.reSearch(sel.pattern, subj.value)
  }

  /** An `interpreter` rule matches the shebang-prefixed pattern against the
      first line, and a `contains` rule searches the whole text. */
  lemma RegexExamples(p: string, doc: Document, env: Env)
    requires p != []
    requires doc.contents != [] && doc.contents[0] != '\n'
    ensures RegexOutcome(Rule(None, None, None, Some(p), None, None, None, None), doc, env)
            == env.reMatch(ShebangPrefix + p, FirstLine(doc.contents))
    ensures RegexOutcome(Rule(None, None, None, None, None, None, None, Some(p)), doc, env)
            == env.reSearch(p, doc.contents)
  {
    assert FirstLine(doc.contents) != [];
  }

  // ---------------------------------------------------------------- combining

  /** The result of one rule: extension rules are told apart because they
      never count against "match all". */
  datatype Step = ExtStep(o: Outcome) | TestStep(o: Outcome)

  /** A step that ends the walk over an entry's rules. */
  predicate Decisive(s: Step, matchAll: bool) {
    s.o.Raised? || (s.ExtStep? && s.o.value) || (s.TestStep? && s.o.value != matchAll)
  }

  /** What the entry reports when the walk ends at a decisive step. */
  function StopVerdict(s: Step, matchAll: bool): Outcome {
    if s.o.Raised? then Raised else Returned(s.ExtStep? || !matchAll)
  }

  /** The walk of `syntax_matches` over the results of its rules. */
  function Combine(steps: seq<Step>, matchAll: bool): Outcome {
    if steps == [] then Returned(matchAll)
    else if Decisive(steps[0], matchAll) then StopVerdict(steps[0], matchAll)
    else Combine(steps[1..], matchAll)
  }

  predicate NoRaise(steps: seq<Step>) {
    forall i :: 0 <= i < |steps| ==> steps[i].o.Returned?
  }

  predicate StepHolds(s: Step) { s.o.Holds() }

  /** "Match any": True exactly when some rule, extension or not, holds; so
      an empty rule list is False. */
  lemma {:induction false} CombineAny(steps: seq<Step>)
    requires NoRaise(steps)
    ensures Combine(steps, false) == Returned(exists i :: 0 <= i < |steps| && StepHolds(steps[i]))
  {
    if steps != [] && !Decisive(steps[0], false) {
      CombineAny(steps[1..]);
      assert forall i :: 1 <= i < |steps| ==> steps[i] == steps[1..][i - 1];
    }
  }

  /** Every non-extension step before index `k` holds. */
  predicate TestsHoldBefore(steps: seq<Step>, k: int)
    requires k <= |steps|
  {
    forall i :: 0 <= i < k && steps[i].TestStep? ==> steps[i].o.Holds()
  }

  /** "Match all": True exactly when every non-extension rule holds, or some
      extension rule holds and every non-extension rule before it does;
      an empty list, or one of failing extension rules only, is True. */
  lemma {:induction false} CombineAll(steps: seq<Step>)
    requires NoRaise(steps)
    ensures Combine(steps, true) == Returned(
              TestsHoldBefore(steps, |steps|) ||
              exists k :: 0 <= k < |steps| && steps[k] == ExtStep(Returned(true)) && TestsHoldBefore(steps, k))
  {
    if steps != [] {
      var t := steps[1..];
      assert forall i :: 1 <= i < |steps| ==> steps[i] == t[i - 1];
      if !Decisive(steps[0], true) {
        CombineAll(t);
        if exists k :: 0 <= k < |t| && t[k] == ExtStep(Returned(true)) && TestsHoldBefore(t, k) {
          var k :| 0 <= k < |t| && t[k] == ExtStep(Returned(true)) && TestsHoldBefore(t, k);
          assert steps[k + 1] == ExtStep(Returned(true)) && TestsHoldBefore(steps, k + 1);
        }
        if exists k :: 0 <= k < |steps| && steps[k] == ExtStep(Returned(true)) && TestsHoldBefore(steps, k) {
          var k :| 0 <= k < |steps| && steps[k] == ExtStep(Returned(true)) && TestsHoldBefore(steps, k);
          assert k != 0;
          assert t[k - 1] == ExtStep(Returned(true)) && TestsHoldBefore(t, k - 1);
        }
      } else if steps[0].ExtStep? {
        assert steps[0] == ExtStep(Returned(true)) && TestsHoldBefore(steps, 0);
      }
    }
  }

  /** "Match all" over non-extension rules that all hold is True, and turning
      any one of them false makes it False. */
  lemma AllModeFlip(steps: seq<Step>, k: nat)
    requires forall i :: 0 <= i < |steps| ==> steps[i] == TestStep(Returned(true))
    requires k < |steps|
    ensures Combine(steps, true) == Returned(true)
    ensures Combine(steps[k := TestStep(Returned(false))], true) == Returned(false)
  {
    CombineAll(steps);
    var flipped := steps[k := TestStep(Returned(false))];
    CombineAll(flipped);
    assert !TestsHoldBefore(flipped, |flipped|) by { assert flipped[k].TestStep?; }
  }

  /** Steps before the first decisive one do not change the verdict. */
  lemma {:induction false} CombineSkip(prefix: seq<Step>, rest: seq<Step>, matchAll: bool)
    requires forall i :: 0 <= i < |prefix| ==> !Decisive(prefix[i], matchAll)
    ensures Combine(prefix + rest, matchAll) == Combine(rest, matchAll)
  {
    if prefix != [] {
      var whole := prefix + rest;
      assert whole[0] == prefix[0];
      assert whole[1..] == prefix[1..] + rest;
      assert !Decisive(whole[0], matchAll);
      assert Combine(whole, matchAll) == Combine(whole[1..], matchAll);
      assert forall i :: 0 <= i < |prefix| - 1 ==> prefix[1..][i] == prefix[i + 1];
      CombineSkip(prefix[1..], rest, matchAll);
    } else {
      assert prefix + rest == rest;
    }
  }

  // ------------------------------------------------------------ rules in order

  /** One rule's step and the plugin cache after it. */
  function StepOf(r: Rule, doc: Document, env: Env, reraise: bool, plugins: map<string, Callable>)
    : (Step, map<string, Callable>)
  {
    if r.extensions.Some? then (ExtStep(ExtensionOutcome(r.extensions.value, doc.fileName)), plugins)
    else if r.func.Some? then
      var res := FunctionStep(r.func.value, doc.fileName, env, reraise, plugins);
      (TestStep(res.0), res.1)
    else (TestStep(RegexOutcome(r, doc, env)), plugins)
  }

  /** The steps of all rules, each evaluated with the cache the ones before it left. */
  function Steps(rules: seq<Rule>, doc: Document, env: Env, reraise: bool, plugins: map<string, Callable>)
    : (steps: seq<Step>)
    ensures |steps| == |rules|
  {
    if rules == [] then []
    else
      var (s, p) := StepOf(rules[0], doc, env, reraise, plugins);
      [s] + Steps(rules[1..], doc, env, reraise, p)
  }

  /** `syntax_matches` as it runs: rules are evaluated in order and only until
      one decides the verdict; the result holds the verdict and the cache. */
  function EvalRules(rules: seq<Rule>, matchAll: bool, doc: Document, env: Env, reraise: bool,
                     plugins: map<string, Callable>): (r: (Outcome, map<string, Callable>))
  {
    if rules == [] then (Returned(matchAll), plugins)
    else
      var (s, p) := StepOf(rules[0], doc, env, reraise, plugins);
      if Decisive(s, matchAll) then (StopVerdict(s, matchAll), p)
      else EvalRules(rules[1..], matchAll, doc, env, reraise, p)
  }

  /** The walk from rule `i` on: rule `i`'s step, then either its verdict or
      the walk from rule `i + 1` with the cache it left. */
  lemma EvalRulesFrom(rules: seq<Rule>, i: nat, matchAll: bool, doc: Document, env: Env, reraise: bool,
                      plugins: map<string, Callable>)
    requires i < |rules|
    ensures var (s, p) := StepOf(rules[i], doc, env, reraise, plugins);
            EvalRules(rules[i..], matchAll, doc, env, reraise, plugins)
            == if Decisive(s, matchAll) then (StopVerdict(s, matchAll), p)
               else EvalRules(rules[i + 1..], matchAll, doc, env, reraise, p)
  {
    assert rules[i..][0] == rules[i] && rules[i..][1..] == rules[i + 1..];
  }

  /** One rule only adds to the plugin cache. */
  lemma StepOfKeepsCache(r: Rule, doc: Document, env: Env, reraise: bool, plugins: map<string, Callable>, s: string)
    requires s in plugins
    ensures var after := StepOf(r, doc, env, reraise, plugins).1;
            s in after && after[s] == plugins[s]
  {
    if r.extensions.None? && r.func.Some? {
      FunctionStepCache(r.func.value, doc.fileName, env, reraise, plugins);
    }
  }

  /** Evaluating an entry's rules only adds to the plugin cache: an entry
      cached before is still cached, with the same callable. */
  lemma {:induction false} EvalRulesKeepsCache(rules: seq<Rule>, matchAll: bool, doc: Document, env: Env,
                                               reraise: bool, plugins: map<string, Callable>, s: string)
    requires s in plugins
    ensures var after := EvalRules(rules, matchAll, doc, env, reraise, plugins).1;
            s in after && after[s] == plugins[s]
  {
    if rules != [] {
      var (st, p) := StepOf(rules[0], doc, env, reraise, plugins);
      StepOfKeepsCache(rules[0], doc, env, reraise, plugins, s);
      if !Decisive(st, matchAll) {
        EvalRulesKeepsCache(rules[1..], matchAll, doc, env, reraise, p, s);
      }
    }
  }

  /** Stopping early gives the verdict of the whole walk. */
  lemma {:induction false} EvalRulesIsCombine(rules: seq<Rule>, matchAll: bool, doc: Document, env: Env,
                                              reraise: bool, plugins: map<string, Callable>)
    ensures EvalRules(rules, matchAll, doc, env, reraise, plugins).0
         == Combine(Steps(rules, doc, env, reraise, plugins), matchAll)
  {
    if rules != [] {
      var (s, p) := StepOf(rules[0], doc, env, reraise, plugins);
      var steps := Steps(rules, doc, env, reraise, plugins);
      assert steps[0] == s && steps[1..] == Steps(rules[1..], doc, env, reraise, p);
      if !Decisive(s, matchAll) {
        EvalRulesIsCombine(rules[1..], matchAll, doc, env, reraise, p);
      }
    }
  }

  /** An entry's verdict. */
  function EntryOutcome(e: Entry, doc: Document, env: Env, reraise: bool, plugins: map<string, Callable>)
    : (Outcome, map<string, Callable>)
  {
    EvalRules(RulesOf(e), MatchAll(e), doc, env, reraise, plugins)
  }
}
