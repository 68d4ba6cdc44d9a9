/** The syntax catalogue: settings lookup, the extension rule put in front of
    each entry, the project/user/default tier order, and the walk that stops at
    the first entry that matches. */
module Catalog {
  import opened Common
  import opened Paths
  import opened Host
  import opened Plugins
  import opened Rules

  /** `create_extension_rule` for one entry: an entry with `extensions` gets
      `{'extensions': ...}` in front of its rules (a rule list is created when
      absent); nothing else about the entry changes. */
  function WithExtensionRule(e: Entry): (r: Entry)
    ensures e.extensions.None? ==> r == e
    ensures e.extensions.Some? ==>
              r.rules.Some? && RulesOf(r) == [ExtensionRule(e.extensions.value)] + RulesOf(e)
    ensures r.(rules := e.rules) == e
  {
    if e.extensions.Some? then e.(rules := Some([ExtensionRule(e.extensions.value)] + RulesOf(e))) else e
  }

  /** An entry whose extensions match the file is matched whatever its mode
      and whatever its other rules say. */
  lemma ExtensionsOverride(e: Entry, doc: Document, env: Env, reraise: bool, plugins: map<string, Callable>)
    requires e.extensions.Some? && doc.fileName.Some?
    requires ExtensionMatches(e.extensions.value, Lower(Basename(doc.fileName.value)))
    ensures EntryOutcome(WithExtensionRule(e), doc, env, reraise, plugins).0 == Returned(true)
  {
    var rules := RulesOf(WithExtensionRule(e));
    assert rules[0] == ExtensionRule(e.extensions.value);
  }

  /** `get_setting`: the view's own value, else the global value, else the default. */
  function Lookup<V>(local: map<string, V>, global: map<string, V>, name: string, default: V): (r: V)
    ensures r == (map[name := default] + global + local)[name]
  {
    if name in local then local[name] else if name in global then global[name] else default
  }

  /** One tier after `create_extension_rule`. */
  function Prepared(entries: seq<Entry>): (r: seq<Entry>)
    ensures |r| == |entries| && forall i :: 0 <= i < |r| ==> r[i] == WithExtensionRule(entries[i])
  {
    seq(|entries|, i requires 0 <= i < |entries| => WithExtensionRule(entries[i]))
  }

  /** `load_syntaxes`: project entries, then user entries, then default entries. */
  function Tiers(local: map<string, seq<Entry>>, global: map<string, seq<Entry>>): seq<Entry> {
    Prepared(Lookup(local, global, "project_syntaxes", []))
      + Prepared(Lookup(local, global, "syntaxes", []))
      + Prepared(Lookup(local, global, "default_syntaxes", []))
  }

  datatype ScanResult = Matched(index: nat, plugins: map<string, Callable>) | NoMatch(plugins: map<string, Callable>) | ScanRaised

  /** The loop of `detect_syntax`: entries are evaluated in order, sharing the
      plugin cache, until one matches or raises. */
  function ScanEntries(entries: seq<Entry>, doc: Document, env: Env, reraise: bool,
                       plugins: map<string, Callable>): (r: ScanResult)
    ensures r.Matched? ==> r.index < |entries|
  {
    if entries == [] then NoMatch(plugins)
    else
      var (o, p) := EntryOutcome(entries[0], doc, env, reraise, plugins);
      if o.Raised? then ScanRaised
      else if o.value then Matched(0, p)
      else
        match ScanEntries(entries[1..], doc, env, reraise, p)
        case Matched(k, q) => Matched(k + 1, q)
        case other => other
  }

  /** A result of the walk over a suffix, seen from `k` entries earlier. */
  function Shift(r: ScanResult, k: nat): ScanResult {
    match r
    case Matched(i, q) => Matched(i + k, q)
    case other => other
  }

  /** The same walk from entry `k` on, with indices counted in `entries`. */
  function ScanFrom(entries: seq<Entry>, k: nat, doc: Document, env: Env, reraise: bool,
                    plugins: map<string, Callable>): ScanResult
    requires k <= |entries|
    decreases |entries| - k
  {
    if k == |entries| then NoMatch(plugins)
    else
      var (o, p) := EntryOutcome(entries[k], doc, env, reraise, plugins);
      if o.Raised? then ScanRaised
      else if o.value then Matched(k, p)
      else ScanFrom(entries, k + 1, doc, env, reraise, p)
  }

  /** Walking from entry `k` is walking the suffix from `k`, shifted by `k`. */
  lemma {:induction false} ScanFromSuffix(entries: seq<Entry>, k: nat, doc: Document, env: Env, reraise: bool,
                                          plugins: map<string, Callable>)
    requires k <= |entries|
    ensures ScanFrom(entries, k, doc, env, reraise, plugins) == Shift(ScanEntries(entries[k..], doc, env, reraise, plugins), k)
    decreases |entries| - k
  {
    if k < |entries| {
      assert entries[k..][0] == entries[k] && entries[k..][1..] == entries[k + 1..];
      var (o, p) := EntryOutcome(entries[k], doc, env, reraise, plugins);
      if o.Returned? && !o.value {
        ScanFromSuffix(entries, k + 1, doc, env, reraise, p);
      }
    }
  }

  /** The plugin cache in place when entry `j` is evaluated. */
  function CacheBefore(entries: seq<Entry>, j: nat, doc: Document, env: Env, reraise: bool,
                       plugins: map<string, Callable>): map<string, Callable>
    requires j <= |entries|
  {
    if j == 0 then plugins
    else CacheBefore(entries[1..], j - 1, doc, env, reraise, EntryOutcome(entries[0], doc, env, reraise, plugins).1)
  }

  /** Entry `j`'s verdict, evaluated after all entries before it. */
  function OutcomeAt(entries: seq<Entry>, j: nat, doc: Document, env: Env, reraise: bool,
                     plugins: map<string, Callable>): Outcome
    requires j < |entries|
  {
    EntryOutcome(entries[j], doc, env, reraise, CacheBefore(entries, j, doc, env, reraise, plugins)).0
  }

  lemma OutcomeAtShift(entries: seq<Entry>, j: nat, doc: Document, env: Env, reraise: bool,
                       plugins: map<string, Callable>)
    requires 0 < j < |entries|
    ensures OutcomeAt(entries, j, doc, env, reraise, plugins)
         == OutcomeAt(entries[1..], j - 1, doc, env, reraise, EntryOutcome(entries[0], doc, env, reraise, plugins).1)
  {
    assert entries[j] == entries[1..][j - 1];
  }

  /** Every entry before `k` was evaluated and did not match. */
  ghost predicate NoneBefore(entries: seq<Entry>, k: nat, doc: Document, env: Env, reraise: bool,
                             plugins: map<string, Callable>)
    requires k <= |entries|
  {
    forall j :: 0 <= j < k ==> OutcomeAt(entries, j, doc, env, reraise, plugins) == Returned(false)
  }

  /** A first entry that does not match, followed by `k - 1` more in the rest. */
  lemma NoneBeforeCons(entries: seq<Entry>, k: nat, doc: Document, env: Env, reraise: bool,
                       plugins: map<string, Callable>)
    requires 0 < k <= |entries|
    requires OutcomeAt(entries, 0, doc, env, reraise, plugins) == Returned(false)
    requires NoneBefore(entries[1..], k - 1, doc, env, reraise, EntryOutcome(entries[0], doc, env, reraise, plugins).1)
    ensures NoneBefore(entries, k, doc, env, reraise, plugins)
  {
    forall j | 0 < j < k ensures OutcomeAt(entries, j, doc, env, reraise, plugins) == Returned(false) {
      OutcomeAtShift(entries, j, doc, env, reraise, plugins);
    }
  }

  /** An entry past a first one that did not match, seen from the rest. */
  lemma OutcomeAtTail(entries: seq<Entry>, k: nat, doc: Document, env: Env, reraise: bool,
                      plugins: map<string, Callable>)
    requires k < |entries| - 1
    ensures OutcomeAt(entries, k + 1, doc, env, reraise, plugins)
         == OutcomeAt(entries[1..], k, doc, env, reraise, EntryOutcome(entries[0], doc, env, reraise, plugins).1)
  {
    OutcomeAtShift(entries, k + 1, doc, env, reraise, plugins);
  }

  /** A match is at an entry that matches, after entries that did not. */
  lemma {:induction false} ScanMatchedFirst(entries: seq<Entry>, doc: Document, env: Env, reraise: bool,
                                            plugins: map<string, Callable>)
    requires ScanEntries(entries, doc, env, reraise, plugins).Matched?
    ensures var i := ScanEntries(entries, doc, env, reraise, plugins).index;
            OutcomeAt(entries, i, doc, env, reraise, plugins) == Returned(true) &&
            NoneBefore(entries, i, doc, env, reraise, plugins)
  {
    var (o, p) := EntryOutcome(entries[0], doc, env, reraise, plugins);
    assert OutcomeAt(entries, 0, doc, env, reraise, plugins) == o;
    if o == Returned(false) {
      ScanMatchedFirst(entries[1..], doc, env, reraise, p);
      var i := ScanEntries(entries[1..], doc, env, reraise, p).index;
      OutcomeAtTail(entries, i, doc, env, reraise, plugins);
      NoneBeforeCons(entries, i + 1, doc, env, reraise, plugins);
    }
  }

  /** No match means no entry matched. */
  lemma {:induction false} ScanNoMatchNone(entries: seq<Entry>, doc: Document, env: Env, reraise: bool,
                                           plugins: map<string, Callable>)
    requires ScanEntries(entries, doc, env, reraise, plugins).NoMatch?
    ensures NoneBefore(entries, |entries|, doc, env, reraise, plugins)
  {
    if entries != [] {
      var (o, p) := EntryOutcome(entries[0], doc, env, reraise, plugins);
      assert OutcomeAt(entries, 0, doc, env, reraise, plugins) == o;
      ScanNoMatchNone(entries[1..], doc, env, reraise, p);
      NoneBeforeCons(entries, |entries|, doc, env, reraise, plugins);
    }
  }

  /** Raising happens at an entry that raised, after entries that did not match. */
  lemma {:induction false} ScanRaisedAt(entries: seq<Entry>, doc: Document, env: Env, reraise: bool,
                                        plugins: map<string, Callable>)
    requires ScanEntries(entries, doc, env, reraise, plugins).ScanRaised?
    ensures exists k :: 0 <= k < |entries| && OutcomeAt(entries, k, doc, env, reraise, plugins).Raised? &&
                        NoneBefore(entries, k, doc, env, reraise, plugins)
  {
    var (o, p) := EntryOutcome(entries[0], doc, env, reraise, plugins);
    assert OutcomeAt(entries, 0, doc, env, reraise, plugins) == o;
    if o.Raised? {
      assert NoneBefore(entries, 0, doc, env, reraise, plugins);
    } else {
      ScanRaisedAt(entries[1..], doc, env, reraise, p);
      var k :| 0 <= k < |entries| - 1 && OutcomeAt(entries[1..], k, doc, env, reraise, p).Raised? &&
               NoneBefore(entries[1..], k, doc, env, reraise, p);
      OutcomeAtTail(entries, k, doc, env, reraise, plugins);
      NoneBeforeCons(entries, k + 1, doc, env, reraise, plugins);
    }
  }

  /** The walk selects the first entry that matches: every entry before it was
      evaluated and did not match; with no match, none matched; when it
      raises, it is at an entry after non-matching ones. */
  lemma ScanIsFirstMatch(entries: seq<Entry>, doc: Document, env: Env, reraise: bool,
                         plugins: map<string, Callable>)
    ensures var r := ScanEntries(entries, doc, env, reraise, plugins);
            (r.Matched? ==> OutcomeAt(entries, r.index, doc, env, reraise, plugins) == Returned(true) &&
                            forall j :: 0 <= j < r.index ==> OutcomeAt(entries, j, doc, env, reraise, plugins) == Returned(false)) &&
            (r.NoMatch? ==> forall j :: 0 <= j < |entries| ==> OutcomeAt(entries, j, doc, env, reraise, plugins) == Returned(false)) &&
            (r.ScanRaised? ==> exists k :: 0 <= k < |entries| && OutcomeAt(entries, k, doc, env, reraise, plugins).Raised? &&
                                 (forall j :: 0 <= j < k ==> OutcomeAt(entries, j, doc, env, reraise, plugins) == Returned(false)))
  {
    var r := ScanEntries(entries, doc, env, reraise, plugins);
    if r.Matched? {
      ScanMatchedFirst(entries, doc, env, reraise, plugins);
    } else if r.NoMatch? {
      ScanNoMatchNone(entries, doc, env, reraise, plugins);
    } else {
      ScanRaisedAt(entries, doc, env, reraise, plugins);
    }
  }

  /** An entry that matches after earlier entries that did not raise is
      selected, or an earlier one is. */
  lemma {:induction false} EarlierEntryWins(entries: seq<Entry>, i: nat, doc: Document, env: Env, reraise: bool,
                                            plugins: map<string, Callable>)
    requires i < |entries|
    requires OutcomeAt(entries, i, doc, env, reraise, plugins) == Returned(true)
    requires forall j :: 0 <= j < i ==> OutcomeAt(entries, j, doc, env, reraise, plugins).Returned?
    ensures ScanEntries(entries, doc, env, reraise, plugins).Matched?
    ensures ScanEntries(entries, doc, env, reraise, plugins).index <= i
  {
    var (o, p) := EntryOutcome(entries[0], doc, env, reraise, plugins);
    assert OutcomeAt(entries, 0, doc, env, reraise, plugins) == o;
    if o == Returned(false) {
      var tail := entries[1..];
      OutcomeAtTail(entries, i - 1, doc, env, reraise, plugins);
      forall j | 0 <= j < i - 1 ensures OutcomeAt(tail, j, doc, env, reraise, p).Returned? {
        OutcomeAtTail(entries, j, doc, env, reraise, plugins);
      }
      EarlierEntryWins(tail, i - 1, doc, env, reraise, p);
    }
  }

  /** A project entry that matches (with nothing before it raising) beats every
      user and default entry. */
  lemma ProjectTierFirst(local: map<string, seq<Entry>>, global: map<string, seq<Entry>>, i: nat,
                         doc: Document, env: Env, reraise: bool, plugins: map<string, Callable>)
    requires i < |Lookup(local, global, "project_syntaxes", [])|
    requires OutcomeAt(Tiers(local, global), i, doc, env, reraise, plugins) == Returned(true)
    requires forall j :: 0 <= j < i ==> OutcomeAt(Tiers(local, global), j, doc, env, reraise, plugins).Returned?
    ensures ScanEntries(Tiers(local, global), doc, env, reraise, plugins).Matched?
    ensures ScanEntries(Tiers(local, global), doc, env, reraise, plugins).index
            < |Lookup(local, global, "project_syntaxes", [])|
  {
    EarlierEntryWins(Tiers(local, global), i, doc, env, reraise, plugins);
  }
}
