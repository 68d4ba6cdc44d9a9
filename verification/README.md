# ApplySyntax detection and extension reconciliation, in Dafny

ApplySyntax is a Sublime Text plugin. It picks a grammar for each opened or saved file by checking a catalogue of syntax entries. An entry names a grammar and carries rules:
- file-name extensions;
- regular expressions over the first line, the file path or the whole text;
- Python predicate functions loaded from the Packages folder.

The first entry whose rules match decides. Its grammar is tried under each known grammar file format and applied when the resource exists.

When the option to add extensions to language settings is on, the plugin also keeps each language's `extensions` setting in step with the catalogue:
- extensions the catalogue declares are added to the language's list;
- additions that are no longer declared, or that now belong to another language, are pruned again;
- a bookkeeping document (`ApplySyntax.ext-list`) remembers what the plugin added.

The `is_size` predicate plugin compares the file's size with a rule argument such as `>30`.

The model has ten modules, one per file:

| module | models |
|---|---|
| `Common` | `Option`, the `Outcome` of a call that may raise (`Returned(b)` or `Raised`), and ASCII `lower`, `replace` and first-line helpers |
| `Paths` | the POSIX `os.path` functions used (`basename`, `dirname`, `splitext`, `join`) and `sublime_format_path` |
| `Host` | what the plugin gets from outside, as the value `Env`: the platform, `ST_LANGUAGES`, the regex engine as two uninterpreted predicates, module loading, predicate calls, and the set of loadable resources |
| `Plugins` | function rules: source validation, the path and module name `get_function` derives, and the plugin cache |
| `Rules` | the rule and entry datatypes; `extension_matches` and `regexp_matches` as functions; the "match any" / "match all" walk of `syntax_matches` |
| `Catalog` | `create_extension_rule`, `get_setting`, the tier order of `load_syntaxes`, and the walk that stops at the first matching entry |
| `Activation` | `set_syntax` as a function from candidate names to the sequence of grammar switches it makes |
| `Detector` | the listener as a class `ApplySyntax`, with its lazy caches, plugin cache, deprecation-warning set and catalogue; the editor view as a class `View` whose grammar the plugin switches |
| `ExtSync` | `map_extensions`, `update_language_extensions`, `prune_language_extensions` and both `update_extenstions`; the settings documents and the recorded inventory are the fields of a class `Registry` |
| `IsSize` | `parse_compare` and `syntax_test` |

The code that changes state step by step is modelled as methods with loops:
- the listener's passes;
- `create_extension_rule` on an array;
- both loops of `map_extensions`;
- the per-language loops of the add and prune passes.

Each method's postcondition equals a specification function. The properties are proved about those functions.

Points where the code, modelled as written, behaves differently from its documentation:
- **A second detection can switch again.** Detection is described as making no switch when it runs a second time on a document that already has the right grammar. In the code, the `break`s in `set_syntax` leave only the loop over formats; the loop over candidate names goes on. So with two candidates whose grammars both exist, every run switches to the first and then back to the second (`Activation.RerunSwitchesAgain`). With one candidate a second run switches nothing (`Activation.SingleCandidateIdempotent`), and no run switches twice in a row to the same grammar (`Activation.NoRepeatedSwitch`).
- **Conflict bookkeeping is not cleaned up.** Take two entries that declare the same extension for two loaded languages, with no later entry declaring it again. Reconciliation is described as removing the extension from the earlier language's bookkeeping. In the code, `map_extensions` adds the extension to the `ext_added` set of every language that owned it at some point during the walk. So the earlier language keeps it in its declared set. Every update then does two things (`ExtSync.ConflictEveryUpdateRewrites`):
  - it adds the extension back to the earlier language's live list, and the prune removes it again, so that language's settings file is rewritten on each update;
  - the bookkeeping written for that language still lists the extension.
  Only the live list is cleaned (`ExtSync.ConflictLoserPruned`).
- **Documents without a file name reach the rules.** `detect_syntax` tests `not view.file_name`. That tests the bound method, which is always true, so only scratch buffers are skipped. A document with no file name reaches the rules: an extension rule then raises from `basename(None)` (`Rules.ExtensionOutcome`), and a `file_path` rule gives False.

## Model

Paths are relative to the repository root. `ApplySyntax.py` is `Data/Packages/ApplySyntax-master/ApplySyntax.py`, and `is_size.py` is `Data/Packages/ApplySyntax-master/as_plugins/is_size.py`.

| member | source | states |
|---|---|---|
| Common.FirstLine | Data/Packages/ApplySyntax-master/ApplySyntax.py:388-391 | the first line is a prefix of the text with no line feed, followed by a line feed or by the end of the text |
| Common.Lower | Data/Packages/ApplySyntax-master/ApplySyntax.py:536 | `lower()` keeps the length and lower-cases each ASCII letter |
| Common.ReplaceChar | Data/Packages/ApplySyntax-master/ApplySyntax.py:518 | `replace` of one character keeps the length; each occurrence becomes the replacement and every other character stays |
| Paths.Basename | Data/Packages/ApplySyntax-master/ApplySyntax.py:150 | the base name is a suffix of the path with no `/`; when it is shorter than the path, a `/` precedes it |
| Paths.Dirname | Data/Packages/ApplySyntax-master/ApplySyntax.py:149 | the path is the directory, then a run of slashes, then the base name; the directory is empty exactly when the path has no `/`; it ends in `/` only when it is made only of slashes, and then the run is empty |
| Paths.SplitExt | Data/Packages/ApplySyntax-master/ApplySyntax.py:419 | the two parts concatenate to the path; the extension is empty, or is one dot followed by text with no dot and no `/` |
| Paths.SplitExtSplits | Data/Packages/ApplySyntax-master/ApplySyntax.py:419 | the extension is non-empty exactly when the base name has a dot after a character that is not a dot; with SplitExt's shape this puts the split at the base name's last dot |
| Paths.Join | Data/Packages/ApplySyntax-master/ApplySyntax.py:517 | an absolute second component is the result; otherwise the result is the first component followed by the second, with a `/` between them when the first is non-empty and does not end in `/` |
| Paths.SublimeFormatPath | Data/Packages/ApplySyntax-master/ApplySyntax.py:69-75 | the result has no backslash; on Windows a leading `X:/` or `X:\` becomes `X/`, followed by the rest up to a line feed; otherwise only backslashes change, each into `/` |
| Paths.FormatFixed | Data/Packages/ApplySyntax-master/ApplySyntax.py:69-75 | a path with no backslash and no drive prefix is returned unchanged |
| Paths.FormatIdempotent | Data/Packages/ApplySyntax-master/ApplySyntax.py:69-75 | formatting twice gives the same path as formatting once |
| IsSize.ParseInt | Data/Packages/ApplySyntax-master/as_plugins/is_size.py:17-20 | `int()` succeeds exactly on an optional sign followed by ASCII digits; the sign of the value follows the text |
| IsSize.ParseIntString | Data/Packages/ApplySyntax-master/as_plugins/is_size.py:18 | `int(str(n)) == n` for every integer |
| IsSize.ParseCompare | Data/Packages/ApplySyntax-master/as_plugins/is_size.py:7-21 | gives (None, None) for a text of length at most 1 or one that does not start with `>`, `<` or `=`; otherwise gives the operator, and the remainder's integer value or None |
| IsSize.ParseCompareRoundTrip | Data/Packages/ApplySyntax-master/as_plugins/is_size.py:4-21 | parsing an operator followed by the decimal form of `n` gives back `n` and the operator |
| IsSize.SyntaxTest | Data/Packages/ApplySyntax-master/as_plugins/is_size.py:24-49 | False when the size, the operator or the file size is missing; otherwise the file size compared with the size by `>`, `<` or `==` according to the operator |
| IsSize.SyntaxTestExample | Data/Packages/ApplySyntax-master/as_plugins/is_size.py:24-49 | a 40-byte file passes `>30` and fails `<30`, `=30`, `>3x` and `!30`; an unknown size fails |
| Plugins.GetFunctionResolves | Data/Packages/ApplySyntax-master/ApplySyntax.py:512-529 | the loader finds a callable exactly when the module at the derived path defines the entry point (default `syntax_test`); the callable carries that path, the derived module name and the entry point; it raises exactly when not found and exceptions are reraised |
| Plugins.ModuleNameRoundTrip | Data/Packages/ApplySyntax-master/ApplySyntax.py:517-518 | for a dotted source made of path components, the module name derived from its resource path is the source itself |
| Plugins.CallOutcome | Data/Packages/ApplySyntax-master/ApplySyntax.py:570-576 | a call raises exactly when the predicate threw and exceptions are reraised; it holds exactly when the predicate returned a true value |
| Plugins.FunctionStepCache | Data/Packages/ApplySyntax-master/ApplySyntax.py:544-568 | the cache is unchanged, or gains exactly the callable resolved for a valid source not cached before; nothing raises unless exceptions are reraised; a missing or invalid uncached source gives False and leaves the cache alone |
| Plugins.CacheTransparent | Data/Packages/ApplySyntax-master/ApplySyntax.py:550-568 | when the cached callable is the one the rule would resolve, the cache does not change the outcome |
| Plugins.CacheIgnoresEntryPoint | Data/Packages/ApplySyntax-master/ApplySyntax.py:550-551 | the cache is keyed by source alone: a later rule with the same source calls the entry point resolved by the first, whatever name it gives |
| Rules.ExtensionMatches | Data/Packages/ApplySyntax-master/ApplySyntax.py:537-541 | true exactly when some listed extension either starts with a dot and equals the base name, or is the base name's suffix after a dot |
| Rules.ExtensionOutcome | Data/Packages/ApplySyntax-master/ApplySyntax.py:531-542 | raises exactly when the document has no file name; otherwise matches exactly when some listed extension hits the lower-cased base name |
| Rules.ExtensionCaseExample | Data/Packages/ApplySyntax-master/ApplySyntax.py:535-539 | listed extensions are not lower-cased: `py` matches `/src/Main.PY` and `PY` does not |
| Rules.SelectRegex | Data/Packages/ApplySyntax-master/ApplySyntax.py:583-615 | no selection exactly when the rule has none of the six keys; otherwise a present key, with the shebang prefix in front of `interpreter` and `binary` patterns |
| Rules.SelectRegexFirstKey | Data/Packages/ApplySyntax-master/ApplySyntax.py:583-608 | the selected key is the first present one in the order first_line, interpreter, binary, file_path, file_name, contains |
| Rules.RegexOutcome | Data/Packages/ApplySyntax-master/ApplySyntax.py:578-624 | False with no key, an empty pattern, or a missing or empty subject; otherwise `contains` searches and every other key matches at the start, with the engine's outcome, a raise included |
| Rules.RegexExamples | Data/Packages/ApplySyntax-master/ApplySyntax.py:588-621 | an `interpreter` rule matches the prefixed pattern against the first line; a `contains` rule searches the whole text |
| Rules.CombineAny | Data/Packages/ApplySyntax-master/ApplySyntax.py:479-510 | in "match any" mode the verdict is True exactly when some rule holds, so an empty list is False |
| Rules.CombineAll | Data/Packages/ApplySyntax-master/ApplySyntax.py:479-506 | in "match all" mode the verdict is True exactly when every non-extension rule holds, or a matching extension rule comes after non-extension rules that all hold; failing extension rules are skipped |
| Rules.AllModeFlip | Data/Packages/ApplySyntax-master/ApplySyntax.py:493-506 | "match all" over rules that all hold is True, and making any one of them fail makes it False |
| Rules.CombineSkip | Data/Packages/ApplySyntax-master/ApplySyntax.py:479-510 | rules before the first decisive one do not change the verdict |
| Rules.EvalRulesIsCombine | Data/Packages/ApplySyntax-master/ApplySyntax.py:473-510 | the walk with early returns gives the verdict of combining every rule's result in order |
| Rules.EvalRulesKeepsCache | Data/Packages/ApplySyntax-master/ApplySyntax.py:550-568 | evaluating an entry's rules keeps every cached callable |
| Catalog.WithExtensionRule | Data/Packages/ApplySyntax-master/ApplySyntax.py:447-451 | an entry without `extensions` is unchanged; one with it gets the extension rule in front of its old rules, with the list created if absent; nothing else changes |
| Catalog.ExtensionsOverride | Data/Packages/ApplySyntax-master/ApplySyntax.py:480-484 | an entry whose extensions match the file is matched whatever its mode and its other rules |
| Catalog.Lookup | Data/Packages/ApplySyntax-master/ApplySyntax.py:320-324 | the view's value overrides the global value, which overrides the default |
| Catalog.Prepared | Data/Packages/ApplySyntax-master/ApplySyntax.py:444-452 | the list keeps its length and order, and each entry gets its extension rule |
| Catalog.ScanEntries | Data/Packages/ApplySyntax-master/ApplySyntax.py:369-375 | a match is at an index of the catalogue |
| Catalog.ScanMatchedFirst | Data/Packages/ApplySyntax-master/ApplySyntax.py:369-375 | the selected entry matches, and every entry before it was evaluated and did not match |
| Catalog.ScanNoMatchNone | Data/Packages/ApplySyntax-master/ApplySyntax.py:369-375 | with no selection, every entry was evaluated and none matched |
| Catalog.ScanRaisedAt | Data/Packages/ApplySyntax-master/ApplySyntax.py:369-375 | a raising walk stops at an entry that raised, after entries that did not match |
| Catalog.ScanIsFirstMatch | Data/Packages/ApplySyntax-master/ApplySyntax.py:369-375 | the three cases together: the walk selects the first matching entry |
| Catalog.EarlierEntryWins | Data/Packages/ApplySyntax-master/ApplySyntax.py:369-375 | an entry that matches, with no raise before it, is selected, or an earlier one is |
| Catalog.ProjectTierFirst | Data/Packages/ApplySyntax-master/ApplySyntax.py:471 | a matching project entry, with no raise before it, beats every user and default entry |
| Activation.CandidatePath | Data/Packages/ApplySyntax-master/ApplySyntax.py:415-426 | a path exists exactly when the candidate has a directory and does not end in a different known format; it has no backslash; for a candidate and format with no backslash it is `Packages/<dir>/<stem><format>` |
| Activation.CandidatePaths | Data/Packages/ApplySyntax-master/ApplySyntax.py:414-426 | one path per format, in the order of the formats |
| Activation.Choose | Data/Packages/ApplySyntax-master/ApplySyntax.py:428-442 | a switch is only ever to an existing resource that differs from the current grammar |
| Activation.ChooseFirstHit | Data/Packages/ApplySyntax-master/ApplySyntax.py:414-442 | the format loop stops at the first path that is the current grammar (no switch) or exists (switch to it) |
| Activation.ChooseAllPass | Data/Packages/ApplySyntax-master/ApplySyntax.py:414-442 | when no path is the current grammar or exists, nothing is switched |
| Activation.ChooseSettles | Data/Packages/ApplySyntax-master/ApplySyntax.py:428-442 | running the format loop again from the grammar it left switches nothing |
| Activation.FormatLoopSettles | Data/Packages/ApplySyntax-master/ApplySyntax.py:414-442 | trying one candidate again from the grammar it left switches nothing |
| Activation.SetSyntaxCalls | Data/Packages/ApplySyntax-master/ApplySyntax.py:413-442 | at most one switch per candidate, each to an existing resource, and the first differs from the current grammar |
| Activation.NoRepeatedSwitch | Data/Packages/ApplySyntax-master/ApplySyntax.py:431 | no two consecutive switches go to the same grammar |
| Activation.SingleCandidateIdempotent | Data/Packages/ApplySyntax-master/ApplySyntax.py:409-442 | with a single candidate, a second run right after the first switches nothing |
| Activation.PreferredFormatHit | Data/Packages/ApplySyntax-master/ApplySyntax.py:414-437 | a candidate whose path in the preferred format exists stops there: it switches unless that is already the grammar |
| Activation.TwoCandidates | Data/Packages/ApplySyntax-master/ApplySyntax.py:413-442 | two candidates are each tried, the second against the grammar the first left |
| Activation.LaterCandidateOverrides | Data/Packages/ApplySyntax-master/ApplySyntax.py:413-437 | with two candidates whose preferred paths exist, the later one ends up applied |
| Activation.RerunSwitchesAgain | Data/Packages/ApplySyntax-master/ApplySyntax.py:413-442 | run again from the second candidate's grammar, the pass switches to the first and back to the second |
| Detector.View.SetSyntaxFile | Data/Packages/ApplySyntax-master/ApplySyntax.py:435 | the view's grammar becomes the path, and the switch is recorded |
| Detector.ApplySyntax.constructor | Data/Packages/ApplySyntax-master/ApplySyntax.py:267-277 | empty caches, no view, no entries, no reraising, no warnings seen, empty plugin cache |
| Detector.ApplySyntax.PrintDeprecationWarning | Data/Packages/ApplySyntax-master/ApplySyntax.py:281-300 | a warning is reported exactly when its key (keyword, or keyword and rule) was not seen, and the key is then seen |
| Detector.ApplySyntax.GetSetting | Data/Packages/ApplySyntax-master/ApplySyntax.py:320-324 | the view's value, else the global value, else the default |
| Detector.ApplySyntax.ResetCacheVariables | Data/Packages/ApplySyntax-master/ApplySyntax.py:378-386 | the view and its file name are taken, both text caches are empty, no entries, no reraising |
| Detector.ApplySyntax.FetchFirstLine | Data/Packages/ApplySyntax-master/ApplySyntax.py:388-391 | the first-line cache holds the document's first line |
| Detector.ApplySyntax.FetchEntireFile | Data/Packages/ApplySyntax-master/ApplySyntax.py:393-396 | the whole-text cache holds the document's text |
| Detector.ApplySyntax.CreateExtensionRule | Data/Packages/ApplySyntax-master/ApplySyntax.py:444-452 | in place, every entry becomes its version with the extension rule in front |
| Detector.ApplySyntax.PreparedTier | Data/Packages/ApplySyntax-master/ApplySyntax.py:459-469 | one tier as read by `get_setting`, with extension rules added |
| Detector.ApplySyntax.LoadSyntaxes | Data/Packages/ApplySyntax-master/ApplySyntax.py:454-471 | the reraise flag comes from the settings; the entries are the project, then user, then default tier |
| Detector.ApplySyntax.FunctionMatches | Data/Packages/ApplySyntax-master/ApplySyntax.py:544-576 | the outcome and the new plugin cache are those of the function-rule semantics; the `name` warning is recorded exactly when an uncached rule gives a name |
| Detector.ApplySyntax.RegexpMatches | Data/Packages/ApplySyntax-master/ApplySyntax.py:578-624 | the outcome is the regex-rule semantics; the caches only ever hold the document's facts; a filled cache is kept; the first line is fetched for `first_line`, `interpreter` and `binary` rules only, and is cached afterwards; the whole text is fetched for `contains` only, and is cached afterwards; `binary` and `file_name` record their deprecation warning |
| Detector.ApplySyntax.RuleMatches | Data/Packages/ApplySyntax-master/ApplySyntax.py:480-491 | one rule's result and the new cache, as the rule semantics give them; warnings already seen stay seen |
| Detector.ApplySyntax.SyntaxMatches | Data/Packages/ApplySyntax-master/ApplySyntax.py:473-510 | the verdict and the plugin cache are those of the walk over the entry's rules; warnings already seen stay seen |
| Detector.ApplySyntax.TryFormats | Data/Packages/ApplySyntax-master/ApplySyntax.py:414-442 | the view is switched exactly by the format loop's choice, if any |
| Detector.ApplySyntax.SetSyntax | Data/Packages/ApplySyntax-master/ApplySyntax.py:398-442 | the view's switches are exactly the pass's switches and its grammar is the last one; with no target, the path functions raise (when any format is known) and nothing changes |
| Detector.ApplySyntax.FirstMatch | Data/Packages/ApplySyntax-master/ApplySyntax.py:369-375 | it raises, finds an index, or finds nothing, exactly as the walk over the entries does; warnings already seen stay seen |
| Detector.ApplySyntax.ApplyFirstMatch | Data/Packages/ApplySyntax-master/ApplySyntax.py:369-376 | only the first matching entry's grammar is applied; with no match or a raise the view is unchanged; a matched entry with a `name` key records the `name` deprecation warning unless the switch raised; the caches still hold only the document's facts; the plugin cache is emptied unless something raised |
| Detector.ApplySyntax.ApplyEntry | Data/Packages/ApplySyntax-master/ApplySyntax.py:371-374 | the matched entry's grammar is set as the activation pass gives it (a missing target raises when any format is known); the `name` deprecation warning is recorded exactly when the entry has a `name` key and nothing raised |
| Detector.ApplySyntax.Detect | Data/Packages/ApplySyntax-master/ApplySyntax.py:356-376 | for a scratch view only the plugin cache is emptied: the view and every other field of the listener keep their values; otherwise the project, user and default entries are loaded, only the first match's grammar is applied, a matched entry with a `name` key records the `name` deprecation warning, and the caches hold only the document's facts; warnings already seen stay seen |
| ExtSync.Tracked | Data/Packages/ApplySyntax-master/ApplySyntax.py:223 | exactly one empty set per loaded language stem |
| ExtSync.DeclareOwner | Data/Packages/ApplySyntax-master/ApplySyntax.py:152-157 | the declaring name becomes the owner (the last name) of every extension it lists; every other extension keeps its list, and no extension is added or removed |
| ExtSync.DeclareAll | Data/Packages/ApplySyntax-master/ApplySyntax.py:153-157 | the first loop appends the name to each listed extension's list, in order |
| ExtSync.SettleOwners | Data/Packages/ApplySyntax-master/ApplySyntax.py:159-162 | the second loop raises exactly when some list is empty or its last name is not a loaded language; otherwise it computes the settled maps |
| ExtSync.SettleFacts | Data/Packages/ApplySyntax-master/ApplySyntax.py:159-162 | settling cuts every list to its last name and adds each extension to its owner's set; it raises exactly when some list is empty or names an untracked language |
| ExtSync.SettleKeepsOwner | Data/Packages/ApplySyntax-master/ApplySyntax.py:159-162 | settling keeps every owner, records the extension in the owner's set, and removes nothing from any set |
| ExtSync.MapExtensions | Data/Packages/ApplySyntax-master/ApplySyntax.py:136-162 | one call raises or gives the new maps exactly as the declaration step does |
| ExtSync.MapStepOwner | Data/Packages/ApplySyntax-master/ApplySyntax.py:147-162 | after one declaration, a loaded declarer owns each extension it lists and holds it in its set, other owners stay, and the sets only grow |
| ExtSync.WalkOwner | Data/Packages/ApplySyntax-master/ApplySyntax.py:227-237 | after the walk, each extension's owner is the last loaded language that declared it, and that language's set holds it |
| ExtSync.ConflictKeepsBoth | Data/Packages/ApplySyntax-master/ApplySyntax.py:152-162 | when a later entry's language declares an extension an earlier language owned, the later one owns it and both sets hold it |
| ExtSync.WalkCatalog | Data/Packages/ApplySyntax-master/ApplySyntax.py:223-237 | the loop over the default and user entries raises or gives the maps exactly as the walk does |
| ExtSync.AddAllOnlyAdds | Data/Packages/ApplySyntax-master/ApplySyntax.py:116-131 | each live list becomes its union with the declared extensions; the bookkeeping gains exactly the declared ones that were missing |
| ExtSync.AddAllNothingMissing | Data/Packages/ApplySyntax-master/ApplySyntax.py:124-133 | nothing is written or saved when every declared extension is present |
| ExtSync.AddAllSaves | Data/Packages/ApplySyntax-master/ApplySyntax.py:124-133 | a language missing a declared extension is among the languages this pass rewrites, and its settings file and the bookkeeping are saved |
| ExtSync.PrunedSet | Data/Packages/ApplySyntax-master/ApplySyntax.py:186-196 | the pruned list is the live list minus (recorded minus declared) minus extensions another language owns |
| ExtSync.PruneNeverAdds | Data/Packages/ApplySyntax-master/ApplySyntax.py:186-201 | each tracked language's live list becomes its pruned set and untracked ones are untouched; no list grows |
| ExtSync.PruneBookkeeping | Data/Packages/ApplySyntax-master/ApplySyntax.py:199-207 | a rewritten language's bookkeeping is its declared set, or erased when it declares nothing; other bookkeeping is untouched |
| ExtSync.PruneNothingRemoved | Data/Packages/ApplySyntax-master/ApplySyntax.py:199-214 | nothing is written or saved when nothing was removed |
| ExtSync.NothingDeclaredPrunes | Data/Packages/ApplySyntax-master/ApplySyntax.py:186-207 | with nothing declared and no owners, every recorded addition leaves the live list, and the bookkeeping is erased when that removed something |
| ExtSync.DisabledPruneRemovesRecorded | Data/Packages/ApplySyntax-master/ApplySyntax.py:646-652 | with the feature disabled, every recorded addition is removed from each loaded language's live list |
| ExtSync.ConflictLoserPruned | Data/Packages/ApplySyntax-master/ApplySyntax.py:191-196 | in a conflict the earlier language keeps the extension in its declared set but loses it from its live list |
| ExtSync.ConflictRewritesLoser | Data/Packages/ApplySyntax-master/ApplySyntax.py:116-214 | a language that keeps an extension another language owns is among the languages each add-and-prune pass rewrites in its prune step; it loses the extension from its live list, and its bookkeeping still lists it |
| ExtSync.ConflictEveryUpdateRewrites | Data/Packages/ApplySyntax-master/ApplySyntax.py:217-241 | when an entry declares an extension for a loaded language, the last earlier entry declaring it names another loaded language, and no later entry declares it, every successful update rewrites the earlier language in its prune step, leaves the extension out of its list and keeps it in its bookkeeping |
| ExtSync.Registry.AddLanguage | Data/Packages/ApplySyntax-master/ApplySyntax.py:108-133 | one language of the add pass: the documents become those of the one-language add |
| ExtSync.Registry.UpdateLanguageExtensions | Data/Packages/ApplySyntax-master/ApplySyntax.py:105-133 | the documents become those of the add pass over every language |
| ExtSync.Registry.PruneLanguage | Data/Packages/ApplySyntax-master/ApplySyntax.py:177-214 | one language of the prune pass: the documents become those of pruning that language alone |
| ExtSync.Registry.PruneLanguageExtensions | Data/Packages/ApplySyntax-master/ApplySyntax.py:165-214 | the documents become those of the prune pass over every language |
| ExtSync.Registry.UpdateExtensions | Data/Packages/ApplySyntax-master/ApplySyntax.py:217-241 | raises exactly when the walk raises, and then nothing is written; otherwise the documents are those after adding, then pruning |
| ExtSync.Registry.Refresh | Data/Packages/ApplySyntax-master/ApplySyntax.py:307-318 | nothing happens unless the feature is on and the inventory differs from the recorded one; then the inventory is recorded and a full update runs |
| ExtSync.Registry.OnReload | Data/Packages/ApplySyntax-master/ApplySyntax.py:639-656 | with the feature off, every language is pruned with nothing declared; otherwise the inventory is recorded and a full update runs |

## Left out

- Logging (`log`, `debug`, `devlog`) and the event wiring (`on_new`, `on_load`, `on_post_save`, `on_touched`, `touch`, `touch_untouched`, `plugin_loaded`, settings callbacks): host glue with no logic beyond calling the modelled operations.
- `ensure_user_settings`, `DEFAULT_SETTINGS` and `get_all_syntax_files`: they write or enumerate files. The inventory of loaded grammars is a parameter: a set of paths without their file suffix.
- `get_lang_hash`: its `hash()` of the inventory is modelled by keeping and comparing the inventory itself. Its `was_seen` helper never filters, because `base is not item_set` is always true, so deduplication comes only from the set.
- Module loading in `get_function` (`imp`, `compile`, `exec`, `getattr`): the oracle `Env.defines` says whether the module at a path defines an entry point. Calling a predicate is the oracle `Env.invoke`.
- Python regular expressions: `Env.reMatch` and `Env.reSearch` are uninterpreted and may raise for a malformed pattern.
- `sublime.load_resource` is membership in `Env.resources`; `view.substr` is the document's text; settings storage is the `Registry` fields.
- `os.path` is modelled with POSIX semantics; Windows enters only through the platform flag of `sublime_format_path`.
- `str.lower()` is modelled on ASCII letters only.
- IsSize.ParseInt: `int()` also accepts surrounding whitespace and digit-separating underscores; the model accepts only an optional sign and ASCII digits.
- `os.path.getsize`: the file size is a parameter, None when the call raises.
- Settings values of other types than the model's (a non-list `extensions`, a non-string `syntax`) are not modelled. An entry whose target is a list or missing makes `update_extenstions` raise, and the model keeps that.
- List order and duplicates in the `extensions` settings and the bookkeeping are not modelled: both are read as sets, and the sorted lists written are modelled as sets. The order in which settings files are saved is modelled as a set of saved files.
- The list case of `names` in `map_extensions` is unreachable, because its only caller passes one string, so it is not modelled. With it goes the shadowing of `ext` in its second loop.
- The erase branch of `update_language_extensions` (`extension_file.erase(sorted(lang))`) is unreachable: the bookkeeping set is non-empty whenever something was added. The model asserts that it cannot be reached.
- `add_exts_to_lang_settings` is read from the settings; the model takes it as the boolean parameter `addExts`.
- `as_plugins/is_rails_file.py` is not part of this model: it walks the file system with platform-dependent path splitting.
