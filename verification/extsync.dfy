/** Extension reconciliation: every entry of the default and user catalogue
    that lists `extensions` declares them for its language; the declarations
    are added to the languages' own settings files, and additions that are no
    longer declared (or now belong to another language) are pruned again. */
module ExtSync {
  import opened Common
  import opened Paths
  import opened Rules
  import opened Catalog

  /** The settings file where the plugin records which extensions it added. */
  const ExtSettings: string := "ApplySyntax.ext-list"

  function LangSettings(lang: string): string {
    lang + ".sublime-settings"
  }

  function Last(s: seq<string>): string
    requires s != []
  {
    s[|s| - 1]
  }

  /** A dictionary value that may be absent, read as empty. */
  function Get(m: map<string, set<string>>, k: string): set<string> {
    if k in m then m[k] else {}
  }

  /** The key `ext_added` uses for an inventory item (a grammar path without
      its extension). */
  function LangStem(item: string): string {
    SplitExt(Basename(item)).0
  }

  /** `ext_added` before any declaration: an empty set per loaded language. */
  function Tracked(inventory: set<string>): (r: map<string, set<string>>)
    ensures forall i :: i in inventory ==> LangStem(i) in r && r[LangStem(i)] == {}
    ensures forall l :: l in r ==> exists i :: i in inventory && LangStem(i) == l
  {
    map i | i in inventory :: LangStem(i) := {}
  }

  /** The language an extension is attributed to: the last name appended for it. */
  function Owner(extMap: map<string, seq<string>>, ext: string): Option<string> {
    if ext in extMap && extMap[ext] != [] then Some(Last(extMap[ext])) else None
  }

  /** The extensions attributed to `lang`. */
  function OwnedBy(extMap: map<string, seq<string>>, lang: string): set<string> {
    set e | e in extMap && extMap[e] != [] && Last(extMap[e]) == lang
  }

  /** The dictionaries `map_extensions` updates. */
  datatype Maps = Maps(extMap: map<string, seq<string>>, extAdded: map<string, set<string>>)

  /** The first loop of `map_extensions`: `name` appended to the list of each
      extension in `exts`, in order. */
  function Declare(extMap: map<string, seq<string>>, exts: seq<string>, name: string): map<string, seq<string>> {
    if exts == [] then extMap
    else
      var before := Declare(extMap, exts[..|exts| - 1], name);
      var e := exts[|exts| - 1];
      before[e := (if e in before then before[e] else []) + [name]]
  }

  /** The last declarer owns an extension it declared; other extensions keep
      their lists. */
  lemma {:induction false} DeclareOwner(extMap: map<string, seq<string>>, exts: seq<string>, name: string, e: string)
    ensures e in exts ==> Owner(Declare(extMap, exts, name), e) == Some(name)
    ensures e !in exts ==> (e in Declare(extMap, exts, name) <==> e in extMap)
    ensures e !in exts && e in extMap ==> Declare(extMap, exts, name)[e] == extMap[e]
  {
    if exts != [] {
      var prefix := exts[..|exts| - 1];
      assert exts == prefix + [exts[|exts| - 1]];
      DeclareOwner(extMap, prefix, name, e);
    }
  }

  /** The second loop of `map_extensions`: every list is cut to its last name,
      and each extension is added to its owner's `ext_added` set. It raises
      (KeyError, IndexError) when an owner is not a tracked language or a list
      is empty. */
  function Settle(extMap: map<string, seq<string>>, extAdded: map<string, set<string>>): Option<Maps> {
    if exists e :: e in extMap && (extMap[e] == [] || Last(extMap[e]) !in extAdded) then None
    else
      Some(Maps(map e | e in extMap :: [Last(extMap[e])],
                map l | l in extAdded :: extAdded[l] + OwnedBy(extMap, l)))
  }

  /** The resource path `map_extensions` looks up in the inventory for `n`. */
  function SyntaxStem(windows: bool, n: string): string {
    SublimeFormatPath(windows, PackagesPath(Dirname(n), Basename(n)))
  }

  /** `map_extensions` for a single name (the only form its caller uses);
      None when it raises. */
  function MapStep(exts: seq<string>, inventory: set<string>, windows: bool, n: string, m: Maps): Option<Maps> {
    var declared := if SyntaxStem(windows, n) in inventory then Declare(m.extMap, exts, Basename(n)) else m.extMap;
    Settle(declared, m.extAdded)
  }

  /** `map_extensions(ext, lst, names, ext_map, ext_added)` with `names` a
      single name, on copies of the two dictionaries. */
  method MapExtensions(exts: seq<string>, inventory: set<string>, windows: bool, n: string,
                       extMap: map<string, seq<string>>, extAdded: map<string, set<string>>)
    returns (raised: bool, extMap': map<string, seq<string>>, extAdded': map<string, set<string>>)
    ensures raised <==> MapStep(exts, inventory, windows, n, Maps(extMap, extAdded)).None?
    ensures !raised ==> MapStep(exts, inventory, windows, n, Maps(extMap, extAdded)) == Some(Maps(extMap', extAdded'))
  {
    var syntaxFile := SyntaxStem(windows, n);
    var declared := extMap;
    if syntaxFile in inventory {
      declared := DeclareAll(extMap, exts, Basename(n));
    }
    raised, extMap', extAdded' := SettleOwners(declared, extAdded);
  }

  /** The first loop of `map_extensions`. */
  method DeclareAll(extMap: map<string, seq<string>>, exts: seq<string>, name: string)
    returns (extMap': map<string, seq<string>>)
    ensures extMap' == Declare(extMap, exts, name)
  {
    extMap' := extMap;
    for i := 0 to |exts|
      invariant extMap' == Declare(extMap, exts[..i], name)
    {
      var e := exts[i];
      ghost var next := exts[..i + 1];
      assert next[..|next| - 1] == exts[..i] && next[|next| - 1] == e;
      assert Declare(extMap, next, name) == extMap'[e := (if e in extMap' then extMap'[e] else []) + [name]];
      if e in extMap' {
        extMap' := extMap'[e := extMap'[e] + [name]];
      } else {
        assert [] + [name] == [name];
        extMap' := extMap'[e := [name]];
      }
    }
    assert exts[..|exts|] == exts;
  }

  /** How far the second loop of `map_extensions` has got: the keys no longer
      pending are cut to their owner and recorded in its set. */
  ghost predicate SettleProgress(declared: map<string, seq<string>>, extAdded: map<string, set<string>>,
                                 pending: set<string>, extMap': map<string, seq<string>>,
                                 extAdded': map<string, set<string>>) {
    pending <= declared.Keys && extMap'.Keys == declared.Keys && extAdded'.Keys == extAdded.Keys &&
    (forall e :: e in declared && e !in pending ==> declared[e] != [] && Last(declared[e]) in extAdded) &&
    (forall e :: e in declared ==> extMap'[e] == if e in pending then declared[e] else [Last(declared[e])]) &&
    (forall l, x :: l in extAdded ==>
       (x in extAdded'[l] <==> x in extAdded[l] || (x in declared && x !in pending && Last(declared[x]) == l)))
  }

  lemma SettleStart(declared: map<string, seq<string>>, extAdded: map<string, set<string>>)
    ensures SettleProgress(declared, extAdded, declared.Keys, declared, extAdded)
  {
  }

  /** A pending key with an empty list, or whose last name is not tracked, makes it raise. */
  lemma SettleRaises(declared: map<string, seq<string>>, extAdded: map<string, set<string>>, e: string)
    requires e in declared && (declared[e] == [] || Last(declared[e]) !in extAdded)
    ensures Settle(declared, extAdded).None?
  {
  }

  lemma SettleStep(declared: map<string, seq<string>>, extAdded: map<string, set<string>>,
                   pending: set<string>, extMap': map<string, seq<string>>,
                   extAdded': map<string, set<string>>, e: string)
    requires SettleProgress(declared, extAdded, pending, extMap', extAdded') && e in pending
    requires declared[e] != [] && Last(declared[e]) in extAdded
    ensures var lang := Last(declared[e]);
            SettleProgress(declared, extAdded, pending - {e}, extMap'[e := [lang]],
                           extAdded'[lang := extAdded'[lang] + {e}])
  {
  }

  /** The second loop of `map_extensions`, over the dictionary's keys. */
  method SettleOwners(declared: map<string, seq<string>>, extAdded: map<string, set<string>>)
    returns (raised: bool, extMap': map<string, seq<string>>, extAdded': map<string, set<string>>)
    ensures raised <==> Settle(declared, extAdded).None?
    ensures !raised ==> Settle(declared, extAdded) == Some(Maps(extMap', extAdded'))
  {
    extMap', extAdded' := declared, extAdded;
    var pending := declared.Keys;
    SettleStart(declared, extAdded);
    while pending != {}
      invariant SettleProgress(declared, extAdded, pending, extMap', extAdded')
      decreases pending
    {
      var e :| e in pending;
      var languages := extMap'[e];
      if languages == [] {
        SettleRaises(declared, extAdded, e);
        return true, extMap', extAdded';
      }
      var lang := languages[|languages| - 1];
      if lang !in extAdded' {
        SettleRaises(declared, extAdded, e);
        extMap' := extMap'[e := [lang]];
        return true, extMap', extAdded';
      }
      SettleStep(declared, extAdded, pending, extMap', extAdded', e);
      extMap' := extMap'[e := [lang]];
      extAdded' := extAdded'[lang := extAdded'[lang] + {e}];
      pending := pending - {e};
    }
    raised := false;
    SettleComplete(declared, extAdded, extMap', extAdded');
  }

  /** Once every key was processed without raising, the loop has computed `Settle`. */
  lemma SettleComplete(declared: map<string, seq<string>>, extAdded: map<string, set<string>>,
                       extMap': map<string, seq<string>>, extAdded': map<string, set<string>>)
    requires extMap'.Keys == declared.Keys && extAdded'.Keys == extAdded.Keys
    requires forall e :: e in declared ==> declared[e] != [] && Last(declared[e]) in extAdded
    requires forall e :: e in declared ==> extMap'[e] == [Last(declared[e])]
    requires forall l, x :: l in extAdded ==>
               (x in extAdded'[l] <==> x in extAdded[l] || (x in declared && Last(declared[x]) == l))
    ensures Settle(declared, extAdded) == Some(Maps(extMap', extAdded'))
  {
    var settled := Settle(declared, extAdded);
    assert extMap' == settled.value.extMap;
    forall l | l in extAdded
      ensures extAdded'[l] == settled.value.extAdded[l]
    {
      assert extAdded'[l] == extAdded[l] + OwnedBy(declared, l);
    }
    assert extAdded' == settled.value.extAdded;
  }

  /** What `Settle` computes: it raises exactly when some list is empty or its
      last name is not tracked; otherwise every list is cut to its last name
      and each tracked language gains the extensions it owns. */
  lemma SettleFacts(extMap: map<string, seq<string>>, extAdded: map<string, set<string>>)
    ensures var r := Settle(extMap, extAdded);
            (r.None? <==> exists e :: e in extMap && (extMap[e] == [] || Last(extMap[e]) !in extAdded)) &&
            (r.Some? ==> r.value.extMap.Keys == extMap.Keys && r.value.extAdded.Keys == extAdded.Keys) &&
            (r.Some? ==> forall e :: e in extMap ==> r.value.extMap[e] == [Last(extMap[e])]) &&
            (r.Some? ==> forall l :: l in extAdded ==> r.value.extAdded[l] == extAdded[l] + OwnedBy(extMap, l))
  {
  }

  /** Settling keeps every extension's owner, records it in the owner's set,
      and removes nothing from any set. */
  lemma SettleKeepsOwner(extMap: map<string, seq<string>>, extAdded: map<string, set<string>>, x: string)
    requires Settle(extMap, extAdded).Some?
    ensures var r := Settle(extMap, extAdded).value;
            Owner(r.extMap, x) == Owner(extMap, x) &&
            (Owner(extMap, x).Some? ==> Owner(extMap, x).value in r.extAdded && x in r.extAdded[Owner(extMap, x).value]) &&
            r.extAdded.Keys == extAdded.Keys &&
            (forall l :: l in extAdded ==> extAdded[l] <= r.extAdded[l])
  {
    SettleFacts(extMap, extAdded);
  }

  /** The declaration an entry of the catalogue makes: nothing when it lists no
      extensions, a declaration for a single grammar name, and an exception
      (the path functions get a list or None) otherwise. */
  datatype Declaration = NoDeclaration | Declaration(exts: seq<string>, n: string) | BadTarget

  function DeclarationOf(e: Entry): (d: Declaration)
    ensures d.Declaration? ==> d.exts != []
  {
    var exts := if e.extensions.Some? then e.extensions.value else [];
    if exts == [] then NoDeclaration
    else
      match TargetOf(e)
      case Some(One(s)) => Declaration(exts, SplitExt(s).0)
      case _ => BadTarget
  }

  /** One entry of the loop in `update_extenstions`; None when it raises. */
  function EntryStep(e: Entry, inventory: set<string>, windows: bool, m: Maps): Option<Maps> {
    match DeclarationOf(e)
    case NoDeclaration => Some(m)
    case BadTarget => None
    case Declaration(exts, n) => MapStep(exts, inventory, windows, n, m)
  }

  /** The loop of `update_extenstions` over the catalogue entries. */
  function Walk(entries: seq<Entry>, inventory: set<string>, windows: bool, m: Maps): Option<Maps> {
    if entries == [] then Some(m)
    else
      match Walk(entries[..|entries| - 1], inventory, windows, m)
      case None => None
      case Some(m') => EntryStep(entries[|entries| - 1], inventory, windows, m')
  }

  /** Whether entry `e` declares extension `x` for a loaded grammar, and for
      which language name. */
  function DeclaredFor(e: Entry, inventory: set<string>, windows: bool, x: string): Option<string> {
    match DeclarationOf(e)
    case Declaration(exts, n) =>
      if SyntaxStem(windows, n) in inventory && x in exts then Some(Basename(n)) else None
    case _ => None
  }

  /** Reference definition of ownership: the language of the last entry that
      declares the extension for a loaded grammar. */
  function LastDeclarer(entries: seq<Entry>, inventory: set<string>, windows: bool, x: string): Option<string> {
    if entries == [] then None
    else
      var d := DeclaredFor(entries[|entries| - 1], inventory, windows, x);
      if d.Some? then d else LastDeclarer(entries[..|entries| - 1], inventory, windows, x)
  }

  lemma MapStepOwner(exts: seq<string>, inventory: set<string>, windows: bool, n: string, m: Maps, x: string)
    requires MapStep(exts, inventory, windows, n, m).Some?
    ensures var r := MapStep(exts, inventory, windows, n, m).value;
            Owner(r.extMap, x) == (if SyntaxStem(windows, n) in inventory && x in exts then Some(Basename(n)) else Owner(m.extMap, x)) &&
            (Owner(r.extMap, x).Some? ==> Owner(r.extMap, x).value in r.extAdded && x in r.extAdded[Owner(r.extMap, x).value]) &&
            r.extAdded.Keys == m.extAdded.Keys &&
            (forall l :: l in m.extAdded ==> m.extAdded[l] <= r.extAdded[l])
  {
    var declared := if SyntaxStem(windows, n) in inventory then Declare(m.extMap, exts, Basename(n)) else m.extMap;
    if SyntaxStem(windows, n) in inventory {
      DeclareOwner(m.extMap, exts, Basename(n), x);
      assert Owner(declared, x) == (if x in exts then Some(Basename(n)) else Owner(m.extMap, x));
    }
    SettleKeepsOwner(declared, m.extAdded, x);
  }

  /** After the walk, every extension is owned by the last language that
      declared it, and that language's `ext_added` set holds it. */
  lemma {:induction false} WalkOwner(entries: seq<Entry>, inventory: set<string>, windows: bool,
                                     extAdded: map<string, set<string>>, x: string)
    requires Walk(entries, inventory, windows, Maps(map[], extAdded)).Some?
    ensures var r := Walk(entries, inventory, windows, Maps(map[], extAdded)).value;
            Owner(r.extMap, x) == LastDeclarer(entries, inventory, windows, x) &&
            (Owner(r.extMap, x).Some? ==> Owner(r.extMap, x).value in r.extAdded && x in r.extAdded[Owner(r.extMap, x).value]) &&
            r.extAdded.Keys == extAdded.Keys &&
            (forall l :: l in extAdded ==> extAdded[l] <= r.extAdded[l])
  {
    if entries != [] {
      var prefix := entries[..|entries| - 1];
      var e := entries[|entries| - 1];
      WalkOwner(prefix, inventory, windows, extAdded, x);
      var m := Walk(prefix, inventory, windows, Maps(map[], extAdded)).value;
      match DeclarationOf(e)
      case NoDeclaration =>
      case Declaration(exts, n) =>
        MapStepOwner(exts, inventory, windows, n, m, x);
    }
  }

  /** Two loaded languages declaring the same extension: a later entry's
      language owns it, and the language of the earlier declaration keeps it in
      its `ext_added` set. */
  lemma ConflictKeepsBoth(earlier: seq<Entry>, b: Entry, inventory: set<string>, windows: bool,
                          extAdded: map<string, set<string>>, x: string, la: string, lb: string)
    requires Walk(earlier + [b], inventory, windows, Maps(map[], extAdded)).Some?
    requires LastDeclarer(earlier, inventory, windows, x) == Some(la)
    requires DeclaredFor(b, inventory, windows, x) == Some(lb)
    ensures var r := Walk(earlier + [b], inventory, windows, Maps(map[], extAdded)).value;
            Owner(r.extMap, x) == Some(lb) && la in r.extAdded && x in r.extAdded[la] &&
            lb in r.extAdded && x in r.extAdded[lb]
  {
    WalkSnoc(earlier, b, inventory, windows, Maps(map[], extAdded));
    WalkOwner(earlier, inventory, windows, extAdded, x);
    var m := Walk(earlier, inventory, windows, Maps(map[], extAdded)).value;
    var d := DeclarationOf(b);
    MapStepOwner(d.exts, inventory, windows, d.n, m, x);
  }

  lemma WalkSnoc(entries: seq<Entry>, e: Entry, inventory: set<string>, windows: bool, m: Maps)
    ensures Walk(entries + [e], inventory, windows, m)
         == match Walk(entries, inventory, windows, m)
            case None => None
            case Some(m') => EntryStep(e, inventory, windows, m')
  {
    assert (entries + [e])[..|entries|] == entries;
  }

  /** The settings documents reconciliation reads and writes: each language's
      live `extensions` list, the ext-list bookkeeping of what the plugin
      added, and the set of settings files saved. */
  datatype Docs = Docs(live: map<string, set<string>>, recorded: map<string, set<string>>, saved: set<string>)

  /** The files saved when the languages in `langs` were rewritten. */
  function SavedFiles(langs: set<string>): set<string> {
    (set l | l in langs :: LangSettings(l)) + (if langs == {} then {} else {ExtSettings})
  }

  /** A dictionary entry, or None when the key is absent. */
  function OptGet(m: map<string, set<string>>, k: string): Option<set<string>> {
    if k in m then Some(m[k]) else None
  }

  lemma MapExt(m1: map<string, set<string>>, m2: map<string, set<string>>)
    requires forall k :: OptGet(m1, k) == OptGet(m2, k)
    ensures m1 == m2
  {
    forall k ensures (k in m1 <==> k in m2) && (k in m1 ==> m1[k] == m2[k]) {
      assert OptGet(m1, k) == OptGet(m2, k);
    }
  }

  // ----- update_language_extensions

  /** A language `update_language_extensions` rewrites: some declared
      extension is missing from its live list. */
  predicate NeedsUpdate(d: Docs, extAdded: map<string, set<string>>, l: string) {
    l in extAdded && !(extAdded[l] <= Get(d.live, l))
  }

  function Needing(d: Docs, extAdded: map<string, set<string>>): set<string> {
    set l | l in extAdded && NeedsUpdate(d, extAdded, l)
  }

  function LiveAfterAdd(d: Docs, extAdded: map<string, set<string>>, l: string): Option<set<string>> {
    if NeedsUpdate(d, extAdded, l) then Some(Get(d.live, l) + extAdded[l]) else OptGet(d.live, l)
  }

  function RecordedAfterAdd(d: Docs, extAdded: map<string, set<string>>, l: string): Option<set<string>> {
    if NeedsUpdate(d, extAdded, l) then Some(Get(d.recorded, l) + (extAdded[l] - Get(d.live, l)))
    else OptGet(d.recorded, l)
  }

  /** `update_language_extensions`: every language is handled on its own. */
  function AddAll(d: Docs, extAdded: map<string, set<string>>): Docs {
    Docs(map l | l in d.live.Keys + extAdded.Keys && LiveAfterAdd(d, extAdded, l).Some? ::
           LiveAfterAdd(d, extAdded, l).value,
         map l | l in d.recorded.Keys + extAdded.Keys && RecordedAfterAdd(d, extAdded, l).Some? ::
           RecordedAfterAdd(d, extAdded, l).value,
         d.saved + SavedFiles(Needing(d, extAdded)))
  }

  lemma AddAllAt(d: Docs, extAdded: map<string, set<string>>, l: string)
    ensures OptGet(AddAll(d, extAdded).live, l) == LiveAfterAdd(d, extAdded, l)
    ensures OptGet(AddAll(d, extAdded).recorded, l) == RecordedAfterAdd(d, extAdded, l)
  {
  }

  /** Adding only adds: each live list becomes its union with the declared
      extensions, and the bookkeeping gains exactly the ones that were missing. */
  lemma AddAllOnlyAdds(d: Docs, extAdded: map<string, set<string>>, l: string)
    ensures Get(AddAll(d, extAdded).live, l) == Get(d.live, l) + (if l in extAdded then extAdded[l] else {})
    ensures Get(AddAll(d, extAdded).recorded, l)
         == Get(d.recorded, l) + (if l in extAdded then extAdded[l] - Get(d.live, l) else {})
  {
    AddAllAt(d, extAdded, l);
    if l in extAdded && !NeedsUpdate(d, extAdded, l) {
      assert extAdded[l] <= Get(d.live, l);
    }
  }

  /** Nothing is written or saved when every declared extension is present. */
  lemma AddAllNothingMissing(d: Docs, extAdded: map<string, set<string>>)
    requires forall l :: l in extAdded ==> extAdded[l] <= Get(d.live, l)
    ensures AddAll(d, extAdded) == d
  {
    assert Needing(d, extAdded) == {};
    forall k ensures OptGet(AddAll(d, extAdded).live, k) == OptGet(d.live, k) &&
                     OptGet(AddAll(d, extAdded).recorded, k) == OptGet(d.recorded, k) {
      AddAllAt(d, extAdded, k);
    }
    MapExt(AddAll(d, extAdded).live, d.live);
    MapExt(AddAll(d, extAdded).recorded, d.recorded);
  }

  /** A language missing a declared extension is rewritten by this pass, so
      its settings and the bookkeeping are saved. */
  lemma AddAllSaves(d: Docs, extAdded: map<string, set<string>>, l: string)
    requires l in extAdded && !(extAdded[l] <= Get(d.live, l))
    ensures l in Needing(d, extAdded)
    ensures LangSettings(l) in AddAll(d, extAdded).saved && ExtSettings in AddAll(d, extAdded).saved
  {
    assert l in Needing(d, extAdded);
  }

  // ----- prune_language_extensions

  /** Whether `ext_map` attributes `e` to a language other than `name`. */
  predicate OwnedElsewhere(extMap: map<string, seq<string>>, e: string, name: string) {
    Owner(extMap, e).Some? && Owner(extMap, e).value != name
  }

  /** A language's live list after pruning: its extensions minus the ones the
      plugin had recorded but no longer declares, minus the ones attributed to
      another language. */
  function PrunedSet(exts: set<string>, oldExt: set<string>, newExt: set<string>,
                     extMap: map<string, seq<string>>, name: string): (r: set<string>)
    ensures r <= exts
    ensures forall e :: e in r <==> e in exts && e !in oldExt - newExt && !OwnedElsewhere(extMap, e, name)
  {
    set e | e in exts && e !in oldExt - newExt && !OwnedElsewhere(extMap, e, name)
  }

  function PrunedFor(d: Docs, extMap: map<string, seq<string>>, extAdded: map<string, set<string>>, l: string): set<string>
    requires l in extAdded
  {
    PrunedSet(Get(d.live, l), Get(d.recorded, l), extAdded[l], extMap, l)
  }

  /** A language `prune_language_extensions` rewrites: something was removed. */
  predicate PruneChanges(d: Docs, extMap: map<string, seq<string>>, extAdded: map<string, set<string>>, l: string) {
    l in extAdded && PrunedFor(d, extMap, extAdded, l) != Get(d.live, l)
  }

  function Changed(d: Docs, extMap: map<string, seq<string>>, extAdded: map<string, set<string>>): set<string> {
    set l | l in extAdded && PruneChanges(d, extMap, extAdded, l)
  }

  function LiveAfterPrune(d: Docs, extMap: map<string, seq<string>>, extAdded: map<string, set<string>>, l: string)
    : Option<set<string>>
  {
    if PruneChanges(d, extMap, extAdded, l) then Some(PrunedFor(d, extMap, extAdded, l)) else OptGet(d.live, l)
  }

  function RecordedAfterPrune(d: Docs, extMap: map<string, seq<string>>, extAdded: map<string, set<string>>, l: string)
    : Option<set<string>>
  {
    if PruneChanges(d, extMap, extAdded, l) then (if extAdded[l] == {} then None else Some(extAdded[l]))
    else OptGet(d.recorded, l)
  }

  /** `prune_language_extensions`: every language is handled on its own. */
  function PruneAll(d: Docs, extMap: map<string, seq<string>>, extAdded: map<string, set<string>>): Docs {
    Docs(map l | l in d.live.Keys + extAdded.Keys && LiveAfterPrune(d, extMap, extAdded, l).Some? ::
           LiveAfterPrune(d, extMap, extAdded, l).value,
         map l | l in d.recorded.Keys + extAdded.Keys && RecordedAfterPrune(d, extMap, extAdded, l).Some? ::
           RecordedAfterPrune(d, extMap, extAdded, l).value,
         d.saved + SavedFiles(Changed(d, extMap, extAdded)))
  }

  lemma PruneAllAt(d: Docs, extMap: map<string, seq<string>>, extAdded: map<string, set<string>>, l: string)
    ensures OptGet(PruneAll(d, extMap, extAdded).live, l) == LiveAfterPrune(d, extMap, extAdded, l)
    ensures OptGet(PruneAll(d, extMap, extAdded).recorded, l) == RecordedAfterPrune(d, extMap, extAdded, l)
  {
  }

  /** Pruning never adds: each tracked language's live list becomes exactly
      its pruned set, and the others are untouched. */
  lemma PruneNeverAdds(d: Docs, extMap: map<string, seq<string>>, extAdded: map<string, set<string>>, l: string)
    ensures Get(PruneAll(d, extMap, extAdded).live, l)
         == if l in extAdded then PrunedFor(d, extMap, extAdded, l) else Get(d.live, l)
    ensures Get(PruneAll(d, extMap, extAdded).live, l) <= Get(d.live, l)
  {
    PruneAllAt(d, extMap, extAdded, l);
    if l in extAdded && !PruneChanges(d, extMap, extAdded, l) {
      assert PrunedFor(d, extMap, extAdded, l) == Get(d.live, l);
    }
  }

  /** The bookkeeping of a rewritten language is its declared set, or erased
      when it declares nothing; the bookkeeping of the others is untouched. */
  lemma PruneBookkeeping(d: Docs, extMap: map<string, seq<string>>, extAdded: map<string, set<string>>, l: string)
    ensures PruneChanges(d, extMap, extAdded, l) && extAdded[l] == {} ==> l !in PruneAll(d, extMap, extAdded).recorded
    ensures PruneChanges(d, extMap, extAdded, l) && extAdded[l] != {} ==>
              l in PruneAll(d, extMap, extAdded).recorded && PruneAll(d, extMap, extAdded).recorded[l] == extAdded[l]
    ensures !PruneChanges(d, extMap, extAdded, l) ==>
              OptGet(PruneAll(d, extMap, extAdded).recorded, l) == OptGet(d.recorded, l)
  {
    PruneAllAt(d, extMap, extAdded, l);
  }

  /** Nothing is written or saved when nothing was removed. */
  lemma PruneNothingRemoved(d: Docs, extMap: map<string, seq<string>>, extAdded: map<string, set<string>>)
    requires forall l :: l in extAdded ==> PrunedFor(d, extMap, extAdded, l) == Get(d.live, l)
    ensures PruneAll(d, extMap, extAdded) == d
  {
    assert Changed(d, extMap, extAdded) == {};
    forall k ensures OptGet(PruneAll(d, extMap, extAdded).live, k) == OptGet(d.live, k) &&
                     OptGet(PruneAll(d, extMap, extAdded).recorded, k) == OptGet(d.recorded, k) {
      PruneAllAt(d, extMap, extAdded, k);
    }
    MapExt(PruneAll(d, extMap, extAdded).live, d.live);
    MapExt(PruneAll(d, extMap, extAdded).recorded, d.recorded);
  }

  /** A language tracked with nothing declared and no attributions loses
      every recorded addition from its live list, and its bookkeeping is
      erased when that removed something. */
  lemma NothingDeclaredPrunes(d: Docs, extAdded: map<string, set<string>>, l: string)
    requires l in extAdded && extAdded[l] == {}
    ensures Get(PruneAll(d, map[], extAdded).live, l) == Get(d.live, l) - Get(d.recorded, l)
    ensures Get(d.live, l) * Get(d.recorded, l) != {} ==> l !in PruneAll(d, map[], extAdded).recorded
  {
    var pruned := PrunedFor(d, map[], extAdded, l);
    forall e ensures e in pruned <==> e in Get(d.live, l) - Get(d.recorded, l) {
      assert !OwnedElsewhere(map[], e, l);
    }
    assert pruned == Get(d.live, l) - Get(d.recorded, l);
    PruneNeverAdds(d, map[], extAdded, l);
    if Get(d.live, l) * Get(d.recorded, l) != {} {
      var x :| x in Get(d.live, l) * Get(d.recorded, l);
      assert x !in pruned;
      PruneBookkeeping(d, map[], extAdded, l);
    }
  }

  /** With the feature disabled (nothing declared, no attributions), every
      recorded addition is removed from the live lists of loaded languages. */
  lemma DisabledPruneRemovesRecorded(d: Docs, inventory: set<string>, item: string)
    requires item in inventory
    ensures var l := LangStem(item);
            Get(PruneAll(d, map[], Tracked(inventory)).live, l) == Get(d.live, l) - Get(d.recorded, l) &&
            (Get(d.live, l) * Get(d.recorded, l) != {} ==> l !in PruneAll(d, map[], Tracked(inventory)).recorded)
  {
    NothingDeclaredPrunes(d, Tracked(inventory), LangStem(item));
  }

  /** In a conflict the earlier language loses the extension from its live
      list, while its declared set (written to its bookkeeping if the list
      changes) still holds it. */
  lemma ConflictLoserPruned(earlier: seq<Entry>, b: Entry, inventory: set<string>, windows: bool, d: Docs,
                            x: string, la: string, lb: string)
    requires Walk(earlier + [b], inventory, windows, Maps(map[], Tracked(inventory))).Some?
    requires LastDeclarer(earlier, inventory, windows, x) == Some(la)
    requires DeclaredFor(b, inventory, windows, x) == Some(lb)
    requires la != lb
    ensures var r := Walk(earlier + [b], inventory, windows, Maps(map[], Tracked(inventory))).value;
            la in r.extAdded && x in r.extAdded[la] &&
            x !in Get(PruneAll(d, r.extMap, r.extAdded).live, la)
  {
    var r := Walk(earlier + [b], inventory, windows, Maps(map[], Tracked(inventory))).value;
    ConflictKeepsBoth(earlier, b, inventory, windows, Tracked(inventory), x, la, lb);
    PruneNeverAdds(d, r.extMap, r.extAdded, la);
  }

  // ----- one language at a time

  /** One iteration of `update_language_extensions`. */
  function AddOne(d: Docs, lang: string, exts: set<string>): Docs {
    if exts <= Get(d.live, lang) then d
    else Docs(d.live[lang := Get(d.live, lang) + exts],
              d.recorded[lang := Get(d.recorded, lang) + (exts - Get(d.live, lang))],
              d.saved + {LangSettings(lang), ExtSettings})
  }

  /** One iteration of `prune_language_extensions`. */
  function PruneOne(d: Docs, name: string, newExt: set<string>, extMap: map<string, seq<string>>): Docs {
    var pruned := PrunedSet(Get(d.live, name), Get(d.recorded, name), newExt, extMap, name);
    if pruned == Get(d.live, name) then d
    else Docs(d.live[name := pruned],
              if newExt == {} then d.recorded - {name} else d.recorded[name := newExt],
              d.saved + {LangSettings(name), ExtSettings})
  }

  lemma SavedFilesAdd(s: set<string>, l: string)
    ensures SavedFiles(s + {l}) == SavedFiles(s) + {LangSettings(l), ExtSettings}
  {
    assert (set k | k in s + {l} :: LangSettings(k)) == (set k | k in s :: LangSettings(k)) + {LangSettings(l)};
  }

  lemma SubsetCard(a: set<string>, b: set<string>)
    requires a <= b
    ensures |a| <= |b|
    decreases a
  {
    if a != {} {
      var y :| y in a;
      SubsetCard(a - {y}, b - {y});
    }
  }

  lemma SubsetSize(a: set<string>, b: set<string>)
    requires a <= b
    ensures |a| == |b| <==> a == b
  {
    if a != b {
      var x :| x in b && x !in a;
      SubsetCard(a, b - {x});
    }
  }

  /** How far `update_language_extensions` has got: the languages no longer
      pending are handled, the others are as they were. */
  ghost predicate AddLiveDone(d0: Docs, extAdded: map<string, set<string>>, pending: set<string>,
                              live: map<string, set<string>>) {
    forall k :: OptGet(live, k) ==
      if k in extAdded && k !in pending then LiveAfterAdd(d0, extAdded, k) else OptGet(d0.live, k)
  }

  ghost predicate AddRecordedDone(d0: Docs, extAdded: map<string, set<string>>, pending: set<string>,
                                  recorded: map<string, set<string>>) {
    forall k :: OptGet(recorded, k) ==
      if k in extAdded && k !in pending then RecordedAfterAdd(d0, extAdded, k) else OptGet(d0.recorded, k)
  }

  ghost predicate AddProgress(d0: Docs, extAdded: map<string, set<string>>, pending: set<string>, d: Docs) {
    pending <= extAdded.Keys &&
    AddLiveDone(d0, extAdded, pending, d.live) &&
    AddRecordedDone(d0, extAdded, pending, d.recorded) &&
    d.saved == d0.saved + SavedFiles(Needing(d0, extAdded) - pending)
  }

  lemma AddProgressStart(d0: Docs, extAdded: map<string, set<string>>)
    ensures AddProgress(d0, extAdded, extAdded.Keys, d0)
  {
    assert Needing(d0, extAdded) - extAdded.Keys == {};
  }

  lemma AddLiveStep(d0: Docs, extAdded: map<string, set<string>>, pending: set<string>, d: Docs, lang: string)
    requires lang in pending && pending <= extAdded.Keys
    requires AddLiveDone(d0, extAdded, pending, d.live)
    ensures AddLiveDone(d0, extAdded, pending - {lang}, AddOne(d, lang, extAdded[lang]).live)
  {
    assert OptGet(d.live, lang) == OptGet(d0.live, lang);
    var live' := AddOne(d, lang, extAdded[lang]).live;
    forall k ensures OptGet(live', k) ==
                     if k in extAdded && k !in pending - {lang} then LiveAfterAdd(d0, extAdded, k) else OptGet(d0.live, k)
    {
      assert OptGet(d.live, k) ==
             if k in extAdded && k !in pending then LiveAfterAdd(d0, extAdded, k) else OptGet(d0.live, k);
    }
  }

  lemma AddRecordedStep(d0: Docs, extAdded: map<string, set<string>>, pending: set<string>, d: Docs, lang: string)
    requires lang in pending && pending <= extAdded.Keys
    requires AddLiveDone(d0, extAdded, pending, d.live) && AddRecordedDone(d0, extAdded, pending, d.recorded)
    ensures AddRecordedDone(d0, extAdded, pending - {lang}, AddOne(d, lang, extAdded[lang]).recorded)
  {
    assert OptGet(d.live, lang) == OptGet(d0.live, lang) && OptGet(d.recorded, lang) == OptGet(d0.recorded, lang);
    var rec' := AddOne(d, lang, extAdded[lang]).recorded;
    forall k ensures OptGet(rec', k) ==
                     if k in extAdded && k !in pending - {lang} then RecordedAfterAdd(d0, extAdded, k) else OptGet(d0.recorded, k)
    {
      assert OptGet(d.recorded, k) ==
             if k in extAdded && k !in pending then RecordedAfterAdd(d0, extAdded, k) else OptGet(d0.recorded, k);
    }
  }

  lemma AddSavedStep(d0: Docs, extAdded: map<string, set<string>>, pending: set<string>, d: Docs, lang: string)
    requires lang in pending && pending <= extAdded.Keys
    requires AddLiveDone(d0, extAdded, pending, d.live)
    requires d.saved == d0.saved + SavedFiles(Needing(d0, extAdded) - pending)
    ensures AddOne(d, lang, extAdded[lang]).saved == d0.saved + SavedFiles(Needing(d0, extAdded) - (pending - {lang}))
  {
    assert OptGet(d.live, lang) == OptGet(d0.live, lang);
    var n := Needing(d0, extAdded);
    if NeedsUpdate(d0, extAdded, lang) {
      assert n - (pending - {lang}) == (n - pending) + {lang};
      SavedFilesAdd(n - pending, lang);
    } else {
      assert n - (pending - {lang}) == n - pending;
    }
  }

  /** Handling one pending language is one iteration of the loop. */
  lemma AddProgressStep(d0: Docs, extAdded: map<string, set<string>>, pending: set<string>, d: Docs, lang: string)
    requires AddProgress(d0, extAdded, pending, d) && lang in pending
    ensures AddProgress(d0, extAdded, pending - {lang}, AddOne(d, lang, extAdded[lang]))
  {
    AddLiveStep(d0, extAdded, pending, d, lang);
    AddRecordedStep(d0, extAdded, pending, d, lang);
    AddSavedStep(d0, extAdded, pending, d, lang);
  }

  lemma AddProgressDone(d0: Docs, extAdded: map<string, set<string>>, d: Docs)
    requires AddProgress(d0, extAdded, {}, d)
    ensures d == AddAll(d0, extAdded)
  {
    forall k ensures OptGet(d.live, k) == OptGet(AddAll(d0, extAdded).live, k) &&
                     OptGet(d.recorded, k) == OptGet(AddAll(d0, extAdded).recorded, k) {
      AddAllAt(d0, extAdded, k);
    }
    MapExt(d.live, AddAll(d0, extAdded).live);
    MapExt(d.recorded, AddAll(d0, extAdded).recorded);
    assert Needing(d0, extAdded) - {} == Needing(d0, extAdded);
  }

  /** How far `prune_language_extensions` has got. */
  ghost predicate PruneLiveDone(d0: Docs, extMap: map<string, seq<string>>, extAdded: map<string, set<string>>,
                                pending: set<string>, live: map<string, set<string>>) {
    forall k :: OptGet(live, k) ==
      if k in extAdded && k !in pending then LiveAfterPrune(d0, extMap, extAdded, k) else OptGet(d0.live, k)
  }

  ghost predicate PruneRecordedDone(d0: Docs, extMap: map<string, seq<string>>, extAdded: map<string, set<string>>,
                                    pending: set<string>, recorded: map<string, set<string>>) {
    forall k :: OptGet(recorded, k) ==
      if k in extAdded && k !in pending then RecordedAfterPrune(d0, extMap, extAdded, k) else OptGet(d0.recorded, k)
  }

  ghost predicate PruneProgress(d0: Docs, extMap: map<string, seq<string>>, extAdded: map<string, set<string>>,
                                pending: set<string>, d: Docs) {
    pending <= extAdded.Keys &&
    PruneLiveDone(d0, extMap, extAdded, pending, d.live) &&
    PruneRecordedDone(d0, extMap, extAdded, pending, d.recorded) &&
    d.saved == d0.saved + SavedFiles(Changed(d0, extMap, extAdded) - pending)
  }

  lemma PruneProgressStart(d0: Docs, extMap: map<string, seq<string>>, extAdded: map<string, set<string>>)
    ensures PruneProgress(d0, extMap, extAdded, extAdded.Keys, d0)
  {
    assert Changed(d0, extMap, extAdded) - extAdded.Keys == {};
  }

  /** A pending language still has its original documents. */
  lemma PendingUntouched(d0: Docs, extMap: map<string, seq<string>>, extAdded: map<string, set<string>>,
                         pending: set<string>, d: Docs, name: string)
    requires name in pending && pending <= extAdded.Keys
    requires PruneLiveDone(d0, extMap, extAdded, pending, d.live)
    requires PruneRecordedDone(d0, extMap, extAdded, pending, d.recorded)
    ensures Get(d.live, name) == Get(d0.live, name) && Get(d.recorded, name) == Get(d0.recorded, name)
    ensures PrunedSet(Get(d.live, name), Get(d.recorded, name), extAdded[name], extMap, name)
            == PrunedFor(d0, extMap, extAdded, name)
  {
    assert OptGet(d.live, name) == OptGet(d0.live, name) && OptGet(d.recorded, name) == OptGet(d0.recorded, name);
  }

  lemma PruneLiveStep(d0: Docs, extMap: map<string, seq<string>>, extAdded: map<string, set<string>>,
                      pending: set<string>, d: Docs, name: string)
    requires name in pending && pending <= extAdded.Keys
    requires Get(d.live, name) == Get(d0.live, name) && Get(d.recorded, name) == Get(d0.recorded, name)
    requires PruneLiveDone(d0, extMap, extAdded, pending, d.live)
    ensures PruneLiveDone(d0, extMap, extAdded, pending - {name}, PruneOne(d, name, extAdded[name], extMap).live)
  {
    var live' := PruneOne(d, name, extAdded[name], extMap).live;
    forall k ensures OptGet(live', k) ==
                     if k in extAdded && k !in pending - {name} then LiveAfterPrune(d0, extMap, extAdded, k)
                     else OptGet(d0.live, k)
    {
      assert OptGet(d.live, k) ==
             if k in extAdded && k !in pending then LiveAfterPrune(d0, extMap, extAdded, k) else OptGet(d0.live, k);
    }
  }

  lemma PruneRecordedStep(d0: Docs, extMap: map<string, seq<string>>, extAdded: map<string, set<string>>,
                          pending: set<string>, d: Docs, name: string)
    requires name in pending && pending <= extAdded.Keys
    requires Get(d.live, name) == Get(d0.live, name) && Get(d.recorded, name) == Get(d0.recorded, name)
    requires PruneRecordedDone(d0, extMap, extAdded, pending, d.recorded)
    ensures PruneRecordedDone(d0, extMap, extAdded, pending - {name}, PruneOne(d, name, extAdded[name], extMap).recorded)
  {
    var rec' := PruneOne(d, name, extAdded[name], extMap).recorded;
    forall k ensures OptGet(rec', k) ==
                     if k in extAdded && k !in pending - {name} then RecordedAfterPrune(d0, extMap, extAdded, k)
                     else OptGet(d0.recorded, k)
    {
      assert OptGet(d.recorded, k) ==
             if k in extAdded && k !in pending then RecordedAfterPrune(d0, extMap, extAdded, k) else OptGet(d0.recorded, k);
    }
  }

  lemma PruneSavedStep(d0: Docs, extMap: map<string, seq<string>>, extAdded: map<string, set<string>>,
                       pending: set<string>, d: Docs, name: string)
    requires name in pending && pending <= extAdded.Keys
    requires Get(d.live, name) == Get(d0.live, name) && Get(d.recorded, name) == Get(d0.recorded, name)
    requires d.saved == d0.saved + SavedFiles(Changed(d0, extMap, extAdded) - pending)
    ensures PruneOne(d, name, extAdded[name], extMap).saved
            == d0.saved + SavedFiles(Changed(d0, extMap, extAdded) - (pending - {name}))
  {
    var c := Changed(d0, extMap, extAdded);
    if PruneChanges(d0, extMap, extAdded, name) {
      assert c - (pending - {name}) == (c - pending) + {name};
      SavedFilesAdd(c - pending, name);
    } else {
      assert c - (pending - {name}) == c - pending;
    }
  }

  lemma PruneProgressStep(d0: Docs, extMap: map<string, seq<string>>, extAdded: map<string, set<string>>,
                          pending: set<string>, d: Docs, name: string)
    requires PruneProgress(d0, extMap, extAdded, pending, d) && name in pending
    ensures PruneProgress(d0, extMap, extAdded, pending - {name}, PruneOne(d, name, extAdded[name], extMap))
  {
    PendingUntouched(d0, extMap, extAdded, pending, d, name);
    PruneLiveStep(d0, extMap, extAdded, pending, d, name);
    PruneRecordedStep(d0, extMap, extAdded, pending, d, name);
    PruneSavedStep(d0, extMap, extAdded, pending, d, name);
  }

  lemma PruneProgressDone(d0: Docs, extMap: map<string, seq<string>>, extAdded: map<string, set<string>>, d: Docs)
    requires PruneProgress(d0, extMap, extAdded, {}, d)
    ensures d == PruneAll(d0, extMap, extAdded)
  {
    forall k ensures OptGet(d.live, k) == OptGet(PruneAll(d0, extMap, extAdded).live, k) &&
                     OptGet(d.recorded, k) == OptGet(PruneAll(d0, extMap, extAdded).recorded, k) {
      PruneAllAt(d0, extMap, extAdded, k);
    }
    MapExt(d.live, PruneAll(d0, extMap, extAdded).live);
    MapExt(d.recorded, PruneAll(d0, extMap, extAdded).recorded);
    assert Changed(d0, extMap, extAdded) - {} == Changed(d0, extMap, extAdded);
  }

  /** The catalogue `update_extenstions` walks: default entries, then user entries. */
  function CatalogEntries(settings: map<string, seq<Entry>>): seq<Entry> {
    Lookup(map[], settings, "default_syntaxes", []) + Lookup(map[], settings, "syntaxes", [])
  }

  /** A prefix of the walk that raised makes the whole walk raise. */
  lemma {:induction false} WalkNoneExtends(entries: seq<Entry>, i: nat, inventory: set<string>, windows: bool, m: Maps)
    requires i <= |entries|
    requires Walk(entries[..i], inventory, windows, m).None?
    ensures Walk(entries, inventory, windows, m).None?
    decreases |entries| - i
  {
    if i < |entries| {
      assert entries[..i + 1][..i] == entries[..i];
      WalkNoneExtends(entries, i + 1, inventory, windows, m);
    } else {
      assert entries[..i] == entries;
    }
  }

  /** The loop of `update_extenstions` over the catalogue, starting from the
      tracked languages and no attributions. */
  method WalkCatalog(entries: seq<Entry>, inventory: set<string>, windows: bool)
    returns (raised: bool, extMap: map<string, seq<string>>, extAdded: map<string, set<string>>)
    ensures raised <==> Walk(entries, inventory, windows, Maps(map[], Tracked(inventory))).None?
    ensures !raised ==> Walk(entries, inventory, windows, Maps(map[], Tracked(inventory))) == Some(Maps(extMap, extAdded))
  {
    ghost var m0 := Maps(map[], Tracked(inventory));
    extAdded := Tracked(inventory);
    extMap := map[];
    var i := 0;
    while i < |entries|
      invariant 0 <= i <= |entries|
      invariant Walk(entries[..i], inventory, windows, m0) == Some(Maps(extMap, extAdded))
    {
      assert entries[..i + 1][..i] == entries[..i];
      var decl := DeclarationOf(entries[i]);
      if decl.BadTarget? {
        WalkNoneExtends(entries, i + 1, inventory, windows, m0);
        return true, extMap, extAdded;
      } else if decl.Declaration? {
        var r;
        r, extMap, extAdded := MapExtensions(decl.exts, inventory, windows, decl.n, extMap, extAdded);
        if r {
          WalkNoneExtends(entries, i + 1, inventory, windows, m0);
          return true, extMap, extAdded;
        }
      }
      i := i + 1;
    }
    assert entries[..i] == entries;
    raised := false;
  }

  /** `update_extenstions(lst)` on the documents `d`: None when the walk
      raises (nothing is written then), else the documents after adding and
      then pruning. */
  function UpdateResult(d: Docs, inventory: set<string>, windows: bool, settings: map<string, seq<Entry>>): Option<Docs> {
    match Walk(CatalogEntries(settings), inventory, windows, Maps(map[], Tracked(inventory)))
    case None => None
    case Some(r) => Some(PruneAll(AddAll(d, r.extAdded), r.extMap, r.extAdded))
  }

  /** A language that keeps an extension in its declared set while another
      language owns it has its settings file rewritten by every update,
      whatever the documents held before: the extension is added back and
      pruned again, and the bookkeeping written for it still lists the
      extension. */
  lemma ConflictRewritesLoser(d: Docs, extMap: map<string, seq<string>>, extAdded: map<string, set<string>>,
                              x: string, la: string)
    requires la in extAdded && x in extAdded[la] && OwnedElsewhere(extMap, x, la)
    ensures la in Changed(AddAll(d, extAdded), extMap, extAdded)
    ensures var r := PruneAll(AddAll(d, extAdded), extMap, extAdded);
            LangSettings(la) in r.saved && x !in Get(r.live, la) && la in r.recorded && x in r.recorded[la]
  {
    var d1 := AddAll(d, extAdded);
    AddAllOnlyAdds(d, extAdded, la);
    assert x in Get(d1.live, la);
    assert x !in PrunedFor(d1, extMap, extAdded, la);
    assert la in Changed(d1, extMap, extAdded);
    PruneNeverAdds(d1, extMap, extAdded, la);
    PruneBookkeeping(d1, extMap, extAdded, la);
  }

  /** Walking two parts of the catalogue one after the other is walking
      the whole. */
  lemma {:induction false} WalkAppend(a: seq<Entry>, c: seq<Entry>, inventory: set<string>, windows: bool, m: Maps)
    ensures Walk(a + c, inventory, windows, m)
         == match Walk(a, inventory, windows, m)
            case None => None
            case Some(m') => Walk(c, inventory, windows, m')
    decreases |c|
  {
    if c == [] {
      assert a + c == a;
    } else {
      assert (a + c)[..|a + c| - 1] == a + c[..|c| - 1];
      assert (a + c)[|a + c| - 1] == c[|c| - 1];
      WalkAppend(a, c[..|c| - 1], inventory, windows, m);
    }
  }

  /** A walk that does not raise keeps the tracked languages and removes
      nothing from any `ext_added` set. */
  lemma {:induction false} WalkGrows(entries: seq<Entry>, inventory: set<string>, windows: bool, m: Maps)
    requires Walk(entries, inventory, windows, m).Some?
    ensures var r := Walk(entries, inventory, windows, m).value;
            r.extAdded.Keys == m.extAdded.Keys &&
            (forall l :: l in m.extAdded ==> m.extAdded[l] <= r.extAdded[l])
  {
    if entries != [] {
      var prefix := entries[..|entries| - 1];
      WalkGrows(prefix, inventory, windows, m);
      var m' := Walk(prefix, inventory, windows, m).value;
      match DeclarationOf(entries[|entries| - 1])
      case NoDeclaration =>
      case Declaration(exts, n) =>
        MapStepOwner(exts, inventory, windows, n, m', "");
    }
  }

  /** Entries that do not declare `x` leave its last declarer as it was. */
  lemma {:induction false} LastDeclarerAppend(a: seq<Entry>, c: seq<Entry>, inventory: set<string>, windows: bool, x: string)
    requires LastDeclarer(c, inventory, windows, x).None?
    ensures LastDeclarer(a + c, inventory, windows, x) == LastDeclarer(a, inventory, windows, x)
    decreases |c|
  {
    if c == [] {
      assert a + c == a;
    } else {
      assert (a + c)[..|a + c| - 1] == a + c[..|c| - 1];
      assert (a + c)[|a + c| - 1] == c[|c| - 1];
      LastDeclarerAppend(a, c[..|c| - 1], inventory, windows, x);
    }
  }

  /** So when an entry declares an extension for a loaded language, an
      earlier entry last declared it for another loaded language, and no
      later entry declares it again, every successful update rewrites the
      earlier language's settings, leaves the extension out of its list, and
      still records it as added for that language. */
  lemma ConflictEveryUpdateRewrites(earlier: seq<Entry>, b: Entry, later: seq<Entry>, inventory: set<string>, windows: bool,
                                    settings: map<string, seq<Entry>>, d: Docs, x: string, la: string, lb: string)
    requires CatalogEntries(settings) == earlier + [b] + later
    requires UpdateResult(d, inventory, windows, settings).Some?
    requires LastDeclarer(earlier, inventory, windows, x) == Some(la)
    requires DeclaredFor(b, inventory, windows, x) == Some(lb)
    requires LastDeclarer(later, inventory, windows, x).None?
    requires la != lb
    ensures var w := Walk(CatalogEntries(settings), inventory, windows, Maps(map[], Tracked(inventory))).value;
            la in Changed(AddAll(d, w.extAdded), w.extMap, w.extAdded)
    ensures var r := UpdateResult(d, inventory, windows, settings).value;
            LangSettings(la) in r.saved && x !in Get(r.live, la) && la in r.recorded && x in r.recorded[la]
  {
    var m0 := Maps(map[], Tracked(inventory));
    var upTo := earlier + [b];
    WalkAppend(upTo, later, inventory, windows, m0);
    ConflictKeepsBoth(earlier, b, inventory, windows, Tracked(inventory), x, la, lb);
    var mid := Walk(upTo, inventory, windows, m0).value;
    WalkGrows(later, inventory, windows, mid);
    WalkOwner(upTo + later, inventory, windows, Tracked(inventory), x);
    LastDeclarerAppend(upTo, later, inventory, windows, x);
    assert upTo[..|upTo| - 1] == earlier;
    var r := Walk(upTo + later, inventory, windows, m0).value;
    assert Owner(r.extMap, x) == Some(lb);
    ConflictRewritesLoser(d, r.extMap, r.extAdded, x, la);
  }

  /** The settings documents, and `LANG_HASH` as the inventory it summarises. */
  class Registry {
    var live: map<string, set<string>>
    var recorded: map<string, set<string>>
    var saved: set<string>
    /** None until an inventory was recorded */
    var lastInventory: Option<set<string>>

    constructor (live: map<string, set<string>>, recorded: map<string, set<string>>)
      ensures this.live == live && this.recorded == recorded && saved == {} && lastInventory.None?
    {
      this.live := live;
      this.recorded := recorded;
      saved := {};
      lastInventory := None;
    }

    function State(): Docs
      reads this
    {
      Docs(live, recorded, saved)
    }

    /** The body of `update_language_extensions` for one language. */
    method AddLanguage(lang: string, exts: set<string>)
      modifies this`live, this`recorded, this`saved
      ensures State() == AddOne(old(State()), lang, exts)
    {
      var updated := false;
      var langExt := Get(live, lang);
      var apsyExt := Get(recorded, lang);
      var todo := exts;
      while todo != {}
        invariant todo <= exts
        invariant langExt == Get(live, lang) + (exts - todo)
        invariant apsyExt == Get(recorded, lang) + ((exts - todo) - Get(live, lang))
        invariant updated <==> !(exts - todo <= Get(live, lang))
        decreases todo
      {
        var ext :| ext in todo;
        if ext !in langExt {
          langExt := langExt + {ext};
          apsyExt := apsyExt + {ext};
          updated := true;
        }
        todo := todo - {ext};
      }
      assert exts - todo == exts;
      if updated {
        live := live[lang := langExt];
        if apsyExt != {} {
          recorded := recorded[lang := apsyExt];
        } else {
          assert false;
        }
        saved := saved + {LangSettings(lang), ExtSettings};
      }
    }

    /** `update_language_extensions`. */
    method UpdateLanguageExtensions(extAdded: map<string, set<string>>)
      modifies this`live, this`recorded, this`saved
      ensures State() == AddAll(old(State()), extAdded)
    {
      ghost var d0 := State();
      var pending := extAdded.Keys;
      AddProgressStart(d0, extAdded);
      while pending != {}
        invariant AddProgress(d0, extAdded, pending, State())
        decreases pending
      {
        var lang :| lang in pending;
        AddProgressStep(d0, extAdded, pending, State(), lang);
        AddLanguage(lang, extAdded[lang]);
        pending := pending - {lang};
      }
      AddProgressDone(d0, extAdded, State());
    }

    /** The body of `prune_language_extensions` for one language. */
    method PruneLanguage(name: string, newExt: set<string>, extMap: map<string, seq<string>>)
      modifies this`live, this`recorded, this`saved
      ensures State() == PruneOne(old(State()), name, newExt, extMap)
    {
      var exts := Get(live, name);
      var oldExt := Get(recorded, name);
      var badExt := oldExt - newExt;
      var updatedExt := exts - badExt;
      var todo := updatedExt;
      while todo != {}
        invariant todo <= exts - badExt
        invariant forall e :: e in updatedExt <==>
                    e in exts && e !in badExt && (e in todo || !OwnedElsewhere(extMap, e, name))
        decreases todo
      {
        var ext :| ext in todo;
        if ext in extMap && extMap[ext] != [] && Last(extMap[ext]) != name {
          updatedExt := updatedExt - {ext};
        }
        todo := todo - {ext};
      }
      assert updatedExt == PrunedSet(exts, oldExt, newExt, extMap, name);
      SubsetSize(updatedExt, exts);
      if |updatedExt| != |exts| {
        live := live[name := updatedExt];
        if newExt == {} {
          recorded := recorded - {name};
        } else {
          recorded := recorded[name := newExt];
        }
        saved := saved + {LangSettings(name), ExtSettings};
      }
    }

    /** `prune_language_extensions`. */
    method PruneLanguageExtensions(extMap: map<string, seq<string>>, extAdded: map<string, set<string>>)
      modifies this`live, this`recorded, this`saved
      ensures State() == PruneAll(old(State()), extMap, extAdded)
    {
      ghost var d0 := State();
      var pending := extAdded.Keys;
      PruneProgressStart(d0, extMap, extAdded);
      while pending != {}
        invariant PruneProgress(d0, extMap, extAdded, pending, State())
        decreases pending
      {
        var name :| name in pending;
        PruneProgressStep(d0, extMap, extAdded, pending, State(), name);
        PruneLanguage(name, extAdded[name], extMap);
        pending := pending - {name};
      }
      PruneProgressDone(d0, extMap, extAdded, State());
    }
    /** `update_extenstions(lst)`: walk the catalogue, then add, then prune.
        A raising walk leaves every document as it was. */
    method UpdateExtensions(inventory: set<string>, windows: bool, settings: map<string, seq<Entry>>)
      returns (raised: bool)
      modifies this`live, this`recorded, this`saved
      ensures raised <==> UpdateResult(old(State()), inventory, windows, settings).None?
      ensures raised ==> State() == old(State())
      ensures !raised ==> State() == UpdateResult(old(State()), inventory, windows, settings).value
    {
      var extMap, extAdded;
      raised, extMap, extAdded := WalkCatalog(CatalogEntries(settings), inventory, windows);
      if !raised {
        UpdateLanguageExtensions(extAdded);
        PruneLanguageExtensions(extMap, extAdded);
      }
    }

    /** The listener's `update_extenstions`: only when adding is enabled and
        the inventory differs from the one last recorded, which is recorded
        before the update runs. */
    method Refresh(addExts: bool, inventory: set<string>, windows: bool, settings: map<string, seq<Entry>>)
      returns (raised: bool)
      modifies this
      ensures !addExts || old(lastInventory) == Some(inventory) ==>
                !raised && State() == old(State()) && lastInventory == old(lastInventory)
      ensures addExts && old(lastInventory) != Some(inventory) ==>
                lastInventory == Some(inventory) &&
                (raised <==> UpdateResult(old(State()), inventory, windows, settings).None?) &&
                (raised ==> State() == old(State())) &&
                (!raised ==> State() == UpdateResult(old(State()), inventory, windows, settings).value)
    {
      raised := false;
      if addExts && lastInventory != Some(inventory) {
        lastInventory := Some(inventory);
        raised := UpdateExtensions(inventory, windows, settings);
      }
    }

    /** `on_reload`: with adding disabled, every extension the plugin recorded
        is pruned from the loaded languages; otherwise the inventory is
        recorded and a full update runs. */
    method OnReload(addExts: bool, inventory: set<string>, windows: bool, settings: map<string, seq<Entry>>)
      returns (raised: bool)
      modifies this
      ensures !addExts ==>
                !raised && State() == PruneAll(old(State()), map[], Tracked(inventory)) &&
                lastInventory == old(lastInventory)
      ensures addExts ==>
                lastInventory == Some(inventory) &&
                (raised <==> UpdateResult(old(State()), inventory, windows, settings).None?) &&
                (raised ==> State() == old(State())) &&
                (!raised ==> State() == UpdateResult(old(State()), inventory, windows, settings).value)
    {
      raised := false;
      if !addExts {
        PruneLanguageExtensions(map[], Tracked(inventory));
      } else {
        lastInventory := Some(inventory);
        raised := UpdateExtensions(inventory, windows, settings);
      }
    }
  }
}
