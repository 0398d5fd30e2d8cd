/**
 * The Manifest screen: the day's journal entry (four texts stored under
 * `manifest_<date>`), the past entries with their search, and the hearted
 * quotes kept as a JSON list under `hearted_quotes`.
 */
module Manifest {
  import opened Wrappers
  import opened Text
  import opened Json
  import opened Calendar
  import opened Seqs
  import opened Storage
  import opened QuoteOfDay
  import Streak

  const HeartedKey := "hearted_quotes"
  const ManifestPrefix := "manifest_"

  // ----- today's entry -----

  /** The four texts of an entry, in the order of the inputs. */
  datatype Fields = Fields(growthGoal: string, callMuse: string, dumpStalls: string, manifestVision: string)

  /** The object `saveEntry` stores: the four texts and the time of saving. */
  function EntryObject(f: Fields, savedAt: string): Json
  {
    JObj([Member("growthGoal", JStr(f.growthGoal)), Member("callMuse", JStr(f.callMuse)),
          Member("dumpStalls", JStr(f.dumpStalls)), Member("manifestVision", JStr(f.manifestVision)),
          Member("savedAt", JStr(savedAt))])
  }

  /** `parsed[key] || ''` for a text input: the stored text, and `''` where the member is missing or not a text. */
  function FieldText(parsed: Json, key: string): (r: string)
    ensures Get(parsed, key).Some? && Get(parsed, key).value.JStr? ==> r == Get(parsed, key).value.s
    ensures !(Get(parsed, key).Some? && Get(parsed, key).value.JStr?) ==> r == ""
  {
    match OrIfFalsy(Get(parsed, key), JStr(""))
    case JStr(s) => s
    case _ => ""
  }

  /**
   * What `loadTodayEntry` puts into the four inputs for the stored text `raw`,
   * or `None` where it sets nothing: no entry, an empty one, text that is not
   * JSON, or a `null` entry (reading its members throws).
   */
  function LoadedEntry(raw: Option<string>): Option<Fields>
  {
    if !HasText(raw) then None
    else
      match Parse(raw.value)
      case None => None
      case Some(JNull) => None
      case Some(p) => Some(Fields(FieldText(p, "growthGoal"), FieldText(p, "callMuse"),
                                  FieldText(p, "dumpStalls"), FieldText(p, "manifestVision")))
  }

  /** Loading what `saveEntry` stored gives back the four texts, whatever the time of saving. */
  lemma SaveLoadRoundTrip(f: Fields, savedAt: string)
    ensures LoadedEntry(Some(Stringify(EntryObject(f, savedAt)))) == Some(f)
  {
    var j := EntryObject(f, savedAt);
    EntryWellFormed(f, savedAt);
    ParseStringify(j);
    StringifyStart(j);
    EntryTexts(f, savedAt);
  }

  lemma EntryWellFormed(f: Fields, savedAt: string)
    ensures WellFormed(EntryObject(f, savedAt))
  {
    var ms := EntryObject(f, savedAt).members;
    var keys := ["growthGoal", "callMuse", "dumpStalls", "manifestVision", "savedAt"];
    assert forall i :: 0 <= i < 5 ==> ms[i].key == keys[i];
    assert forall i, j :: 0 <= i < j < 5 ==> keys[i] != keys[j];
  }

  /** Each text input's member of a saved entry reads back as the text saved. */
  lemma EntryTexts(f: Fields, savedAt: string)
    ensures FieldText(EntryObject(f, savedAt), "growthGoal") == f.growthGoal
    ensures FieldText(EntryObject(f, savedAt), "callMuse") == f.callMuse
    ensures FieldText(EntryObject(f, savedAt), "dumpStalls") == f.dumpStalls
    ensures FieldText(EntryObject(f, savedAt), "manifestVision") == f.manifestVision
  {
    var ms := EntryObject(f, savedAt).members;
    assert ms[1..][1..] == ms[2..] && ms[2..][1..] == ms[3..];
    assert Lookup(ms, "callMuse") == Lookup(ms[1..], "callMuse") == Some(JStr(f.callMuse));
    assert Lookup(ms, "dumpStalls") == Lookup(ms[2..], "dumpStalls") == Some(JStr(f.dumpStalls));
    assert Lookup(ms, "manifestVision") == Lookup(ms[3..], "manifestVision") == Some(JStr(f.manifestVision)) by {
      assert Lookup(ms[1..], "manifestVision") == Lookup(ms[2..], "manifestVision");
    }
  }

  /** A stored object without a text input's member loads that input as `''`. */
  lemma LoadedEntryDefaults(raw: string, ms: seq<Member>)
    requires raw != "" && Parse(raw) == Some(JObj(ms))
    ensures Lookup(ms, "growthGoal").None? ==> LoadedEntry(Some(raw)).value.growthGoal == ""
    ensures Lookup(ms, "callMuse").None? ==> LoadedEntry(Some(raw)).value.callMuse == ""
    ensures Lookup(ms, "dumpStalls").None? ==> LoadedEntry(Some(raw)).value.dumpStalls == ""
    ensures Lookup(ms, "manifestVision").None? ==> LoadedEntry(Some(raw)).value.manifestVision == ""
  {
  }

  // ----- past entries -----

  /**
   * One past entry, `{date: key.replace('manifest_', ''), ...JSON.parse(value)}`,
   * or `None` where JSON.parse throws.  A `null` from multiGet parses as `null`.
   * Spreading `null`, a number or a boolean adds no members; spreading a text
   * or an array would add one member per index (`"0"`, `"1"`, ...), which is
   * left out here: no index is a member the screen reads.
   */
  function PastEntry(key: string, value: Option<string>): Option<Json>
    requires StartsWith(key, ManifestPrefix)
  {
    var dated := [Member("date", JStr(DropPrefix(key, ManifestPrefix)))];
    match Parse(if value.Some? then value.value else "null")
    case None => None
    case Some(JObj(ms)) => Some(JObj(Spread(dated, ms)))
    case Some(_) => Some(JObj(dated))
  }

  /** An entry takes its date from its key unless the stored object has a `date` of its own. */
  lemma PastEntryDate(key: string, value: Option<string>)
    requires StartsWith(key, ManifestPrefix) && PastEntry(key, value).Some?
    requires forall ms :: Parse(if value.Some? then value.value else "null") == Some(JObj(ms)) ==> Lookup(ms, "date").None?
    ensures Get(PastEntry(key, value).value, "date") == Some(JStr(DropPrefix(key, ManifestPrefix)))
    ensures ManifestPrefix + DropPrefix(key, ManifestPrefix) == key
  {
    var dated := [Member("date", JStr(DropPrefix(key, ManifestPrefix)))];
    var parsed := Parse(if value.Some? then value.value else "null");
    if parsed.value.JObj? {
      SpreadKeeps(dated, parsed.value.members, "date");
    }
  }

  /** The entries of the keys, in their order; `None` where one of them throws. */
  function ParsedEntries(store: Store, keys: seq<string>): (r: Option<seq<Json>>)
    requires forall i :: 0 <= i < |keys| ==> StartsWith(keys[i], ManifestPrefix)
    ensures r.Some? ==> |r.value| == |keys|
    ensures r.Some? ==> forall i :: 0 <= i < |keys| ==> PastEntry(keys[i], GetItem(store, keys[i])) == Some(r.value[i])
    ensures r.None? ==> exists i :: 0 <= i < |keys| && PastEntry(keys[i], GetItem(store, keys[i])).None?
  {
    if keys == [] then Some([])
    else
      match PastEntry(keys[0], GetItem(store, keys[0]))
      case None => None
      case Some(e) =>
        match ParsedEntries(store, keys[1..])
        case None => None
        case Some(es) => Some([e] + es)
  }

  /** `new Date(e.date)` as a day number for a text date; `None` where that text is not a date, and for a `date` that is no text. */
  function EntryDay(e: Json, dayOf: string -> Option<int>): Option<int>
  {
    match Get(e, "date")
    case Some(JStr(s)) => dayOf(s)
    case _ => None
  }

  /** `EntryDay` as the key the sort compares. */
  function EntryDays(dayOf: string -> Option<int>): (day: Json -> Option<int>)
    ensures forall e :: day(e) == EntryDay(e, dayOf)
  {
    (e: Json) => EntryDay(e, dayOf)
  }

  /**
   * The comparator `new Date(b.date) - new Date(a.date)` puts `a` before `b`:
   * `a` is strictly more recent.  A `NaN` difference compares as equal.
   */
  predicate Newer(a: Json, b: Json, day: Json -> Option<int>)
  {
    var x := day(a);
    var y := day(b);
    x.Some? && y.Some? && x.value > y.value
  }

  /** Places `x` after `sorted`, moving it ahead past each entry it is more recent than. */
  function InsertNewest(sorted: seq<Json>, x: Json, day: Json -> Option<int>): (r: seq<Json>)
    ensures multiset(r) == multiset(sorted) + multiset{x}
  {
    if sorted == [] then [x]
    else
      var init, last := sorted[..|sorted| - 1], sorted[|sorted| - 1];
      assert sorted == init + [last];
      if Newer(x, last, day) then InsertNewest(init, x, day) + [last] else sorted + [x]
  }

  /** The sort of the entries, most recent first. */
  function SortNewestFirst(es: seq<Json>, day: Json -> Option<int>): (r: seq<Json>)
    ensures multiset(r) == multiset(es)
  {
    if es == [] then []
    else
      assert es == es[..|es| - 1] + [es[|es| - 1]];
      InsertNewest(SortNewestFirst(es[..|es| - 1], day), es[|es| - 1], day)
  }

  predicate AllDated(es: seq<Json>, day: Json -> Option<int>)
  {
    forall i :: 0 <= i < |es| ==> day(es[i]).Some?
  }

  /** Every entry has a valid date and no entry is older than one after it. */
  predicate NewestFirst(es: seq<Json>, day: Json -> Option<int>)
  {
    AllDated(es, day) &&
    forall i, j :: 0 <= i < j < |es| ==> day(es[i]).value >= day(es[j]).value
  }

  lemma {:induction false} InsertNewestSorted(sorted: seq<Json>, x: Json, day: Json -> Option<int>)
    requires NewestFirst(sorted, day) && day(x).Some?
    ensures NewestFirst(InsertNewest(sorted, x, day), day)
    decreases |sorted|
  {
    if sorted != [] {
      var init, last := sorted[..|sorted| - 1], sorted[|sorted| - 1];
      if Newer(x, last, day) {
        assert sorted == init + [last];
        NewestFirstInit(init, last, day);
        InsertNewestSorted(init, x, day);
        InsertedNotOlder(init, last, x, day);
        AppendOlder(InsertNewest(init, x, day), last, day);
        assert InsertNewest(sorted, x, day) == InsertNewest(init, x, day) + [last];
      } else {
        AppendOlder(sorted, x, day);
        assert InsertNewest(sorted, x, day) == sorted + [x];
      }
    }
  }

  /** Dropping the last entry of a sorted list leaves it sorted. */
  lemma NewestFirstInit(init: seq<Json>, last: Json, day: Json -> Option<int>)
    requires NewestFirst(init + [last], day)
    ensures NewestFirst(init, day)
  {
    assert forall i :: 0 <= i < |init| ==> init[i] == (init + [last])[i];
  }

  /** Inserting an entry more recent than the last one of a sorted list leaves nothing older than that last one before it. */
  lemma InsertedNotOlder(init: seq<Json>, last: Json, x: Json, day: Json -> Option<int>)
    requires NewestFirst(init + [last], day) && Newer(x, last, day)
    ensures forall i :: 0 <= i < |InsertNewest(init, x, day)| ==>
              day(InsertNewest(init, x, day)[i]).Some? && day(InsertNewest(init, x, day)[i]).value >= day(last).value
  {
    var sorted := init + [last];
    var ins := InsertNewest(init, x, day);
    forall i | 0 <= i < |ins|
      ensures day(ins[i]).Some? && day(ins[i]).value >= day(last).value
    {
      assert ins[i] in multiset(init) + multiset{x};
      if ins[i] != x {
        var k :| 0 <= k < |init| && init[k] == ins[i];
        assert sorted[k] == ins[i] && sorted[|init|] == last;
      }
    }
  }

  /** An entry no more recent than any entry of a sorted list can follow them all. */
  lemma AppendOlder(es: seq<Json>, y: Json, day: Json -> Option<int>)
    requires NewestFirst(es, day) && day(y).Some?
    requires forall i :: 0 <= i < |es| ==> day(es[i]).value >= day(y).value
    ensures NewestFirst(es + [y], day)
  {
    assert forall i :: 0 <= i < |es| ==> (es + [y])[i] == es[i];
  }

  /** With every date valid, the sort puts the entries most recent first. */
  lemma {:induction false} SortNewestFirstSorted(es: seq<Json>, day: Json -> Option<int>)
    requires AllDated(es, day)
    ensures NewestFirst(SortNewestFirst(es, day), day)
    decreases |es|
  {
    if es != [] {
      var init := es[..|es| - 1];
      assert forall i :: 0 <= i < |init| ==> init[i] == es[i];
      SortNewestFirstSorted(init, day);
      InsertNewestSorted(SortNewestFirst(init, day), es[|es| - 1], day);
    }
  }

  /**
   * `loadPastEntries`: the entries of the `manifest_` keys among `keys`, sorted
   * most recent first, or `None` where one of them throws.
   */
  function PastEntries(store: Store, keys: seq<string>, dayOf: string -> Option<int>): Option<seq<Json>>
  {
    var manifestKeys := KeysWithPrefix(keys, ManifestPrefix);
    KeysWithPrefixMembers(keys, ManifestPrefix);
    assert forall i :: 0 <= i < |manifestKeys| ==> manifestKeys[i] in manifestKeys;
    match ParsedEntries(store, manifestKeys)
    case None => None
    case Some(es) => Some(SortNewestFirst(es, EntryDays(dayOf)))
  }

  /** The past entries are the entries of the stored `manifest_` keys, one per key, rearranged. */
  lemma PastEntriesSpec(store: Store, keys: seq<string>, dayOf: string -> Option<int>)
    ensures var ks := KeysWithPrefix(keys, ManifestPrefix);
            var r := PastEntries(store, keys, dayOf);
            r.Some? ==> |r.value| == |ks| && multiset(r.value) == multiset(ParsedEntries(store, ks).value)
  {
    var ks := KeysWithPrefix(keys, ManifestPrefix);
    KeysWithPrefixMembers(keys, ManifestPrefix);
    assert forall i :: 0 <= i < |ks| ==> ks[i] in ks;
    var r := PastEntries(store, keys, dayOf);
    if r.Some? {
      var es := ParsedEntries(store, ks).value;
      assert |multiset(r.value)| == |multiset(es)|;
    }
  }

  /** With every date valid, the past entries come most recent first. */
  lemma PastEntriesNewestFirst(store: Store, keys: seq<string>, dayOf: string -> Option<int>)
    ensures var r := PastEntries(store, keys, dayOf);
            r.Some? && AllDated(r.value, EntryDays(dayOf)) ==> NewestFirst(r.value, EntryDays(dayOf))
  {
    var ks := KeysWithPrefix(keys, ManifestPrefix);
    KeysWithPrefixMembers(keys, ManifestPrefix);
    assert forall i :: 0 <= i < |ks| ==> ks[i] in ks;
    var r := PastEntries(store, keys, dayOf);
    if r.Some? && AllDated(r.value, EntryDays(dayOf)) {
      var es := ParsedEntries(store, ks).value;
      forall i | 0 <= i < |es|
        ensures EntryDays(dayOf)(es[i]).Some?
      {
        assert es[i] in multiset(r.value);
        var k :| 0 <= k < |r.value| && r.value[k] == es[i];
      }
      SortNewestFirstSorted(es, EntryDays(dayOf));
    }
  }

  // ----- the search over past entries -----

  /**
   * `entry[key]?.toLowerCase().includes(search)`: a missing or `null`
   * member gives `undefined`, which does not match; a member that is not a
   * text has no `toLowerCase` method and throws (`None`).
   */
  function FieldTest(entry: Json, key: string, search: string): Option<bool>
  {
    match Get(entry, key)
    case None => Some(false)
    case Some(JNull) => Some(false)
    case Some(JStr(s)) => Some(Includes(ToLower(s), search))
    case Some(_) => None
  }

  /**
   * `entry.date.includes(search)`, without optional chaining: a text is
   * searched as it is, without lower-casing; an array answers whether the
   * search is one of its items (`Array.prototype.includes`); anything else,
   * a missing date included, throws (`None`).
   */
  function DateTest(entry: Json, search: string): Option<bool>
  {
    match Get(entry, "date")
    case Some(JStr(d)) => Some(Includes(d, search))
    case Some(JArr(items)) => Some(JStr(search) in items)
    case _ => None
  }

  /** JavaScript's `a || b` on tests that may throw: `b` is not evaluated once `a` holds or throws. */
  function OrElse(a: Option<bool>, b: Option<bool>): Option<bool>
  {
    match a
    case None => None
    case Some(true) => Some(true)
    case Some(false) => b
  }

  /** The `filteredEntries` test: an empty query keeps everything, otherwise the members are tried in order. */
  function EntryTest(entry: Json, query: string): Option<bool>
  {
    if query == "" then Some(true)
    else
      var search := ToLower(query);
      OrElse(FieldTest(entry, "growthGoal", search),
      OrElse(FieldTest(entry, "callMuse", search),
      OrElse(FieldTest(entry, "dumpStalls", search),
      OrElse(FieldTest(entry, "manifestVision", search),
             DateTest(entry, search)))))
  }

  /** A text member whose lower-cased text holds the search. */
  predicate TextHas(entry: Json, key: string, search: string)
  {
    match Get(entry, key)
    case Some(JStr(s)) => Includes(ToLower(s), search)
    case _ => false
  }

  /** A date that holds the search as a text, or lists it as an item. */
  predicate DateHas(entry: Json, search: string)
  {
    match Get(entry, "date")
    case Some(JStr(d)) => Includes(d, search)
    case Some(JArr(items)) => JStr(search) in items
    case _ => false
  }

  /** The meaning of a match: an empty query, or the lower-cased query found in a text input or the date. */
  predicate Matches(entry: Json, query: string)
  {
    query == "" ||
    var search := ToLower(query);
    TextHas(entry, "growthGoal", search) || TextHas(entry, "callMuse", search) ||
    TextHas(entry, "dumpStalls", search) || TextHas(entry, "manifestVision", search) ||
    DateHas(entry, search)
  }

  /** A member that makes the test throw when it is reached: a text input that is not a text, `null` or missing. */
  predicate BadText(entry: Json, key: string)
  {
    match Get(entry, key)
    case None => false
    case Some(JNull) => false
    case Some(JStr(_)) => false
    case Some(_) => true
  }

  /** `filteredEntries`: `Array.prototype.filter` with `EntryTest`, aborted by the first entry whose test throws. */
  function FilteredEntries(entries: seq<Json>, query: string): Option<seq<Json>>
  {
    if entries == [] then Some([])
    else
      match EntryTest(entries[0], query)
      case None => None
      case Some(keep) =>
        match FilteredEntries(entries[1..], query)
        case None => None
        case Some(rest) => Some(if keep then [entries[0]] + rest else rest)
  }

  /** A test that does not throw says whether the entry matches. */
  lemma EntryTestMeaning(entry: Json, query: string)
    requires EntryTest(entry, query).Some?
    ensures EntryTest(entry, query).value <==> Matches(entry, query)
  {
  }

  /**
   * A test throws only for a non-empty query, and only where a text input
   * holds something other than a text or `null`, or the date is neither a
   * text nor an array.
   */
  lemma EntryTestThrows(entry: Json, query: string)
    requires EntryTest(entry, query).None?
    ensures query != ""
    ensures BadText(entry, "growthGoal") || BadText(entry, "callMuse") || BadText(entry, "dumpStalls") ||
            BadText(entry, "manifestVision") || !(Get(entry, "date").Some? && (Get(entry, "date").value.JStr? || Get(entry, "date").value.JArr?))
  {
  }

  /** The first text input is always reached: if it is not a text or `null`, every non-empty query throws. */
  lemma GrowthGoalThrows(entry: Json, query: string)
    requires query != "" && BadText(entry, "growthGoal")
    ensures EntryTest(entry, query).None?
  {
  }

  /** The filter throws exactly when some entry's test throws; otherwise it keeps the entries whose test holds. */
  lemma {:induction false} FilteredEntriesSpec(entries: seq<Json>, query: string)
    ensures FilteredEntries(entries, query).None? <==> exists i :: 0 <= i < |entries| && EntryTest(entries[i], query).None?
    ensures FilteredEntries(entries, query).Some? ==>
              FilteredEntries(entries, query).value == Filter(entries, (e: Json) => EntryTest(e, query) == Some(true))
  {
    if entries != [] {
      FilteredEntriesSpec(entries[1..], query);
      if EntryTest(entries[0], query).Some? && exists i :: 0 <= i < |entries[1..]| && EntryTest(entries[1..][i], query).None? {
        var i :| 0 <= i < |entries[1..]| && EntryTest(entries[1..][i], query).None?;
        assert EntryTest(entries[i + 1], query).None?;
      }
      if exists i :: 0 <= i < |entries| && EntryTest(entries[i], query).None? {
        var i :| 0 <= i < |entries| && EntryTest(entries[i], query).None?;
        if i > 0 {
          assert EntryTest(entries[1..][i - 1], query).None?;
        }
      }
    }
  }

  /**
   * An empty query keeps every entry; otherwise the search throws exactly
   * when some entry's test throws, and when it does not, it keeps exactly
   * the entries that match, in their order.
   */
  lemma SearchSpec(entries: seq<Json>, query: string)
    ensures query == "" ==> FilteredEntries(entries, query) == Some(entries)
    ensures FilteredEntries(entries, query).None? <==> exists i :: 0 <= i < |entries| && EntryTest(entries[i], query).None?
    ensures FilteredEntries(entries, query).Some? ==>
              (forall e :: e in FilteredEntries(entries, query).value <==> e in entries && Matches(e, query)) &&
              IsSubsequence(FilteredEntries(entries, query).value, entries)
  {
    var keep := (e: Json) => EntryTest(e, query) == Some(true);
    FilteredEntriesSpec(entries, query);
    FilterSpec(entries, keep);
    if query == "" {
      FilterAll(entries, keep);
    }
    if FilteredEntries(entries, query).Some? {
      forall e | e in entries
        ensures keep(e) <==> Matches(e, query)
      {
        var i :| 0 <= i < |entries| && entries[i] == e;
        EntryTestMeaning(e, query);
      }
    }
  }

  /**
   * A text input whose lower-cased text holds the lower-cased query keeps
   * the entry, unless a text input tried before it throws.
   */
  lemma MatchesText(entry: Json, query: string, key: string, s: string)
    requires query != "" && key in {"growthGoal", "callMuse", "dumpStalls", "manifestVision"}
    requires Get(entry, key) == Some(JStr(s)) && Includes(ToLower(s), ToLower(query))
    ensures Matches(entry, query)
    ensures EntryTest(entry, query) != Some(false)
    ensures !BadText(entry, "growthGoal") && !BadText(entry, "callMuse") && !BadText(entry, "dumpStalls") ==>
              EntryTest(entry, query) == Some(true)
  {
  }

  /** An entry saved by `saveEntry` is never one whose test throws, whatever the query. */
  lemma SavedEntrySearchable(key: string, f: Fields, savedAt: string, query: string)
    requires StartsWith(key, ManifestPrefix)
    ensures PastEntry(key, Some(Stringify(EntryObject(f, savedAt)))).Some?
    ensures EntryTest(PastEntry(key, Some(Stringify(EntryObject(f, savedAt)))).value, query).Some?
  {
    var j := EntryObject(f, savedAt);
    EntryWellFormed(f, savedAt);
    ParseStringify(j);
    var dated := [Member("date", JStr(DropPrefix(key, ManifestPrefix)))];
    var e := JObj(Spread(dated, j.members));
    assert PastEntry(key, Some(Stringify(j))) == Some(e);
    EntryLookups(f, savedAt);
    SpreadLookup(dated, j.members, "growthGoal");
    SpreadLookup(dated, j.members, "callMuse");
    SpreadLookup(dated, j.members, "dumpStalls");
    SpreadLookup(dated, j.members, "manifestVision");
    SpreadKeeps(dated, j.members, "date");
    assert Get(e, "date") == Some(JStr(DropPrefix(key, ManifestPrefix)));
  }

  /** The members of a saved entry: its four texts, and no `date`. */
  lemma EntryLookups(f: Fields, savedAt: string)
    ensures Lookup(EntryObject(f, savedAt).members, "growthGoal") == Some(JStr(f.growthGoal))
    ensures Lookup(EntryObject(f, savedAt).members, "callMuse") == Some(JStr(f.callMuse))
    ensures Lookup(EntryObject(f, savedAt).members, "dumpStalls") == Some(JStr(f.dumpStalls))
    ensures Lookup(EntryObject(f, savedAt).members, "manifestVision") == Some(JStr(f.manifestVision))
    ensures Lookup(EntryObject(f, savedAt).members, "date").None?
  {
    var ms := EntryObject(f, savedAt).members;
    assert ms[1..][1..] == ms[2..] && ms[2..][1..] == ms[3..] && ms[3..][1..] == ms[4..] && ms[4..][1..] == [];
    assert Lookup(ms, "callMuse") == Lookup(ms[1..], "callMuse");
    assert Lookup(ms, "dumpStalls") == Lookup(ms[1..], "dumpStalls") == Lookup(ms[2..], "dumpStalls");
    assert Lookup(ms, "manifestVision") == Lookup(ms[1..], "manifestVision") == Lookup(ms[2..], "manifestVision")
        == Lookup(ms[3..], "manifestVision");
    assert Lookup(ms, "date") == Lookup(ms[1..], "date") == Lookup(ms[2..], "date") == Lookup(ms[3..], "date")
        == Lookup(ms[4..], "date") == Lookup([], "date");
  }

  /** Queries that differ only in letter case keep the same entries, and throw for the same ones. */
  lemma {:induction false} SearchIgnoresCase(entries: seq<Json>, q1: string, q2: string)
    requires ToLower(q1) == ToLower(q2)
    ensures FilteredEntries(entries, q1) == FilteredEntries(entries, q2)
  {
    assert |q1| == |ToLower(q1)| == |q2|;
    if entries != [] {
      assert EntryTest(entries[0], q1) == EntryTest(entries[0], q2);
      SearchIgnoresCase(entries[1..], q1, q2);
    }
  }

  // ----- hearted quotes -----

  /**
   * Some saved quote that is not `null` has the quote text `text` as `===`
   * sees it (`None` standing for `undefined`): an object or an array as the
   * text is never found.
   */
  predicate IsHearted(saved: seq<Json>, text: Option<Json>)
  {
    exists i :: 0 <= i < |saved| && saved[i] != JNull && StrictEqual(Get(saved[i], "quote"), text)
  }

  /** `raw ? JSON.parse(raw) : []` for `hearted_quotes`, `None` where it throws or is no list (`some` then throws). */
  function SavedQuotes(store: Store): Option<seq<Json>>
  {
    var raw := GetItem(store, HeartedKey);
    if !HasText(raw) then Some([])
    else
      match Parse(raw.value)
      case Some(JArr(items)) => Some(items)
      case _ => None
  }

  /** The copy pushed onto the list: `{...quoteObj, heartedAt}`. */
  function HeartedCopy(quoteObj: seq<Member>, heartedAt: string): Json
  {
    JObj(Put(Spread([], quoteObj), "heartedAt", JStr(heartedAt)))
  }

  /**
   * The saved list after `toggleHeartQuote(quoteObj)`: without every quote of
   * the same text when one is saved, with a copy appended otherwise; `None`
   * where a `null` in the list makes `some` or `filter` throw.
   */
  function Toggled(saved: seq<Json>, quoteObj: seq<Member>, heartedAt: string): Option<seq<Json>>
  {
    var text := Lookup(quoteObj, "quote");
    match SomeMember(saved, "quote", text)
    case None => None
    case Some(true) =>
      // `filter` reads the member of every element
      if JNull in saved then None else Some(Filter(saved, (q: Json) => !StrictEqual(Get(q, "quote"), text)))
    case Some(false) => Some(saved + [HeartedCopy(quoteObj, heartedAt)])
  }

  /** The copy keeps the quote text of the quote it copies. */
  lemma HeartedCopyText(quoteObj: seq<Member>, heartedAt: string)
    requires DistinctKeys(quoteObj)
    ensures Get(HeartedCopy(quoteObj, heartedAt), "quote") == Lookup(quoteObj, "quote")
  {
    PutLookup(Spread([], quoteObj), "heartedAt", JStr(heartedAt), "quote");
    SpreadLookup([], quoteObj, "quote");
  }

  /** Toggling throws exactly where the saved list holds a `null`. */
  lemma ToggleThrows(saved: seq<Json>, quoteObj: seq<Member>, heartedAt: string)
    ensures Toggled(saved, quoteObj, heartedAt).None? <==> JNull in saved
  {
    var text := Lookup(quoteObj, "quote");
    SomeMemberNone(saved, "quote", text);
    SomeMemberFalse(saved, "quote", text);
  }

  /**
   * Toggling flips whether the quote's text is hearted, where the text is no
   * object or array; such a text is never hearted.
   */
  lemma ToggleFlips(saved: seq<Json>, quoteObj: seq<Member>, heartedAt: string)
    requires DistinctKeys(quoteObj)
    ensures var r := Toggled(saved, quoteObj, heartedAt);
            r.Some? ==> (IsHearted(r.value, Lookup(quoteObj, "quote")) <==>
                         !ByIdentity(Lookup(quoteObj, "quote")) && !IsHearted(saved, Lookup(quoteObj, "quote")))
  {
    var text := Lookup(quoteObj, "quote");
    var r := Toggled(saved, quoteObj, heartedAt);
    if r.Some? {
      if SomeMember(saved, "quote", text) == Some(true) {
        SomeMemberTrue(saved, "quote", text);
        var keep := (q: Json) => !StrictEqual(Get(q, "quote"), text);
        assert r.value == Filter(saved, keep);
        FilterSpec(saved, keep);
        forall i | 0 <= i < |r.value|
          ensures !StrictEqual(Get(r.value[i], "quote"), text)
        {
          assert r.value[i] in r.value;
        }
      } else {
        SomeMemberFalse(saved, "quote", text);
        HeartedCopyText(quoteObj, heartedAt);
        assert r.value[|saved|] == HeartedCopy(quoteObj, heartedAt);
      }
    }
  }

  /**
   * Removing keeps every other saved quote, in its order; adding appends the
   * copy after the saved quotes.
   */
  lemma ToggleKeepsOthers(saved: seq<Json>, quoteObj: seq<Member>, heartedAt: string)
    ensures var r := Toggled(saved, quoteObj, heartedAt);
            r.Some? && IsHearted(saved, Lookup(quoteObj, "quote")) ==>
              IsSubsequence(r.value, saved) &&
              forall q :: q in r.value <==> q in saved && Get(q, "quote") != Lookup(quoteObj, "quote")
    ensures var r := Toggled(saved, quoteObj, heartedAt);
            r.Some? && !IsHearted(saved, Lookup(quoteObj, "quote")) ==>
              r.value == saved + [HeartedCopy(quoteObj, heartedAt)]
  {
    var text := Lookup(quoteObj, "quote");
    SomeMemberTrue(saved, "quote", text);
    SomeMemberFalse(saved, "quote", text);
    FilterSpec(saved, (q: Json) => !StrictEqual(Get(q, "quote"), text));
    if IsHearted(saved, text) && Toggled(saved, quoteObj, heartedAt).Some? {
      var i :| 0 <= i < |saved| && saved[i] != JNull && StrictEqual(Get(saved[i], "quote"), text);
      assert !ByIdentity(text);
      assert SomeMember(saved, "quote", text) != Some(false);
    }
  }

  /**
   * Hearting a quote that is not saved and then toggling it again restores
   * the saved list. A quote whose text is an object or an array is never
   * found again, so the second toggle appends a second copy.
   */
  lemma ToggleTwice(saved: seq<Json>, quoteObj: seq<Member>, heartedAt: string, later: string)
    requires DistinctKeys(quoteObj) && JNull !in saved && !IsHearted(saved, Lookup(quoteObj, "quote"))
    ensures Toggled(saved, quoteObj, heartedAt).Some?
    ensures !ByIdentity(Lookup(quoteObj, "quote")) ==>
              Toggled(Toggled(saved, quoteObj, heartedAt).value, quoteObj, later) == Some(saved)
    ensures ByIdentity(Lookup(quoteObj, "quote")) ==>
              Toggled(Toggled(saved, quoteObj, heartedAt).value, quoteObj, later) ==
                Some(saved + [HeartedCopy(quoteObj, heartedAt), HeartedCopy(quoteObj, later)])
  {
    var text := Lookup(quoteObj, "quote");
    var copy := HeartedCopy(quoteObj, heartedAt);
    SomeMemberFalse(saved, "quote", text);
    var once := saved + [copy];
    assert Toggled(saved, quoteObj, heartedAt) == Some(once);
    HeartedCopyText(quoteObj, heartedAt);
    assert once[|saved|] == copy;
    assert JNull !in once;
    if ByIdentity(text) {
      SomeMemberFalse(once, "quote", text);
      assert once + [HeartedCopy(quoteObj, later)] == saved + [copy, HeartedCopy(quoteObj, later)];
    } else {
      SomeMemberTrue(once, "quote", text);
      assert SomeMember(once, "quote", text) == Some(true);
      var keep := (q: Json) => !StrictEqual(Get(q, "quote"), text);
      FilterAppend(saved, [copy], keep);
      FilterAll(saved, keep);
      assert Filter([copy], keep) == [];
      assert Filter(once, keep) == saved;
      assert Toggled(once, quoteObj, later) == Some(Filter(once, keep));
    }
  }

  // ----- the screen -----

  /**
   * The screen's state: the store it reads and writes, the day's quote and
   * date string, the four inputs, the loaded past entries and the hearted
   * quotes with today's heart.
   */
  class ManifestScreen {
    var store: Store
    const today: string
    const todayQuote: seq<Member>
    var growthGoal: string
    var callMuse: string
    var dumpStalls: string
    var manifestVision: string
    var pastEntries: seq<Json>
    var heartedQuotes: Json
    var todayQuoteHearted: bool

    function Form(): Fields
      reads this
    {
      Fields(growthGoal, callMuse, dumpStalls, manifestVision)
    }

    /** The hearted list and today's heart. */
    function Hearts(): (Json, bool)
      reads this
    {
      (heartedQuotes, todayQuoteHearted)
    }

    /** The screen as it mounts on `date`: empty inputs, nothing loaded, and the day's quote from `quotes`. */
    constructor(store: Store, date: Date, quotes: seq<seq<Member>>)
      requires ValidDate(date) && |quotes| > 0
      ensures this.store == store && today == DateString(date)
      ensures todayQuote == quotes[QuoteIndex(date, |quotes|).value]
      ensures Form() == Fields("", "", "", "") && pastEntries == [] && Hearts() == (JArr([]), false)
    {
      this.store := store;
      today := DateString(date);
      var quoteIndex := DayOfYear(date) % |quotes|;
      todayQuote := quotes[quoteIndex];
      growthGoal, callMuse, dumpStalls, manifestVision := "", "", "", "";
      pastEntries := [];
      heartedQuotes := JArr([]);
      todayQuoteHearted := false;
    }

    /** `saveEntry`: the four inputs and the time of saving, stored under today's key. */
    method SaveEntry(savedAt: string)
      modifies this
      ensures store == old(store)[Streak.ManifestKey(today) := Stringify(EntryObject(Form(), savedAt))]
      ensures LoadedEntry(GetItem(store, Streak.ManifestKey(today))) == Some(Form())
      ensures Form() == old(Form()) && pastEntries == old(pastEntries) && Hearts() == old(Hearts())
    {
      var entry := EntryObject(Fields(growthGoal, callMuse, dumpStalls, manifestVision), savedAt);
      store := store[Streak.ManifestKey(today) := Stringify(entry)];
      SaveLoadRoundTrip(Form(), savedAt);
    }

    /** `loadTodayEntry`: the inputs take the stored texts of today's entry, if there is one to read. */
    method LoadTodayEntry()
      modifies this
      ensures var loaded := LoadedEntry(GetItem(store, Streak.ManifestKey(today)));
              (loaded.Some? ==> Form() == loaded.value) && (loaded.None? ==> Form() == old(Form()))
      ensures store == old(store) && pastEntries == old(pastEntries) && Hearts() == old(Hearts())
    {
      var entry := GetItem(store, Streak.ManifestKey(today));
      if entry.Some? && entry.value != "" {
        var parsed := Parse(entry.value);
        if parsed.None? || parsed.value == JNull {
          return;
        }
        growthGoal := FieldText(parsed.value, "growthGoal");
        callMuse := FieldText(parsed.value, "callMuse");
        dumpStalls := FieldText(parsed.value, "dumpStalls");
        manifestVision := FieldText(parsed.value, "manifestVision");
      }
    }

    /** `loadPastEntries` with the store's keys `allKeys`: the sorted past entries, unless one throws. */
    method LoadPastEntries(allKeys: seq<string>)
      requires AllKeysOf(store, allKeys)
      modifies this
      ensures var r := PastEntries(store, allKeys, DayOf);
              (r.Some? ==> pastEntries == r.value) && (r.None? ==> pastEntries == old(pastEntries))
      ensures store == old(store) && Form() == old(Form()) && Hearts() == old(Hearts())
    {
      var parsed := PastEntries(store, allKeys, DayOf);
      if parsed.Some? {
        pastEntries := parsed.value;
      }
    }

    /**
     * `loadHeartedQuotes`: the parsed list and whether today's quote is in it.
     * A value that is no list is still shown, and its `some` then throws
     * before today's heart is set.
     */
    method LoadHeartedQuotes()
      modifies this
      ensures var raw := GetItem(store, HeartedKey);
              !HasText(raw) || Parse(raw.value).None? ==> Hearts() == old(Hearts())
      ensures var raw := GetItem(store, HeartedKey);
              HasText(raw) && Parse(raw.value).Some? ==>
                heartedQuotes == Parse(raw.value).value &&
                var hearted := if heartedQuotes.JArr? then SomeMember(heartedQuotes.items, "quote", Lookup(todayQuote, "quote")) else None;
                todayQuoteHearted == (if hearted.Some? then hearted.value else old(todayQuoteHearted))
      ensures store == old(store) && Form() == old(Form()) && pastEntries == old(pastEntries)
    {
      var raw := GetItem(store, HeartedKey);
      if HasText(raw) {
        var parsed := Parse(raw.value);
        if parsed.None? {
          return;
        }
        heartedQuotes := parsed.value;
        if !parsed.value.JArr? {
          return;
        }
        var isHearted := SomeMember(parsed.value.items, "quote", Lookup(todayQuote, "quote"));
        if isHearted.None? {
          return;
        }
        todayQuoteHearted := isHearted.value;
      }
    }

    /**
     * `toggleHeartQuote(quoteObj)` at time `heartedAt`: the toggled list is
     * stored and shown, and where the quote is today's the heart shows the
     * opposite of whether it was hearted, which for a quote whose text is no
     * object or array is whether it is hearted now; nothing changes where the
     * toggle throws.
     */
    method ToggleHeartQuote(quoteObj: seq<Member>, heartedAt: string)
      requires DistinctKeys(quoteObj)
      modifies this
      ensures var saved := SavedQuotes(old(store));
              var r := if saved.Some? then Toggled(saved.value, quoteObj, heartedAt) else None;
              (r.None? ==> store == old(store) && Hearts() == old(Hearts())) &&
              (r.Some? ==> store == old(store)[HeartedKey := Stringify(JArr(r.value))] && heartedQuotes == JArr(r.value) &&
                           if Lookup(quoteObj, "quote") == Lookup(todayQuote, "quote")
                           then todayQuoteHearted == !IsHearted(saved.value, Lookup(quoteObj, "quote")) &&
                                (!ByIdentity(Lookup(todayQuote, "quote")) ==> todayQuoteHearted == IsHearted(r.value, Lookup(todayQuote, "quote")))
                           else todayQuoteHearted == old(todayQuoteHearted))
      ensures Form() == old(Form()) && pastEntries == old(pastEntries)
    {
      var raw := GetItem(store, HeartedKey);
      var saved: seq<Json>;
      if HasText(raw) {
        var parsed := Parse(raw.value);
        if parsed.None? || !parsed.value.JArr? {
          return;
        }
        saved := parsed.value.items;
      } else {
        saved := [];
      }
      var original := saved;
      var text := Lookup(quoteObj, "quote");
      var found := SomeMember(saved, "quote", text);
      if found.None? {
        return;
      }
      if found.value {
        if JNull in saved {
          return;
        }
        saved := Filter(saved, (q: Json) => !StrictEqual(Get(q, "quote"), text));
      } else {
        saved := saved + [HeartedCopy(quoteObj, heartedAt)];
      }
      assert Toggled(original, quoteObj, heartedAt) == Some(saved);
      ToggleFlips(original, quoteObj, heartedAt);
      SomeMemberTrue(original, "quote", text);
      SomeMemberFalse(original, "quote", text);
      store := store[HeartedKey := Stringify(JArr(saved))];
      heartedQuotes := JArr(saved);
      if text == Lookup(todayQuote, "quote") {
        todayQuoteHearted := !found.value;
      }
    }
  }
}
