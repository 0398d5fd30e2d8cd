/**
 * The settings page of the side menu: account method, time zone, favourite
 * mediums grouped by category, and the three preference switches, all kept
 * in the shared settings entry.
 */
module MenuSettings {
  import opened Wrappers
  import opened Json
  import opened Seqs
  import opened Storage
  import opened AppSettings

  // ----- the time zone picker -----

  const Timezones: seq<string> := [
    "America/New_York", "America/Chicago", "America/Denver", "America/Los_Angeles",
    "America/Anchorage", "Pacific/Honolulu", "America/Phoenix", "America/Toronto",
    "America/Vancouver", "Europe/London", "Europe/Paris", "Europe/Berlin",
    "Asia/Tokyo", "Asia/Shanghai", "Asia/Kolkata", "Australia/Sydney"
  ]

  const TimezoneLabels: map<string, string> := map[
    "America/New_York" := "Eastern (EST/EDT)",
    "America/Chicago" := "Central (CST/CDT)",
    "America/Denver" := "Mountain (MST/MDT)",
    "America/Los_Angeles" := "Pacific (PST/PDT)",
    "America/Anchorage" := "Alaska (AKST/AKDT)",
    "Pacific/Honolulu" := "Hawaii (HST)",
    "America/Phoenix" := "Arizona (MST)",
    "America/Toronto" := "Toronto (EST/EDT)",
    "America/Vancouver" := "Vancouver (PST/PDT)",
    "Europe/London" := "London (GMT/BST)",
    "Europe/Paris" := "Paris (CET/CEST)",
    "Europe/Berlin" := "Berlin (CET/CEST)",
    "Asia/Tokyo" := "Tokyo (JST)",
    "Asia/Shanghai" := "Shanghai (CST)",
    "Asia/Kolkata" := "Kolkata (IST)",
    "Australia/Sydney" := "Sydney (AEST/AEDT)"
  ]

  const DefaultTimezone := "America/New_York"

  /**
   * The text a stored value turns into as a property key, where that text
   * can name a listed zone: a text itself, or an array of one element that
   * names one (`String(["Asia/Tokyo"])` is `"Asia/Tokyo"`). Every other value
   * turns into `null`, `true`, `false`, a number, `[object Object]`, an empty
   * text or a text with a comma, and no listed zone is one of those.
   */
  function ZoneKey(tz: Json): Option<string>
  {
    match tz
    case JStr(s) => Some(s)
    case JArr(items) => if |items| == 1 then ZoneKey(items[0]) else None
    case _ => None
  }

  /**
   * `TIMEZONE_LABELS[tz] || tz`: the friendly label of the zone the stored
   * value names as a property key, where it has a non-empty one, and the
   * value itself otherwise.
   */
  function TimezoneLabel(tz: Json): (r: Json)
    ensures var k := ZoneKey(tz);
            k.Some? && k.value in TimezoneLabels && TimezoneLabels[k.value] != "" ==> r == JStr(TimezoneLabels[k.value])
    ensures var k := ZoneKey(tz);
            !(k.Some? && k.value in TimezoneLabels && TimezoneLabels[k.value] != "") ==> r == tz
  {
    var k := ZoneKey(tz);
    if k.Some? && k.value in TimezoneLabels && TimezoneLabels[k.value] != "" then JStr(TimezoneLabels[k.value]) else tz
  }

  /** The picker offers sixteen different zones, the default among them, and exactly these have labels. */
  lemma TimezoneTables()
    ensures |Timezones| == 16 && Distinct(Timezones)
    ensures DefaultTimezone in Timezones
    ensures forall tz :: tz in TimezoneLabels <==> tz in Timezones
  {
  }

  /** Every zone in the list is shown by its label, never by its raw id. */
  lemma ListedTimezoneLabel(tz: string)
    requires tz in Timezones
    ensures tz in TimezoneLabels
    ensures TimezoneLabel(JStr(tz)) == JStr(TimezoneLabels[tz])
    ensures TimezoneLabel(JStr(tz)) != JStr(tz)
  {
  }

  /** A stored array holding just a listed zone shows that zone's label. */
  lemma OneZoneArrayLabel(tz: string)
    requires tz in Timezones
    ensures TimezoneLabel(JArr([JStr(tz)])) == JStr(TimezoneLabels[tz])
  {
    assert ZoneKey(JArr([JStr(tz)])) == ZoneKey(JStr(tz)) == Some(tz);
    ListedTimezoneLabel(tz);
  }

  /** A stored id that is not in the list is shown as it is. */
  lemma UnlistedTimezoneLabel(tz: string)
    requires tz !in Timezones
    ensures TimezoneLabel(JStr(tz)) == JStr(tz)
  {
    TimezoneTables();
  }

  // ----- the account method buttons -----

  datatype AccountMethod = AccountMethod(key: string, title: string)

  const AccountMethods: seq<AccountMethod> := [
    AccountMethod("apple", "Apple ID"), AccountMethod("google", "Google"), AccountMethod("email", "Email")
  ]

  /** `accountMethod === method.key`: the button drawn as selected. */
  predicate MethodActive(accountMethod: Json, i: nat)
    requires i < |AccountMethods|
  {
    accountMethod == JStr(AccountMethods[i].key)
  }

  /** At most one account button is drawn as selected. */
  lemma OneMethodActive(accountMethod: Json, i: nat, j: nat)
    requires i < |AccountMethods| && j < |AccountMethods| && i != j
    ensures !(MethodActive(accountMethod, i) && MethodActive(accountMethod, j))
  {
  }

  // ----- favourite mediums and the category list -----

  /**
   * `toggleMedium`'s update: `prev.filter(m => m !== medium)` when the list
   * includes the medium, `[...prev, medium]` otherwise.
   */
  function ToggledMediums(prev: seq<Json>, medium: string): (next: seq<Json>)
  {
    if JStr(medium) in prev then Filter(prev, (m: Json) => m != JStr(medium)) else prev + [JStr(medium)]
  }

  /** A toggle flips whether the medium is a favourite and keeps every other entry. */
  lemma ToggleMediumMembership(prev: seq<Json>, medium: string)
    ensures JStr(medium) in ToggledMediums(prev, medium) <==> JStr(medium) !in prev
    ensures forall x :: x != JStr(medium) ==> (x in ToggledMediums(prev, medium) <==> x in prev)
  {
    FilterSpec(prev, (m: Json) => m != JStr(medium));
  }

  /** A toggle never introduces a duplicate. */
  lemma ToggleMediumDistinct(prev: seq<Json>, medium: string)
    requires Distinct(prev)
    ensures Distinct(ToggledMediums(prev, medium))
  {
    if JStr(medium) in prev {
      FilterDistinct(prev, (m: Json) => m != JStr(medium));
    }
  }

  /** Toggling a medium that is not a favourite twice gives back the same list. */
  lemma ToggleMediumTwice(prev: seq<Json>, medium: string)
    requires JStr(medium) !in prev
    ensures ToggledMediums(ToggledMediums(prev, medium), medium) == prev
  {
    var p := (m: Json) => m != JStr(medium);
    FilterAppend(prev, [JStr(medium)], p);
    FilterAll(prev, p);
    assert Filter([JStr(medium)], p) == [];
  }

  /**
   * Toggling a favourite twice keeps the same favourites: the medium comes
   * back, as the last entry.
   */
  lemma ToggleFavoriteTwice(prev: seq<Json>, medium: string)
    requires JStr(medium) in prev
    ensures ToggledMediums(ToggledMediums(prev, medium), medium) == Filter(prev, (m: Json) => m != JStr(medium)) + [JStr(medium)]
    ensures forall x :: x in ToggledMediums(ToggledMediums(prev, medium), medium) <==> x in prev
  {
    ToggleMediumMembership(prev, medium);
    ToggleMediumMembership(ToggledMediums(prev, medium), medium);
  }

  /** `!prev[cat]` read as a flag: a category missing from the map is collapsed. */
  predicate Expanded(categories: map<string, bool>, cat: string)
  {
    cat in categories && categories[cat]
  }

  /** `toggleCategory`'s update `{ ...prev, [cat]: !prev[cat] }`. */
  function ToggledCategories(prev: map<string, bool>, cat: string): (next: map<string, bool>)
    ensures Expanded(next, cat) != Expanded(prev, cat)
    ensures next.Keys == prev.Keys + {cat}
    ensures forall c :: c in prev && c != cat ==> next[c] == prev[c]
  {
    prev[cat := !Expanded(prev, cat)]
  }

  /** Toggling a category twice shows every category as before. */
  lemma ToggleCategoryTwice(prev: map<string, bool>, cat: string, c: string)
    ensures Expanded(ToggledCategories(ToggledCategories(prev, cat), cat), c) == Expanded(prev, c)
  {
  }

  // ----- loading and saving -----

  /** The values the screen shows for the ten saved settings. */
  datatype Shown = Shown(
    notifications: Json, dailyReminder: Json, anonymous: Json,
    accountMethod: Json, email: Json, username: Json, timezone: Json,
    currentLocation: Json, heartLocation: Json, favoriteMediums: Json)

  const EmptyLocation := JObj([Member("country", JStr("")), Member("state", JStr("")), Member("city", JStr(""))])

  /** The screen's initial state, and each field's default when loading. */
  const Defaults := Shown(JBool(true), JBool(true), JBool(true), JStr(""), JStr(""), JStr(""),
                          JStr(DefaultTimezone), EmptyLocation, EmptyLocation, JArr([]))

  /** The shown value of the setting saved under `key`. */
  function Field(s: Shown, key: string): Json
    requires key in SettingNames
  {
    match key
    case "notifications" => s.notifications
    case "dailyReminder" => s.dailyReminder
    case "anonymous" => s.anonymous
    case "accountMethod" => s.accountMethod
    case "email" => s.email
    case "username" => s.username
    case "timezone" => s.timezone
    case "currentLocation" => s.currentLocation
    case "heartLocation" => s.heartLocation
    case _ => s.favoriteMediums
  }

  /**
   * `loadSettings` on stored `data`: each setting is `data[key] ?? default`,
   * so only a missing or `null` member takes the default and stored `false`,
   * `''` or `0` values are kept.
   */
  function LoadedShown(data: Json): (r: Shown)
    ensures forall key :: key in SettingNames ==> Field(r, key) == Setting(data, key, Field(Defaults, key))
  {
    Shown(
      Setting(data, "notifications", JBool(true)),
      Setting(data, "dailyReminder", JBool(true)),
      Setting(data, "anonymous", JBool(true)),
      Setting(data, "accountMethod", JStr("")),
      Setting(data, "email", JStr("")),
      Setting(data, "username", JStr("")),
      Setting(data, "timezone", JStr(DefaultTimezone)),
      Setting(data, "currentLocation", EmptyLocation),
      Setting(data, "heartLocation", EmptyLocation),
      Setting(data, "favoriteMediums", JArr([])))
  }

  /**
   * Saving one setting and loading the screen again changes exactly that
   * setting to the value saved; every other one loads as before the save.
   */
  lemma SaveThenLoad(store: Store, ms: seq<Member>, key: string, value: Json, other: string)
    requires key in SettingNames && other in SettingNames
    requires StartingSettings(store) == Some(JObj(ms)) && WellFormed(JObj(ms))
    requires WellFormed(value) && value != JNull
    ensures StoredSettings(SavedSettings(store, key, value)).Some?
    ensures Field(LoadedShown(StoredSettings(SavedSettings(store, key, value)).value), key) == value
    ensures other != key ==>
              Field(LoadedShown(StoredSettings(SavedSettings(store, key, value)).value), other) == Field(LoadedShown(JObj(ms)), other)
  {
    SaveThenRead(store, ms, key, value, other);
  }

  /** A screen loading from an empty settings object shows every default. */
  lemma LoadEmpty()
    ensures LoadedShown(JObj([])) == Defaults
  {
  }

  class SettingsScreen {
    var store: Store
    var shown: Shown
    var showTimezoneList: bool
    var expandedCategories: map<string, bool>

    /** The screen before `loadSettings` runs. */
    constructor(store0: Store)
      ensures store == store0 && shown == Defaults
      ensures !showTimezoneList && expandedCategories == map[]
    {
      store := store0;
      shown := Defaults;
      showTimezoneList := false;
      expandedCategories := map[];
    }

    /** `loadSettings`: a stored entry replaces the ten settings; without one nothing changes. */
    method LoadSettings()
      modifies this
      ensures store == old(store)
      ensures StoredSettings(store).Some? ==> shown == LoadedShown(StoredSettings(store).value)
      ensures StoredSettings(store).None? ==> shown == old(shown)
      ensures showTimezoneList == old(showTimezoneList) && expandedCategories == old(expandedCategories)
    {
      var raw := GetItem(store, SettingsKey);
      if HasText(raw) {
        var parsed := Parse(raw.value);
        if parsed.Some? && parsed.value != JNull {
          shown := LoadedShown(parsed.value);
        }
      }
    }

    /** Pressing one of the account method buttons. */
    method SelectAccountMethod(i: nat)
      requires i < |AccountMethods|
      modifies this
      ensures shown == old(shown).(accountMethod := JStr(AccountMethods[i].key))
      ensures MethodActive(shown.accountMethod, i)
      ensures store == SavedSettings(old(store), "accountMethod", JStr(AccountMethods[i].key))
      ensures showTimezoneList == old(showTimezoneList) && expandedCategories == old(expandedCategories)
    {
      var key := AccountMethods[i].key;
      shown := shown.(accountMethod := JStr(key));
      store := SaveSettings(store, "accountMethod", JStr(key));
    }

    /** Pressing the time zone field opens or closes the list. */
    method ToggleTimezoneList()
      modifies this
      ensures showTimezoneList == !old(showTimezoneList)
      ensures store == old(store) && shown == old(shown) && expandedCategories == old(expandedCategories)
    {
      showTimezoneList := !showTimezoneList;
    }

    /** Choosing a zone from the list: it is shown and saved, and the list closes. */
    method SelectTimezone(tz: string)
      requires tz in Timezones
      modifies this
      ensures shown == old(shown).(timezone := JStr(tz))
      ensures store == SavedSettings(old(store), "timezone", JStr(tz))
      ensures !showTimezoneList
      ensures expandedCategories == old(expandedCategories)
    {
      shown := shown.(timezone := JStr(tz));
      store := SaveSettings(store, "timezone", JStr(tz));
      showTimezoneList := false;
    }

    /** `toggleMedium`: the favourites list is updated and the new list saved. */
    method ToggleMedium(medium: string)
      requires shown.favoriteMediums.JArr?
      modifies this
      ensures shown == old(shown).(favoriteMediums := JArr(ToggledMediums(old(shown.favoriteMediums.items), medium)))
      ensures store == SavedSettings(old(store), "favoriteMediums", JArr(ToggledMediums(old(shown.favoriteMediums.items), medium)))
      ensures showTimezoneList == old(showTimezoneList) && expandedCategories == old(expandedCategories)
    {
      var next := ToggledMediums(shown.favoriteMediums.items, medium);
      store := SaveSettings(store, "favoriteMediums", JArr(next));
      shown := shown.(favoriteMediums := JArr(next));
    }

    /** `toggleCategory`: expand or collapse one category; nothing is saved. */
    method ToggleCategory(cat: string)
      modifies this
      ensures expandedCategories == ToggledCategories(old(expandedCategories), cat)
      ensures store == old(store) && shown == old(shown) && showTimezoneList == old(showTimezoneList)
    {
      expandedCategories := ToggledCategories(expandedCategories, cat);
    }

    /** The notifications switch. */
    method SetNotifications(value: bool)
      modifies this
      ensures shown == old(shown).(notifications := JBool(value))
      ensures store == SavedSettings(old(store), "notifications", JBool(value))
      ensures showTimezoneList == old(showTimezoneList) && expandedCategories == old(expandedCategories)
    {
      shown := shown.(notifications := JBool(value));
      store := SaveSettings(store, "notifications", JBool(value));
    }

    /** The daily reminder switch. */
    method SetDailyReminder(value: bool)
      modifies this
      ensures shown == old(shown).(dailyReminder := JBool(value))
      ensures store == SavedSettings(old(store), "dailyReminder", JBool(value))
      ensures showTimezoneList == old(showTimezoneList) && expandedCategories == old(expandedCategories)
    {
      shown := shown.(dailyReminder := JBool(value));
      store := SaveSettings(store, "dailyReminder", JBool(value));
    }

    /** The post-anonymously switch. */
    method SetAnonymous(value: bool)
      modifies this
      ensures shown == old(shown).(anonymous := JBool(value))
      ensures store == SavedSettings(old(store), "anonymous", JBool(value))
      ensures showTimezoneList == old(showTimezoneList) && expandedCategories == old(expandedCategories)
    {
      shown := shown.(anonymous := JBool(value));
      store := SaveSettings(store, "anonymous", JBool(value));
    }

    /**
     * The second confirmation of "Clear All Data": the store is emptied and
     * `loadSettings` finds nothing, so the screen keeps showing what it showed.
     */
    method ClearData()
      modifies this
      ensures store == map[]
      ensures shown == old(shown)
      ensures showTimezoneList == old(showTimezoneList) && expandedCategories == old(expandedCategories)
    {
      store := map[];
      LoadSettings();
    }
  }
}
