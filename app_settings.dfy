/**
 * The `app_settings` entry both settings screens share: one JSON object whose
 * members are the individual settings, read back when a screen mounts and
 * rewritten member by member by `saveSettings(key, value)`.
 */
module AppSettings {
  import opened Wrappers
  import opened Json
  import opened Storage

  const SettingsKey := "app_settings"

  /** The keys the two screens save; none of them is an array index or `length`. */
  const SettingNames: set<string> := {
    "notifications", "dailyReminder", "anonymous", "accountMethod", "email", "username",
    "timezone", "currentLocation", "heartLocation", "favoriteMediums"
  }

  /**
   * `current ? JSON.parse(current) : {}`: the settings object `saveSettings`
   * starts from, or `None` where `JSON.parse` throws.
   */
  function StartingSettings(store: Store): (r: Option<Json>)
    ensures !HasText(GetItem(store, SettingsKey)) ==> r == Some(JObj([]))
    ensures HasText(GetItem(store, SettingsKey)) ==> r == Parse(store[SettingsKey])
  {
    var current := GetItem(store, SettingsKey);
    if HasText(current) then Parse(current.value) else Some(JObj([]))
  }

  /**
   * The store after `saveSettings(key, value)`.  On an object the member is
   * set and the object written back.  On an array the assignment adds a
   * property that `JSON.stringify` does not write, so the array is written
   * back as it was.  On `null` or another primitive the assignment throws
   * (the screens are strict-mode modules), as does text that does not parse;
   * the error is caught and nothing is written.
   */
  function SavedSettings(store: Store, key: string, value: Json): (r: Store)
    requires key in SettingNames
    ensures forall k :: k != SettingsKey ==> GetItem(r, k) == GetItem(store, k)
    ensures (StartingSettings(store).None? || !(StartingSettings(store).value.JObj? || StartingSettings(store).value.JArr?)) ==> r == store
  {
    match StartingSettings(store)
    case Some(JObj(ms)) => store[SettingsKey := Stringify(JObj(Put(ms, key, value)))]
    case Some(JArr(items)) => store[SettingsKey := Stringify(JArr(items))]
    case _ => store
  }

  /** `saveSettings(key, value)`: read the entry, change one member, write it back. */
  method SaveSettings(store: Store, key: string, value: Json) returns (r: Store)
    requires key in SettingNames
    ensures r == SavedSettings(store, key, value)
  {
    r := store;
    var current := GetItem(store, SettingsKey);
    var settings: Json;
    if HasText(current) {
      var parsed := Parse(current.value);
      if parsed.None? {
        return;
      }
      settings := parsed.value;
    } else {
      settings := JObj([]);
    }
    if settings.JObj? {
      settings := JObj(Put(settings.members, key, value));
    } else if !settings.JArr? {
      return;
    }
    r := store[SettingsKey := Stringify(settings)];
  }

  /**
   * What `loadSettings` reads: the parsed entry, or `None` when there is no
   * entry, it is empty, it does not parse, or it is `null` (reading a member of
   * `null` throws before any setting is applied, and the error is caught).
   */
  function StoredSettings(store: Store): (r: Option<Json>)
    ensures r.Some? ==> HasText(GetItem(store, SettingsKey)) && Parse(store[SettingsKey]) == r && r != Some(JNull)
    ensures (HasText(GetItem(store, SettingsKey)) && Parse(store[SettingsKey]).Some? && Parse(store[SettingsKey]) != Some(JNull)) ==> r.Some?
  {
    var raw := GetItem(store, SettingsKey);
    if !HasText(raw) then None
    else
      match Parse(raw.value)
      case Some(JNull) => None
      case Some(data) => Some(data)
      case None => None
  }

  /** `data.key ?? default`. */
  function Setting(data: Json, key: string, default: Json): (r: Json)
    ensures Get(data, key).Some? && Get(data, key) != Some(JNull) ==> r == Get(data, key).value
    ensures (Get(data, key).None? || Get(data, key) == Some(JNull)) ==> r == default
  {
    OrIfNullish(Get(data, key), default)
  }

  /**
   * Saving on a stored object sets exactly that member: the entry read back
   * is the object with `key` set to `value`, every other member as it was.
   */
  lemma SaveThenRead(store: Store, ms: seq<Member>, key: string, value: Json, other: string)
    requires key in SettingNames
    requires StartingSettings(store) == Some(JObj(ms))
    requires WellFormed(JObj(ms)) && WellFormed(value)
    ensures StoredSettings(SavedSettings(store, key, value)) == Some(JObj(Put(ms, key, value)))
    ensures WellFormed(JObj(Put(ms, key, value)))
    ensures Get(StoredSettings(SavedSettings(store, key, value)).value, key) == Some(value)
    ensures other != key ==>
              Get(StoredSettings(SavedSettings(store, key, value)).value, other) == Get(JObj(ms), other)
  {
    var obj := JObj(Put(ms, key, value));
    PutWellFormed(ms, key, value);
    ParseStringify(obj);
    StringifyStart(obj);
    PutLookup(ms, key, value, other);
  }

  /** A switch or selection that is saved and then reloaded shows the value saved. */
  lemma SavedSettingReloads(store: Store, ms: seq<Member>, key: string, value: Json, default: Json)
    requires key in SettingNames
    requires StartingSettings(store) == Some(JObj(ms))
    requires WellFormed(JObj(ms)) && WellFormed(value) && value != JNull
    ensures StoredSettings(SavedSettings(store, key, value)).Some?
    ensures Setting(StoredSettings(SavedSettings(store, key, value)).value, key, default) == value
  {
    SaveThenRead(store, ms, key, value, key);
  }

  /** On a device with no settings yet, the first save writes an object with just that member. */
  lemma FirstSave(store: Store, key: string, value: Json)
    requires key in SettingNames
    requires !HasText(GetItem(store, SettingsKey))
    requires WellFormed(value)
    ensures StoredSettings(SavedSettings(store, key, value)) == Some(JObj([Member(key, value)]))
  {
    SaveThenRead(store, [], key, value, key);
  }

  /** Saving one setting and then another keeps both. */
  lemma SavesKeepEachOther(store: Store, ms: seq<Member>, k1: string, v1: Json, k2: string, v2: Json)
    requires k1 in SettingNames && k2 in SettingNames && k1 != k2
    requires StartingSettings(store) == Some(JObj(ms))
    requires WellFormed(JObj(ms)) && WellFormed(v1) && WellFormed(v2)
    ensures StoredSettings(SavedSettings(SavedSettings(store, k1, v1), k2, v2)).Some?
    ensures Get(StoredSettings(SavedSettings(SavedSettings(store, k1, v1), k2, v2)).value, k1) == Some(v1)
    ensures Get(StoredSettings(SavedSettings(SavedSettings(store, k1, v1), k2, v2)).value, k2) == Some(v2)
  {
    var once := SavedSettings(store, k1, v1);
    var ms1 := Put(ms, k1, v1);
    SaveThenRead(store, ms, k1, v1, k2);
    assert StartingSettings(once) == Some(JObj(ms1));
    SaveThenRead(once, ms1, k2, v2, k1);
  }
}
