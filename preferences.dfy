/**
 * The settings page reached from the Home screen: three switches
 * (notifications, daily reminder, posting anonymously), each saved to the
 * shared settings entry as it changes, and the button that clears all data.
 */
module Preferences {
  import opened Wrappers
  import opened Json
  import opened Storage
  import opened AppSettings

  const Default := JBool(true)

  class SettingsScreen {
    var store: Store
    var notifications: Json
    var dailyReminder: Json
    var anonymous: Json

    /** The screen before `loadSettings` runs: every switch on. */
    constructor(store0: Store)
      ensures store == store0
      ensures notifications == Default && dailyReminder == Default && anonymous == Default
    {
      store := store0;
      notifications := Default;
      dailyReminder := Default;
      anonymous := Default;
    }

    /**
     * `loadSettings`: with a stored entry each switch takes its member, `true`
     * where the member is missing or `null`; without one nothing changes.
     */
    method LoadSettings()
      modifies this
      ensures store == old(store)
      ensures StoredSettings(store).None? ==>
                notifications == old(notifications) && dailyReminder == old(dailyReminder) && anonymous == old(anonymous)
      ensures StoredSettings(store).Some? ==>
                var data := StoredSettings(store).value;
                notifications == Setting(data, "notifications", Default) &&
                dailyReminder == Setting(data, "dailyReminder", Default) &&
                anonymous == Setting(data, "anonymous", Default)
    {
      var raw := GetItem(store, SettingsKey);
      if HasText(raw) {
        var parsed := Parse(raw.value);
        if parsed.Some? && parsed.value != JNull {
          var data := parsed.value;
          notifications := Setting(data, "notifications", Default);
          dailyReminder := Setting(data, "dailyReminder", Default);
          anonymous := Setting(data, "anonymous", Default);
        }
      }
    }

    /** The notifications switch: show the new value and save it. */
    method SetNotifications(value: bool)
      modifies this
      ensures notifications == JBool(value)
      ensures store == SavedSettings(old(store), "notifications", JBool(value))
      ensures dailyReminder == old(dailyReminder) && anonymous == old(anonymous)
    {
      notifications := JBool(value);
      store := SaveSettings(store, "notifications", JBool(value));
    }

    /** The daily reminder switch. */
    method SetDailyReminder(value: bool)
      modifies this
      ensures dailyReminder == JBool(value)
      ensures store == SavedSettings(old(store), "dailyReminder", JBool(value))
      ensures notifications == old(notifications) && anonymous == old(anonymous)
    {
      dailyReminder := JBool(value);
      store := SaveSettings(store, "dailyReminder", JBool(value));
    }

    /** The post-anonymously switch. */
    method SetAnonymous(value: bool)
      modifies this
      ensures anonymous == JBool(value)
      ensures store == SavedSettings(old(store), "anonymous", JBool(value))
      ensures notifications == old(notifications) && dailyReminder == old(dailyReminder)
    {
      anonymous := JBool(value);
      store := SaveSettings(store, "anonymous", JBool(value));
    }

    /**
     * Confirming "Clear": every stored key is removed, then `loadSettings` runs
     * on the empty store and leaves the switches as they were shown.
     */
    method ClearData()
      modifies this
      ensures store == map[]
      ensures notifications == old(notifications) && dailyReminder == old(dailyReminder) && anonymous == old(anonymous)
    {
      store := map[];
      LoadSettings();
    }
  }
}
