/** The colour-theme selection (theme.js): the theme name kept in the
    browser's local storage under `revy-theme`, and the page's `data-theme`
    attribute, which is absent for the default theme. The colour tables
    themselves are not modelled, only their names. */
module Theme {

  import opened Wrappers

  /** `Object.keys(THEMES)`, in declaration order. */
  const ValidThemes: seq<string> :=
    ["midnight", "arctic", "bluebird", "powder", "alpine", "glacier", "whiteout", "sunset", "evergreen"]

  /** The theme shown when none is chosen: it has no `data-theme`. */
  const DefaultTheme := "midnight"

  const StorageKey := "revy-theme"

  /** What the user endpoint gave `syncThemeFromServer`: nothing (no token,
      a failed request or an unreadable body), or a document whose `theme`
      property is the given string or absent. */
  datatype ServerConfig = Unavailable | Config(theme: Option<string>)

  /** `config.theme || 'midnight'`. */
  function ServerTheme(theme: Option<string>): (r: string)
    ensures theme.Some? && theme.value != "" ==> r == theme.value
    ensures theme.None? || theme.value == "" ==> r == DefaultTheme
  {
    if theme.Some? && theme.value != "" then theme.value else DefaultTheme
  }

  class ThemeState {
    /** `localStorage.getItem('revy-theme')`: any string may be stored. */
    var stored: Option<string>
    /** The `data-theme` attribute of the document element. */
    var dataTheme: Option<string>

    /** Only a valid theme other than the default is ever shown through
        `data-theme`. */
    ghost predicate Valid()
      reads this
    {
      dataTheme.Some? ==> dataTheme.value in ValidThemes && dataTheme.value != DefaultTheme
    }

    /** A fresh browser: nothing stored, no attribute. */
    constructor ()
      ensures Valid() && stored == None && dataTheme == None
    {
      stored := None;
      dataTheme := None;
    }

    /** `getStoredTheme`: the stored name when it is a known theme, else null. */
    function StoredTheme(): (r: Option<string>)
      reads this
      ensures r.Some? <==> stored.Some? && stored.value in ValidThemes
      ensures r.Some? ==> r == stored
    {
      if stored.Some? && stored.value in ValidThemes then stored else None
    }

    /** `getStoredTheme() || 'midnight'`: the theme in effect. */
    function EffectiveTheme(): (r: string)
      reads this
      ensures r in ValidThemes
      ensures r == DefaultTheme || Some(r) == stored
    {
      StoredTheme().GetOr(DefaultTheme)
    }

    /** The attribute shows the theme in effect. */
    ghost predicate Shown()
      reads this
    {
      dataTheme == if EffectiveTheme() == DefaultTheme then None else Some(EffectiveTheme())
    }

    /** `applyTheme(name)`: null, empty or the default removes the attribute,
        another known theme sets it, an unknown name leaves it alone. */
    method ApplyTheme(name: Option<string>)
      modifies this
      ensures name.None? || name.value == "" || name.value == DefaultTheme ==> dataTheme == None
      ensures name.Some? && name.value != "" && name.value != DefaultTheme && name.value in ValidThemes ==>
        dataTheme == name
      ensures name.Some? && name.value !in ValidThemes && name.value != "" ==> dataTheme == old(dataTheme)
      ensures stored == old(stored)
      ensures old(Valid()) ==> Valid()
    {
      if name.None? || name.value == "" || name.value == DefaultTheme {
        dataTheme := None;
      } else if name.value in ValidThemes {
        dataTheme := name;
      }
    }

    /** The script's first statement on page load: `applyTheme(getStoredTheme())`. */
    method ApplyStoredTheme()
      modifies this
      ensures Valid() && Shown()
      ensures stored == old(stored)
    {
      ApplyTheme(StoredTheme());
    }

    /** `setTheme(name)`: shows the name if it is known and stores it in any
        case; an unknown name stored this way later reads back as null. */
    method SetTheme(name: string)
      modifies this
      ensures stored == Some(name)
      ensures StoredTheme() == if name in ValidThemes then Some(name) else None
      ensures name == "" || name == DefaultTheme ==> dataTheme == None
      ensures name in ValidThemes ==> Shown()
      ensures name !in ValidThemes && name != "" ==> dataTheme == old(dataTheme)
      ensures old(Valid()) ==> Valid()
    {
      ApplyTheme(Some(name));
      stored := Some(name);
    }

    /** `clearTheme`: back to the default, with nothing stored. */
    method ClearTheme()
      modifies this
      ensures stored == None && dataTheme == None
      ensures Valid() && Shown() && EffectiveTheme() == DefaultTheme
    {
      stored := None;
      dataTheme := None;
    }

    /** The decision in `syncThemeFromServer`: the server's theme (default
        when absent) is applied and stored when it differs from the theme
        in effect locally, and nothing happens otherwise. */
    method SyncThemeFromServer(config: ServerConfig)
      modifies this
      ensures config.Unavailable? ==> stored == old(stored) && dataTheme == old(dataTheme)
      ensures config.Config? && ServerTheme(config.theme) == old(EffectiveTheme()) ==>
        stored == old(stored) && dataTheme == old(dataTheme)
      ensures config.Config? && ServerTheme(config.theme) != old(EffectiveTheme()) ==>
        stored == Some(ServerTheme(config.theme))
      ensures config.Config? && ServerTheme(config.theme) in ValidThemes ==>
        EffectiveTheme() == ServerTheme(config.theme)
      ensures old(Valid()) ==> Valid()
      ensures old(Shown()) && config.Config? && ServerTheme(config.theme) in ValidThemes ==> Shown()
    {
      if config.Unavailable? {
        return;
      }
      var serverTheme := ServerTheme(config.theme);
      var localTheme := EffectiveTheme();
      if serverTheme != localTheme {
        SetTheme(serverTheme);
      }
    }
  }
}
