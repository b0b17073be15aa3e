// What each theme command does to the settings and to the installation of a theme, and when it is
// refused.
module ThemeLaws {
  import opened Results
  import opened ThemeOverlay

  // An edit changes the fields it names, but never the style sheet, and makes a row with the defaults
  // where there is none.
  lemma EditLaw(themeOf: Id -> Values, s: School, values: Values, f: Field)
    requires s.setting.Some? ==> Whole(s.setting.value.fields)
    ensures Exec(themeOf, s, Edit(values)).Ok?
    ensures var after := Exec(themeOf, s, Edit(values)).value;
      && after.themes == s.themes && after.setting.Some? && f in after.setting.value.fields
      && (s.setting.Some? ==> after.setting.value.rest == s.setting.value.rest)
      && after.setting.value.fields[f] ==
           if f != CustomCss && f in values then values[f]
           else if s.setting.Some? then s.setting.value.fields[f]
           else match f
             case Mode => "light"
             case PrimaryColor => "#4f46e5"
             case SecondaryColor => "#0284c7"
             case Font => "inter"
             case Radius => "soft"
             case CustomCss => ""
  {
    match f
    case _ =>
  }

  // Every command on a theme but a request needs its installation.
  lemma NeedsInstallation(themeOf: Id -> Values, s: School, c: Command)
    requires !c.Edit? && !c.Ask? && c.i !in s.themes
    ensures Exec(themeOf, s, c) == Err(NotFound)
  {
  }

  // The other themes are never touched.
  lemma OthersStay(themeOf: Id -> Values, s: School, c: Command, j: Id)
    requires !c.Edit? && c.i != j
    ensures var after := Next(themeOf, s, c);
      (j in after.themes <==> j in s.themes) && (j in s.themes ==> after.themes[j] == s.themes[j])
  {
  }

  // The settings with a theme's values over them.
  function Over(setting: Option<Setting>, values: Values): Setting {
    match setting
    case Some(row) => Setting(row.fields + values, row.rest)
    case None => Setting(values, "")
  }

  // Activation takes an installed theme: it puts aside what the settings hold, writes the theme over
  // them and remembers what it has applied.
  lemma ActivateLaw(themeOf: Id -> Values, s: School, i: Id)
    requires i in s.themes
    ensures var (r, t) := (Exec(themeOf, s, Activate(i)), s.themes[i]);
      match t.state
      case Active => r == Ok(s)
      case Uninstalled => r == Err(InvalidState)
      case Other => r == Err(InvalidState)
      case Installed =>
        var values := themeOf(t.version);
        r == Ok(School(Some(Over(s.setting, values)), s.themes[i := Theme(t.version, Active, Config(
          if s.setting.Some? then Some(s.setting.value.fields) else None, Some(values), Some(map[]),
          t.config.rollbackVersion))]))
  {
  }

  // What an active theme put aside is written back when it is deactivated or uninstalled; without
  // settings to write to that fails, and with nothing put aside they stay.
  lemma StopLaw(themeOf: Id -> Values, s: School, i: Id, c: Command)
    requires i in s.themes && c in {Deactivate(i), Uninstall(i)}
    ensures var (r, t) := (Exec(themeOf, s, c), s.themes[i]);
      var stopped := if c == Deactivate(i) then Installed else Uninstalled;
      match t.state
      case Active =>
        if t.config.previousTheme == None
        then r == Ok(School(s.setting, s.themes[i := Theme(t.version, stopped, t.config)]))
        else if s.setting == None then r == Err(NoSettings)
        else r == Ok(School(Some(Over(s.setting, t.config.previousTheme.value)),
          s.themes[i := Theme(t.version, stopped, t.config)]))
      case Installed =>
        r == Ok(School(s.setting, if c == Deactivate(i) then s.themes
          else s.themes[i := Theme(t.version, Uninstalled, t.config)]))
      case Uninstalled => r == if c == Deactivate(i) then Err(InvalidState) else Ok(s)
      case Other => r == Err(InvalidState)
  {
    if s.themes[i].state == Installed && c == Deactivate(i) {
      assert School(s.setting, s.themes) == s;
    }
  }

  // A suspension takes an active theme back to installed, whatever the settings hold.
  lemma SuspendLaw(themeOf: Id -> Values, s: School, i: Id)
    requires i in s.themes
    ensures var t := s.themes[i];
      Exec(themeOf, s, Suspend(i)) == Ok(School(s.setting,
        if t.state == Active then s.themes[i := Theme(t.version, Installed, t.config)] else s.themes))
  {
  }

  // The changed fields of an active theme are kept over the new one, and remembered.
  lemma UpgradeLaw(themeOf: Id -> Values, s: School, i: Id, to: Id)
    requires i in s.themes && s.setting.Some? && Whole(s.setting.value.fields)
    requires s.themes[i].config.appliedTheme.Some? && Whole(s.themes[i].config.appliedTheme.value)
    ensures var (r, t) := (Exec(themeOf, s, Upgrade(i, to)), s.themes[i]);
      var (current, applied) := (s.setting.value.fields, t.config.appliedTheme.value);
      var changed := map f: Field | f in current && current[f] != applied[f] :: current[f];
      if t.state == Other then r == Err(InvalidState)
      else if t.version == to then r == Ok(s)
      else if t.state != Active then r == Ok(School(s.setting, s.themes[i := Theme(to, t.state, t.config)]))
      else r == Ok(School(Some(Over(s.setting, themeOf(to) + changed)), s.themes[i := Theme(to, Active, Config(
        t.config.previousTheme, Some(themeOf(to)), Some(changed), Some(t.version)))]))
  {
    var (current, applied) := (s.setting.value.fields, s.themes[i].config.appliedTheme.value);
    assert Overrides(Some(current), Some(applied)) ==
      map f: Field | f in current && current[f] != applied[f] :: current[f];
  }

  // A rollback goes to its target or to the remembered version, under the changes remembered.
  lemma RollbackLaw(themeOf: Id -> Values, s: School, i: Id, target: Option<Id>)
    requires i in s.themes
    ensures var (r, t) := (Exec(themeOf, s, Rollback(i, target)), s.themes[i]);
      var to := if target.Some? then target else t.config.rollbackVersion;
      var changed := if t.config.schoolOverrides.Some? then t.config.schoolOverrides.value else map[];
      if target == Some(t.version) then r == Ok(s)
      else if to == None then r == Err(NoRollbackVersion)
      else if t.state != Active then r == Ok(School(s.setting, s.themes[i := Theme(to.value, t.state, Config(
        t.config.previousTheme, t.config.appliedTheme, t.config.schoolOverrides, Some(t.version)))]))
      else r == Ok(School(Some(Over(s.setting, themeOf(to.value) + changed)), s.themes[i := Theme(to.value, Active,
        Config(t.config.previousTheme, Some(themeOf(to.value)), t.config.schoolOverrides, Some(t.version)))]))
  {
  }

  // Requests, installations and removals leave the settings alone.
  lemma InstallationLaw(themeOf: Id -> Values, s: School, i: Id, version: Id, paid: bool)
    ensures var r := Exec(themeOf, s, Ask(i, version, paid));
      if i !in s.themes
      then r == Ok(School(s.setting, s.themes[i := Theme(version, Other, Config(None, None, None, None))]))
      else if s.themes[i].state == Active then r == Err(InvalidState)
      else r == Ok(School(s.setting, s.themes[
        i := Theme(if paid then version else s.themes[i].version, Other, s.themes[i].config)]))
    ensures i in s.themes ==>
      var (r, t) := (Exec(themeOf, s, Install(i, version)), s.themes[i]);
      if t.state == Other then r == Ok(School(s.setting, s.themes[i := Theme(version, Installed, t.config)]))
      else if t.state == Installed && t.version == version then r == Ok(s)
      else r == Err(InvalidState)
    ensures i in s.themes ==>
      Exec(themeOf, s, Remove(i)) ==
        if s.themes[i].state == Uninstalled then Ok(School(s.setting, s.themes - {i})) else Err(InvalidState)
  {
  }
}
