// Themes over a school's own settings: what activation, upgrade, rollback, deactivation and removal
// do to the six themed fields, and what the school gets back.
module ThemeOverlay {
  import opened Results

  type Id = nat

  datatype Field = Mode | PrimaryColor | SecondaryColor | Font | Radius | CustomCss

  const ALL_FIELDS: seq<Field> := [Mode, PrimaryColor, SecondaryColor, Font, Radius, CustomCss]

  // Values for some of the fields; a theme has all of them.
  type Values = map<Field, string>

  ghost predicate Whole(v: Values) {
    forall f: Field :: f in v
  }

  // The school's settings row: its themed fields, and the rest of it.
  datatype Setting = Setting(fields: Values, rest: string)

  datatype State = Installed | Active | Uninstalled | Other

  datatype Config = Config(
    previousTheme: Option<Values>,
    appliedTheme: Option<Values>,
    schoolOverrides: Option<Values>,
    rollbackVersion: Option<Id>)

  const FRESH := Config(None, None, None, None)

  datatype Theme = Theme(version: Id, state: State, config: Config)

  datatype School = School(setting: Option<Setting>, themes: map<Id, Theme>)

  datatype Failure = NotFound | InvalidState | NoRollbackVersion | NoSettings

  // ---------------------------------------------------------------- overlay

  // The fields that no longer have the theme's value, as the school has them.
  function Overrides(current: Option<Values>, applied: Option<Values>): Values {
    if current.None? || applied.None? then map[]
    else
      map f | f in current.value.Keys && (f !in applied.value || current.value[f] != applied.value[f]) ::
        current.value[f]
  }

  method ThemeOverrides(current: Option<Values>, applied: Option<Values>) returns (overrides: Values)
    requires (current.Some? ==> Whole(current.value)) && (applied.Some? ==> Whole(applied.value))
    ensures overrides == Overrides(current, applied)
  {
    overrides := map[];
    if current.None? || applied.None? {
      return;
    }
    var i := 0;
    while i < |ALL_FIELDS|
      invariant i <= |ALL_FIELDS|
      invariant forall f :: f in overrides <==> f in ALL_FIELDS[..i] && current.value[f] != applied.value[f]
      invariant forall f :: f in overrides ==> overrides[f] == current.value[f]
    {
      var key := ALL_FIELDS[i];
      if current.value[key] != applied.value[key] {
        overrides := overrides[key := current.value[key]];
      }
      i := i + 1;
    }
    assert ALL_FIELDS[..i] == ALL_FIELDS;
    forall f: Field ensures f in ALL_FIELDS { AllFieldsHere(f); }
  }

  lemma AllFieldsHere(f: Field)
    ensures f in ALL_FIELDS
  {
    match f
    case Mode => assert ALL_FIELDS[0] == f;
    case PrimaryColor => assert ALL_FIELDS[1] == f;
    case SecondaryColor => assert ALL_FIELDS[2] == f;
    case Font => assert ALL_FIELDS[3] == f;
    case Radius => assert ALL_FIELDS[4] == f;
    case CustomCss => assert ALL_FIELDS[5] == f;
  }

  function Write(setting: Option<Setting>, values: Values): Setting {
    if setting.None? then Setting(values, "") else Setting(setting.value.fields + values, setting.value.rest)
  }

  function FieldsOf(setting: Option<Setting>): Option<Values> {
    if setting.None? then None else Some(setting.value.fields)
  }

  // ---------------------------------------------------------------- commands

  // Edit is the school's own edit, and with no values the first look at the settings; Suspend is what
  // blocking a version, revoking a key or suspending a publisher does to an enabled installation. Ask is
  // a request, new or again, and Install the installation of what was then approved.
  datatype Command =
    | Edit(values: Values)
    | Activate(i: Id)
    | Deactivate(i: Id)
    | Upgrade(i: Id, to: Id)
    | Rollback(i: Id, target: Option<Id>)
    | Uninstall(i: Id)
    | Suspend(i: Id)
    | Ask(i: Id, newest: Id, paid: bool)
    | Install(i: Id, to: Id)
    | Remove(i: Id)

  // What the database fills in for a row that an edit creates.
  const DEFAULTS: Values := map[
    Mode := "light", PrimaryColor := "#4f46e5", SecondaryColor := "#0284c7", Font := "inter", Radius := "soft",
    CustomCss := ""]

  // The school's fields after its own edit, which never writes the style sheet.
  function Edited(current: Option<Values>, values: Values): Values {
    (if current.None? then DEFAULTS else current.value) + (values - {CustomCss})
  }

  function SetTheme(s: School, i: Id, theme: Theme): School {
    s.(themes := s.themes[i := theme])
  }

  function Restored(s: School, config: Config): Result<School, Failure> {
    if config.previousTheme.None? then Ok(s)
    else if s.setting.None? then Err(NoSettings)
    else Ok(s.(setting := Some(Write(s.setting, config.previousTheme.value))))
  }

  function Upgraded(themeOf: Id -> Values, s: School, i: Id, to: Id): Result<School, Failure>
    requires i in s.themes
  {
    var t := s.themes[i];
    if t.state == Other then Err(InvalidState)
    else if t.version == to then Ok(s)
    else if t.state != Active then Ok(SetTheme(s, i, t.(version := to)))
    else
      var overrides := Overrides(FieldsOf(s.setting), t.config.appliedTheme);
      Ok(School(
        Some(Write(s.setting, themeOf(to) + overrides)),
        s.themes[i := t.(version := to, config := t.config.(
          appliedTheme := Some(themeOf(to)), schoolOverrides := Some(overrides), rollbackVersion := Some(t.version)))]))
  }

  function RolledBack(themeOf: Id -> Values, s: School, i: Id, target: Option<Id>): Result<School, Failure>
    requires i in s.themes
  {
    var t := s.themes[i];
    var to := if target.Some? then target else t.config.rollbackVersion;
    if target == Some(t.version) then Ok(s)
    else if to.None? then Err(NoRollbackVersion)
    else
      var config := t.config.(rollbackVersion := Some(t.version));
      if t.state != Active then Ok(SetTheme(s, i, t.(version := to.value, config := config)))
      else
        var overrides := if config.schoolOverrides.Some? then config.schoolOverrides.value else map[];
        Ok(School(
          Some(Write(s.setting, themeOf(to.value) + overrides)),
          s.themes[i := t.(version := to.value, config := config.(appliedTheme := Some(themeOf(to.value))))]))
  }

  function Exec(themeOf: Id -> Values, s: School, c: Command): Result<School, Failure> {
    match c
    case Edit(values) => Ok(s.(setting := Some(Write(s.setting, Edited(FieldsOf(s.setting), values)))))
    case Activate(i) =>
      if i !in s.themes then Err(NotFound)
      else
        var t := s.themes[i];
        if t.state == Active then Ok(s)
        else if t.state != Installed then Err(InvalidState)
        else
          var config := t.config.(
            previousTheme := FieldsOf(s.setting), appliedTheme := Some(themeOf(t.version)),
                schoolOverrides := Some(map[]));
          Ok(School(Some(Write(s.setting, themeOf(t.version))), s.themes[i := t.(state := Active, config := config)]))
    case Deactivate(i) =>
      if i !in s.themes then Err(NotFound)
      else if s.themes[i].state == Installed then Ok(s)
      else if s.themes[i].state != Active then Err(InvalidState)
      else
        (match Restored(s, s.themes[i].config)
         case Err(e) => Err(e)
         case Ok(r) => Ok(SetTheme(r, i, s.themes[i].(state := Installed))))
    case Upgrade(i, to) => if i !in s.themes then Err(NotFound) else Upgraded(themeOf, s, i, to)
    case Rollback(i, target) => if i !in s.themes then Err(NotFound) else RolledBack(themeOf, s, i, target)
    case Uninstall(i) =>
      if i !in s.themes then Err(NotFound)
      else if s.themes[i].state == Uninstalled then Ok(s)
      else if s.themes[i].state == Other then Err(InvalidState)
      else if s.themes[i].state == Installed then Ok(SetTheme(s, i, s.themes[i].(state := Uninstalled)))
      else
        (match Restored(s, s.themes[i].config)
         case Err(e) => Err(e)
         case Ok(r) => Ok(SetTheme(r, i, s.themes[i].(state := Uninstalled))))
    case Suspend(i) =>
      if i !in s.themes then Err(NotFound)
      else if s.themes[i].state != Active then Ok(s)
      else Ok(SetTheme(s, i, s.themes[i].(state := Installed)))
    case Ask(i, newest, paid) =>
      if i !in s.themes then Ok(SetTheme(s, i, Theme(newest, Other, FRESH)))
      else if s.themes[i].state == Active then Err(InvalidState)
      else
        var t := s.themes[i];
        Ok(SetTheme(s, i, t.(state := Other, version := if paid then newest else t.version)))
    case Install(i, to) =>
      if i !in s.themes then Err(NotFound)
      else if s.themes[i].state == Installed && s.themes[i].version == to then Ok(s)
      else if s.themes[i].state != Other then Err(InvalidState)
      else Ok(SetTheme(s, i, s.themes[i].(state := Installed, version := to)))
    case Remove(i) =>
      if i !in s.themes then Err(NotFound)
      else if s.themes[i].state != Uninstalled then Err(InvalidState)
      else Ok(s.(themes := s.themes - {i}))
  }

  function Next(themeOf: Id -> Values, s: School, c: Command): School {
    match Exec(themeOf, s, c)
    case Ok(next) => next
    case Err(_) => s
  }

  function Run(themeOf: Id -> Values, s: School, cs: seq<Command>): School
    decreases |cs|
  {
    if cs == [] then s else Run(themeOf, Next(themeOf, s, cs[0]), cs[1..])
  }

  // ---------------------------------------------------------------- the service

  class ThemeService {
    var setting: Option<Setting>
    var themes: map<Id, Theme>

    constructor (school: School)
      ensures Contents() == school
    {
      setting, themes := school.setting, school.themes;
    }

    function Contents(): School
      reads this
    {
      School(setting, themes)
    }

    // Upserts the settings row with the theme and what the school has changed.
    method ApplyThemeVersion(theme: Values, overrides: Values)
      modifies this`setting
      ensures setting == Some(Write(old(setting), theme + overrides))
    {
      var merged := theme + overrides;
      if setting.None? {
        setting := Some(Setting(merged, ""));
      } else {
        setting := Some(Setting(setting.value.fields + merged, setting.value.rest));
      }
    }

    // Activation keeps what the settings held, if there were any; deactivation writes it back.
    method ActivateTheme(themeOf: Id -> Values, i: Id, enabled: bool) returns (r: Result<(), Failure>)
      modifies this
      ensures match Exec(themeOf, old(Contents()), if enabled then Activate(i) else Deactivate(i)) {
                case Err(e) => r == Err(e) && Contents() == old(Contents())
                case Ok(next) => r.Ok? && Contents() == next
              }
    {
      if i !in themes {
        return Err(NotFound);
      }
      var t := themes[i];
      r := Ok(());
      if t.state == (if enabled then Active else Installed) {
        return;
      }
      if t.state != (if enabled then Installed else Active) {
        return Err(InvalidState);
      }
      var config := t.config;
      if enabled {
        config := config.(previousTheme := FieldsOf(setting), appliedTheme := Some(themeOf(t.version)),
            schoolOverrides := Some(map[]));
        setting := Some(Write(setting, themeOf(t.version)));
      } else {
        r := GiveBack(config);
        if r.Err? {
          return;
        }
      }
      themes := themes[i := t.(state := if enabled then Active else Installed, config := config)];
    }

    // An update of a settings row that is not there fails.
    method GiveBack(config: Config) returns (r: Result<(), Failure>)
      modifies this`setting
      ensures match Restored(old(Contents()), config) {
                case Err(e) => r == Err(e) && setting == old(setting)
                case Ok(next) => r.Ok? && Contents() == next
              }
    {
      r := Ok(());
      if config.previousTheme.Some? {
        if setting.None? {
          return Err(NoSettings);
        }
        setting := Some(Write(setting, config.previousTheme.value));
      }
    }

    // Removal gives the settings back only when the theme is still enabled.
    method UninstallTheme(themeOf: Id -> Values, i: Id) returns (r: Result<(), Failure>)
      modifies this
      ensures match Exec(themeOf, old(Contents()), Uninstall(i)) {
                case Err(e) => r == Err(e) && Contents() == old(Contents())
                case Ok(next) => r.Ok? && Contents() == next
              }
    {
      if i !in themes {
        return Err(NotFound);
      }
      var t := themes[i];
      r := Ok(());
      if t.state == Uninstalled {
        return;
      }
      if t.state !in {Installed, Active} {
        return Err(InvalidState);
      }
      if t.state == Active {
        r := GiveBack(t.config);
        if r.Err? {
          return;
        }
      }
      themes := themes[i := t.(state := Uninstalled)];
    }

    method UpgradeTheme(themeOf: Id -> Values, i: Id, to: Id) returns (r: Result<(), Failure>)
      requires setting.Some? ==> Whole(setting.value.fields)
      requires forall k :: k in themes && themes[k].config.appliedTheme.Some? ==>
        Whole(themes[k].config.appliedTheme.value)
      modifies this
      ensures match Exec(themeOf, old(Contents()), Upgrade(i, to)) {
                case Err(e) => r == Err(e) && Contents() == old(Contents())
                case Ok(next) => r.Ok? && Contents() == next
              }
    {
      if i !in themes {
        return Err(NotFound);
      }
      var t := themes[i];
      if t.state == Other {
        return Err(InvalidState);
      }
      r := Ok(());
      if t.version == to {
        return;
      }
      var config := t.config;
      if t.state == Active {
        var overrides := ThemeOverrides(FieldsOf(setting), config.appliedTheme);
        ApplyThemeVersion(themeOf(to), overrides);
        config := config.(appliedTheme := Some(themeOf(to)), schoolOverrides := Some(overrides),
            rollbackVersion := Some(t.version));
      }
      themes := themes[i := t.(version := to, config := config)];
    }

    method RollbackTheme(themeOf: Id -> Values, i: Id, target: Option<Id>) returns (r: Result<(), Failure>)
      modifies this
      ensures match Exec(themeOf, old(Contents()), Rollback(i, target)) {
                case Err(e) => r == Err(e) && Contents() == old(Contents())
                case Ok(next) => r.Ok? && Contents() == next
              }
    {
      if i !in themes {
        return Err(NotFound);
      }
      var t := themes[i];
      if target == Some(t.version) {
        return Ok(());
      }
      var to := if target.Some? then target else t.config.rollbackVersion;
      if to.None? {
        return Err(NoRollbackVersion);
      }
      var config := t.config.(rollbackVersion := Some(t.version));
      if t.state == Active {
        ApplyThemeVersion(themeOf(to.value), if config.schoolOverrides.Some? then config.schoolOverrides.value
          else map[]);
        config := config.(appliedTheme := Some(themeOf(to.value)));
      }
      themes := themes[i := t.(version := to.value, config := config)];
      r := Ok(());
    }
  }

  // ---------------------------------------------------------------- upgrade and rollback

  ghost predicate ThemesWhole(themeOf: Id -> Values) {
    forall v {:trigger themeOf(v)} :: Whole(themeOf(v))
  }

  // An upgrade keeps each field that the school has changed and takes the new theme for the rest.
  lemma UpgradeKeepsChanges(themeOf: Id -> Values, s: School, i: Id, to: Id, f: Field)
    requires ThemesWhole(themeOf) && i in s.themes && s.themes[i].state == Active && s.themes[i].version != to
    requires s.setting.Some? && Whole(s.setting.value.fields)
    requires s.themes[i].config.appliedTheme.Some? && Whole(s.themes[i].config.appliedTheme.value)
    ensures var after := Next(themeOf, s, Upgrade(i, to)).setting;
      var (current, applied) := (s.setting.value.fields, s.themes[i].config.appliedTheme.value);
      && after.Some? && f in after.value.fields && after.value.rest == s.setting.value.rest
      && after.value.fields[f] == if current[f] != applied[f] then current[f] else themeOf(to)[f]
  {
  }

  // A rollback right after an upgrade gives the school back every field as it was.
  lemma RollbackUndoesUpgrade(themeOf: Id -> Values, s: School, i: Id, to: Id, target: Option<Id>)
    requires ThemesWhole(themeOf) && i in s.themes && s.themes[i].state == Active && s.themes[i].version != to
    requires s.setting.Some? && Whole(s.setting.value.fields)
    requires s.themes[i].config.appliedTheme == Some(themeOf(s.themes[i].version))
    requires target in {None, Some(s.themes[i].version)}
    ensures var after := Next(themeOf, Next(themeOf, s, Upgrade(i, to)), Rollback(i, target));
      && after.setting == s.setting
      && i in after.themes && after.themes[i].version == s.themes[i].version
      && after.themes[i].config.appliedTheme == s.themes[i].config.appliedTheme
  {
    var (theme, current) := (themeOf(s.themes[i].version), s.setting.value.fields);
    var overrides := Overrides(Some(current), Some(theme));
    OverlayGivesBack(current, theme, current + (themeOf(to) + overrides));
  }

  lemma OverlayGivesBack(current: Values, theme: Values, between: Values)
    requires Whole(current) && Whole(theme)
    ensures between + (theme + Overrides(Some(current), Some(theme))) == current
  {
  }
}
