// Themes over whole runs: what a school gets back when the last theme stops, exactly, with themes that
// overlap and themes that are suspended.
module ThemeRuns {
  import opened Results
  import opened ThemeOverlay

  predicate IsActive(s: School, i: Id) {
    i in s.themes && s.themes[i].state == Active
  }

  ghost predicate NoneActive(s: School) {
    forall i :: !IsActive(s, i)
  }

  // Every reachable school: settings are whole, and so is what themes have put aside; an active theme
  // has left a settings row behind.
  ghost predicate Proper(s: School) {
    && (s.setting.Some? ==> Whole(s.setting.value.fields))
    && (forall i :: i in s.themes && s.themes[i].config.previousTheme.Some? ==>
      Whole(s.themes[i].config.previousTheme.value))
    && (forall i :: IsActive(s, i) ==> s.setting.Some?)
  }

  lemma DefaultsAreWhole()
    ensures Whole(DEFAULTS)
  {
    forall f: Field ensures f in DEFAULTS {
      match f
      case Mode =>
      case PrimaryColor =>
      case SecondaryColor =>
      case Font =>
      case Radius =>
      case CustomCss =>
    }
  }

  lemma StepSettings(themeOf: Id -> Values, s: School, c: Command)
    requires ThemesWhole(themeOf) && Proper(s)
    ensures var next := Next(themeOf, s, c).setting;
      (s.setting.Some? ==> next.Some?) && (next.Some? ==> Whole(next.value.fields))
  {
    DefaultsAreWhole();
  }

  lemma StepPutAside(themeOf: Id -> Values, s: School, c: Command, j: Id)
    requires j in Next(themeOf, s, c).themes
    ensures var previous := Next(themeOf, s, c).themes[j].config.previousTheme;
      || previous in {None, FieldsOf(s.setting)}
      || (j in s.themes && previous == s.themes[j].config.previousTheme)
    ensures IsActive(Next(themeOf, s, c), j) ==> IsActive(s, j) || c == Activate(j)
  {
  }

  lemma StepProper(themeOf: Id -> Values, s: School, c: Command)
    requires ThemesWhole(themeOf) && Proper(s)
    ensures Proper(Next(themeOf, s, c))
  {
    var next := Next(themeOf, s, c);
    StepSettings(themeOf, s, c);
    forall j | j in next.themes
      ensures next.themes[j].config.previousTheme.Some? ==> Whole(next.themes[j].config.previousTheme.value)
      ensures IsActive(next, j) ==> next.setting.Some?
    {
      StepPutAside(themeOf, s, c, j);
      if c == Activate(j) && IsActive(next, j) {
        Started(themeOf, s, j);
      }
    }
  }

  lemma Started(themeOf: Id -> Values, s: School, i: Id)
    requires IsActive(Next(themeOf, s, Activate(i)), i)
    ensures IsActive(s, i) || Next(themeOf, s, Activate(i)).setting.Some?
  {
  }

  // ---------------------------------------------------------------- what a theme gives back

  predicate Stops(c: Command, i: Id) {
    c in {Deactivate(i), Uninstall(i), Suspend(i)}
  }

  ghost predicate NeverStopped(i: Id, cs: seq<Command>) {
    forall k :: 0 <= k < |cs| ==> !Stops(cs[k], i)
  }

  lemma StepKeepsStart(themeOf: Id -> Values, s: School, i: Id, c: Command)
    requires IsActive(s, i) && !Stops(c, i)
    ensures var next := Next(themeOf, s, c);
      IsActive(next, i) && next.themes[i].config.previousTheme == s.themes[i].config.previousTheme
  {
  }

  lemma {:induction false} RunKeepsStart(themeOf: Id -> Values, s: School, i: Id, cs: seq<Command>)
    requires IsActive(s, i) && NeverStopped(i, cs)
    ensures var after := Run(themeOf, s, cs);
      IsActive(after, i) && after.themes[i].config.previousTheme == s.themes[i].config.previousTheme
    decreases |cs|
  {
    if cs != [] {
      assert !Stops(cs[0], i);
      StepKeepsStart(themeOf, s, i, cs[0]);
      RunKeepsStart(themeOf, Next(themeOf, s, cs[0]), i, cs[1..]);
    }
  }

  lemma {:induction false} RunProper(themeOf: Id -> Values, s: School, cs: seq<Command>)
    requires ThemesWhole(themeOf) && Proper(s)
    ensures Proper(Run(themeOf, s, cs))
    decreases |cs|
  {
    if cs != [] {
      StepProper(themeOf, s, cs[0]);
      RunProper(themeOf, Next(themeOf, s, cs[0]), cs[1..]);
    }
  }

  // Whatever happens while a theme is active, to it, to the settings and to other themes: when it is
  // deactivated or uninstalled, the fields are what they were when it was started. It leaves them as
  // they are when there was no settings row then.
  lemma StopGivesBackStart(themeOf: Id -> Values, s: School, i: Id, cs: seq<Command>, stop: Command)
    requires ThemesWhole(themeOf) && Proper(s) && i in s.themes && s.themes[i].state == Installed
    requires NeverStopped(i, cs) && stop in {Deactivate(i), Uninstall(i)}
    ensures var before := Run(themeOf, Next(themeOf, s, Activate(i)), cs);
      var after := Next(themeOf, before, stop);
      && IsActive(before, i) && !IsActive(after, i)
      && FieldsOf(after.setting) == if s.setting.Some? then FieldsOf(s.setting) else FieldsOf(before.setting)
  {
    var started := Next(themeOf, s, Activate(i));
    StepProper(themeOf, s, Activate(i));
    RunKeepsStart(themeOf, started, i, cs);
    RunProper(themeOf, started, cs);
    var before := Run(themeOf, started, cs);
    assert before.themes[i].config.previousTheme == FieldsOf(s.setting);
    if s.setting.Some? {
      assert before.setting.value.fields + s.setting.value.fields == s.setting.value.fields;
    }
  }

  // Activating and deactivating gives the settings back exactly when there were any: a school without
  // a settings row is left with the theme's.
  lemma GivesBackIff(themeOf: Id -> Values, s: School, i: Id)
    requires ThemesWhole(themeOf) && i in s.themes && s.themes[i].state == Installed
    requires s.setting.Some? ==> Whole(s.setting.value.fields)
    ensures Next(themeOf, Next(themeOf, s, Activate(i)), Deactivate(i)).setting == s.setting <==> s.setting.Some?
  {
    if s.setting.Some? {
      var fields := s.setting.value.fields;
      assert fields + themeOf(s.themes[i].version) + fields == fields;
    }
  }

  // Two themes, started one after the other and stopped in either order.
  function Overlapped(themeOf: Id -> Values, s: School, i: Id, j: Id, last: Id): School {
    var both := Next(themeOf, Next(themeOf, s, Activate(i)), Activate(j));
    if last == i then Next(themeOf, Next(themeOf, both, Deactivate(j)), Deactivate(i))
    else Next(themeOf, Next(themeOf, both, Deactivate(i)), Deactivate(j))
  }

  // The one stopped last decides: the school gets its own fields back exactly when that is the one that
  // was started first, or the first theme's fields are the school's own.
  lemma OverlapGivesBackIff(themeOf: Id -> Values, s: School, i: Id, j: Id, last: Id)
    requires ThemesWhole(themeOf) && Proper(s) && s.setting.Some? && i != j && last in {i, j}
    requires i in s.themes && j in s.themes && s.themes[i].state == Installed && s.themes[j].state == Installed
    ensures var (own, theme) := (FieldsOf(s.setting), themeOf(s.themes[i].version));
      var fields := FieldsOf(Overlapped(themeOf, s, i, j, last).setting);
      && fields == (if last == i then own else Some(theme))
      && (fields == own <==> last == i || Some(theme) == own)
  {
    var s1 := Next(themeOf, s, Activate(i));
    StepProper(themeOf, s, Activate(i));
    assert s.setting.value.fields + themeOf(s.themes[i].version) == themeOf(s.themes[i].version);
    if last == i {
      TwoSteps(themeOf, s1, Activate(j), Deactivate(j));
      StopGivesBackStart(themeOf, s, i, [Activate(j), Deactivate(j)], Deactivate(i));
    } else {
      OneStep(themeOf, Next(themeOf, s1, Activate(j)), Deactivate(i));
      StopGivesBackStart(themeOf, s1, j, [Deactivate(i)], Deactivate(j));
    }
  }

  lemma OneStep(themeOf: Id -> Values, s: School, c: Command)
    ensures Run(themeOf, s, [c]) == Next(themeOf, s, c)
  {
    assert [c][1..] == [];
  }

  lemma TwoSteps(themeOf: Id -> Values, s: School, c: Command, d: Command)
    ensures Run(themeOf, s, [c, d]) == Next(themeOf, Next(themeOf, s, c), d)
  {
    assert [c, d][1..] == [d];
    OneStep(themeOf, Next(themeOf, s, c), d);
  }

  // ---------------------------------------------------------------- a suspended theme

  // A theme that is suspended leaves its fields in the settings, and stopping it afterwards gives
  // nothing back.
  lemma SuspensionLeavesTheme(themeOf: Id -> Values, s: School, i: Id, stop: Command)
    requires ThemesWhole(themeOf) && Proper(s) && NoneActive(s)
    requires i in s.themes && s.themes[i].state == Installed && stop in {Deactivate(i), Uninstall(i)}
    ensures var after := Next(themeOf, Next(themeOf, s, Activate(i)), Suspend(i));
      && NoneActive(after)
      && FieldsOf(after.setting) == Some(themeOf(s.themes[i].version))
      && Next(themeOf, after, stop).setting == after.setting
  {
    var started := Next(themeOf, s, Activate(i));
    forall j ensures !IsActive(Next(themeOf, started, Suspend(i)), j) {
      assert IsActive(started, j) ==> j == i || IsActive(s, j);
    }
    if s.setting.Some? {
      assert s.setting.value.fields + themeOf(s.themes[i].version) == themeOf(s.themes[i].version);
    }
  }

  ghost predicate OnlyEdits(cs: seq<Command>) {
    forall k :: 0 <= k < |cs| ==> cs[k].Edit?
  }

  // No edit of the school's ever takes away a style sheet that a theme has left.
  lemma {:induction false} StyleSheetStays(themeOf: Id -> Values, s: School, cs: seq<Command>)
    requires Proper(s) && s.setting.Some? && OnlyEdits(cs)
    ensures var after := Run(themeOf, s, cs).setting;
      after.Some? && CustomCss in after.value.fields &&
      after.value.fields[CustomCss] == s.setting.value.fields[CustomCss]
    decreases |cs|
  {
    if cs != [] {
      assert cs[0].Edit?;
      var next := Next(themeOf, s, cs[0]);
      assert forall j :: IsActive(next, j) ==> IsActive(s, j);
      StyleSheetStays(themeOf, next, cs[1..]);
    }
  }

  // ---------------------------------------------------------------- the school's own fields

  // What the school has edited itself while no theme was active.
  ghost function OwnNext(s: School, own: Option<Values>, c: Command): Option<Values> {
    if c.Edit? && NoneActive(s) then Some(Edited(own, c.values)) else own
  }

  ghost function OwnFields(themeOf: Id -> Values, s: School, own: Option<Values>, cs: seq<Command>): Option<Values>
    decreases |cs|
  {
    if cs == [] then own
    else OwnFields(themeOf, Next(themeOf, s, cs[0]), OwnNext(s, own, cs[0]), cs[1..])
  }

  // Whenever no theme is active, the settings have the school's own fields.
  ghost predicate Kept(s: School, own: Option<Values>) {
    NoneActive(s) ==> FieldsOf(s.setting) == own
  }

  ghost predicate IsLastStop(s: School, c: Command) {
    (c.Deactivate? || c.Uninstall? || c.Suspend?) && IsActive(s, c.i) && forall j :: IsActive(s, j) ==> j == c.i
  }

  // A stop gives the fields back when the theme was started over them; a suspension, and a theme that
  // was started without a settings row, when the settings have them already.
  ghost predicate GivesBack(s: School, own: Option<Values>, c: Command) {
    IsLastStop(s, c) ==>
      if c.Suspend? || s.themes[c.i].config.previousTheme == None then FieldsOf(s.setting) == own
      else s.themes[c.i].config.previousTheme == own
  }

  lemma StepKeptIff(themeOf: Id -> Values, s: School, own: Option<Values>, c: Command)
    requires ThemesWhole(themeOf) && Proper(s) && Kept(s, own)
    ensures Kept(Next(themeOf, s, c), OwnNext(s, own, c)) <==> GivesBack(s, own, c)
  {
    if NoneActive(s) {
      IdleStepKept(themeOf, s, own, c);
    } else if IsLastStop(s, c) {
      LastStopKeptIff(themeOf, s, own, c);
    } else {
      BusyStep(themeOf, s, c);
    }
  }

  lemma BusyStep(themeOf: Id -> Values, s: School, c: Command)
    requires !NoneActive(s) && !IsLastStop(s, c)
    ensures !NoneActive(Next(themeOf, s, c))
  {
    var i: Id :| IsActive(s, i);
    var j: Id := i;
    if Stops(c, i) {
      j :| IsActive(s, j) && j != i;
    }
    StepKeepsStart(themeOf, s, j, c);
  }

  lemma IdleStepKept(themeOf: Id -> Values, s: School, own: Option<Values>, c: Command)
    requires ThemesWhole(themeOf) && NoneActive(s) && FieldsOf(s.setting) == own
    ensures Kept(Next(themeOf, s, c), OwnNext(s, own, c))
  {
    var next := Next(themeOf, s, c);
    if c.Activate? {
      assert next == s || IsActive(next, c.i);
    } else if c.Edit? {
      assert own.Some? ==> own.value + Edited(own, c.values) == Edited(own, c.values);
    } else if c.Upgrade? || c.Rollback? || c.Deactivate? || c.Uninstall? || c.Suspend? {
      assert !IsActive(s, c.i);
    }
  }

  lemma LastStopKeptIff(themeOf: Id -> Values, s: School, own: Option<Values>, c: Command)
    requires Proper(s) && IsLastStop(s, c)
    ensures Kept(Next(themeOf, s, c), OwnNext(s, own, c)) <==> GivesBack(s, own, c)
  {
    var i := c.i;
    var next, previous := Next(themeOf, s, c), s.themes[i].config.previousTheme;
    forall j ensures !IsActive(next, j) {
      assert IsActive(s, j) ==> j == i;
    }
    if previous.Some? {
      assert s.setting.value.fields + previous.value == previous.value;
    }
  }

  ghost predicate KeptThroughout(themeOf: Id -> Values, s: School, own: Option<Values>, cs: seq<Command>)
    decreases |cs|
  {
    Kept(s, own) &&
    (cs == [] || KeptThroughout(themeOf, Next(themeOf, s, cs[0]), OwnNext(s, own, cs[0]), cs[1..]))
  }

  ghost predicate AllGiveBack(themeOf: Id -> Values, s: School, own: Option<Values>, cs: seq<Command>)
    decreases |cs|
  {
    cs == [] ||
    (GivesBack(s, own, cs[0]) && AllGiveBack(themeOf, Next(themeOf, s, cs[0]), OwnNext(s, own, cs[0]), cs[1..]))
  }

  // Whatever commands are carried out, and whether or not themes overlap: the school has its own fields
  // whenever no theme is active exactly when every last stop gives them back.
  lemma {:induction false} KeptThroughoutIff(
      themeOf: Id -> Values, s: School, own: Option<Values>, cs: seq<Command>)
    requires ThemesWhole(themeOf) && Proper(s) && Kept(s, own)
    ensures KeptThroughout(themeOf, s, own, cs) <==> AllGiveBack(themeOf, s, own, cs)
    decreases |cs|
  {
    if cs != [] {
      StepKeptIff(themeOf, s, own, cs[0]);
      if GivesBack(s, own, cs[0]) {
        StepProper(themeOf, s, cs[0]);
        KeptThroughoutIff(themeOf, Next(themeOf, s, cs[0]), OwnNext(s, own, cs[0]), cs[1..]);
      }
    }
  }

  lemma {:induction false} KeptAtEnd(themeOf: Id -> Values, s: School, own: Option<Values>, cs: seq<Command>)
    requires KeptThroughout(themeOf, s, own, cs)
    ensures Kept(Run(themeOf, s, cs), OwnFields(themeOf, s, own, cs))
    decreases |cs|
  {
    if cs != [] {
      KeptAtEnd(themeOf, Next(themeOf, s, cs[0]), OwnNext(s, own, cs[0]), cs[1..]);
    }
  }

  // ---------------------------------------------------------------- one theme at a time

  ghost predicate OneAtATime(s: School, c: Command) {
    c.Activate? ==> forall j :: IsActive(s, j) ==> j == c.i
  }

  ghost predicate AllOneAtATime(themeOf: Id -> Values, s: School, cs: seq<Command>)
    decreases |cs|
  {
    cs == [] || (OneAtATime(s, cs[0]) && AllOneAtATime(themeOf, Next(themeOf, s, cs[0]), cs[1..]))
  }

  // The one active theme, if any, was started over the school's own fields.
  ghost predicate Alone(s: School, own: Option<Values>) {
    && own.Some? && Kept(s, own)
    && (forall i, j :: IsActive(s, i) && IsActive(s, j) ==> i == j)
    && (forall i :: IsActive(s, i) ==> s.themes[i].config.previousTheme == own)
  }

  // A suspension that finds other fields in the settings than the school's own.
  ghost predicate Harms(s: School, own: Option<Values>, c: Command) {
    c.Suspend? && IsActive(s, c.i) && FieldsOf(s.setting) != own
  }

  ghost predicate NoHarm(themeOf: Id -> Values, s: School, own: Option<Values>, cs: seq<Command>)
    decreases |cs|
  {
    cs == [] || (!Harms(s, own, cs[0]) && NoHarm(themeOf, Next(themeOf, s, cs[0]), OwnNext(s, own, cs[0]), cs[1..]))
  }

  lemma AloneGivesBackIff(s: School, own: Option<Values>, c: Command)
    requires Alone(s, own)
    ensures GivesBack(s, own, c) <==> !Harms(s, own, c)
  {
  }

  lemma StepAlone(themeOf: Id -> Values, s: School, own: Option<Values>, c: Command)
    requires ThemesWhole(themeOf) && Proper(s) && Alone(s, own) && OneAtATime(s, c) && !Harms(s, own, c)
    ensures Alone(Next(themeOf, s, c), OwnNext(s, own, c))
  {
    var next := Next(themeOf, s, c);
    AloneGivesBackIff(s, own, c);
    StepKeptIff(themeOf, s, own, c);
    if c.Activate? {
      assert forall j :: IsActive(next, j) ==> IsActive(s, j) || j == c.i;
      if next != s {
        assert forall j :: IsActive(s, j) ==> j == c.i;
        assert !IsActive(s, c.i);
      }
    } else {
      forall j | IsActive(next, j)
        ensures IsActive(s, j) && next.themes[j].config.previousTheme == s.themes[j].config.previousTheme {
      }
    }
  }

  // A school with a settings row and one theme at a time has its own fields whenever no theme is active
  // exactly when no suspension finds others.
  lemma {:induction false} OneAtATimeKeptIff(
      themeOf: Id -> Values, s: School, own: Option<Values>, cs: seq<Command>)
    requires ThemesWhole(themeOf) && Proper(s) && Alone(s, own) && AllOneAtATime(themeOf, s, cs)
    ensures KeptThroughout(themeOf, s, own, cs) <==> NoHarm(themeOf, s, own, cs)
    decreases |cs|
  {
    if cs != [] {
      AloneGivesBackIff(s, own, cs[0]);
      StepKeptIff(themeOf, s, own, cs[0]);
      if !Harms(s, own, cs[0]) {
        StepAlone(themeOf, s, own, cs[0]);
        StepProper(themeOf, s, cs[0]);
        OneAtATimeKeptIff(themeOf, Next(themeOf, s, cs[0]), OwnNext(s, own, cs[0]), cs[1..]);
      }
    }
  }

  // And then no theme has left a trace at the end.
  lemma ThemesLeaveNoTrace(themeOf: Id -> Values, s: School, cs: seq<Command>)
    requires ThemesWhole(themeOf) && Proper(s) && s.setting.Some? && NoneActive(s)
    requires AllOneAtATime(themeOf, s, cs) && NoHarm(themeOf, s, FieldsOf(s.setting), cs)
    ensures var after := Run(themeOf, s, cs);
      NoneActive(after) ==> FieldsOf(after.setting) == OwnFields(themeOf, s, FieldsOf(s.setting), cs)
  {
    OneAtATimeKeptIff(themeOf, s, FieldsOf(s.setting), cs);
    KeptAtEnd(themeOf, s, FieldsOf(s.setting), cs);
  }
}
