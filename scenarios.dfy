/**
 * The panel test suite replayed. For each test there is a run lemma that
 * computes the engine steps of the test, and a method that mounts a
 * PickerPanel as the test does, performs the same interactions, and states
 * in its postcondition the callbacks or the screen contents the test
 * expects. The system clock reads 1990-09-03 00:00:00 throughout.
 */
module PanelScenarios {
  import opened Wrappers
  import opened Calendar
  import opened Views
  import opened Navigation
  import opened Disablement
  import opened TimeColumns
  import opened Engine
  import opened Panel

  /** A date at midnight; months count from 0. */
  function Day(y: int, m: int, d: int): DateTime {
    DateTime(y, m, d, 0, 0, 0)
  }

  function Now(): DateTime {
    Day(1990, 8, 3)
  }

  /** Panel properties with nothing disabled, no `mode` and no `showTime`. */
  function Plain(picker: PickerKind): Props {
    Props(picker, None, d => false, DefaultTimeOptions(), None, Now())
  }

  /** Time rules that disable the given hours and nothing else. */
  function HourRules(hours: set<int>): TimeRules {
    TimeRules(hours, h => {}, (h, m) => {})
  }

  /** A date and time; months count from 0. */
  function At(y: int, m: int, d: int, h: int, mi: int, sec: int): DateTime {
    DateTime(y, m, d, h, mi, sec)
  }

  /** A time picker with the given 12-hour flag and hour rules. */
  function TimeProps(use12Hours: bool, hours: set<int>): Props {
    Props(TimePicker, None, d => false, TimeOptions(use12Hours, true, false, HourRules(hours)), None, Now())
  }

  /** The years the headers show, written out (two at a time keeps each proof small). */
  lemma YearTexts1800()
    ensures YearText(1800) == "1800" && YearText(1899) == "1899"
  {
  }

  lemma YearTexts1900()
    ensures YearText(1900) == "1900" && YearText(1980) == "1980"
  {
  }

  lemma YearTexts1989()
    ensures YearText(1989) == "1989" && YearText(1990) == "1990"
  {
  }

  lemma YearTexts1999()
    ensures YearText(1999) == "1999" && YearText(2000) == "2000"
  {
  }

  /** The month-and-year header texts the tests read. */
  lemma MonthHeaderTexts()
    ensures LabelText(MonthYear(0, 2000)) == "Jan2000"
    ensures LabelText(MonthYear(7, 1990)) == "Aug1990"
    ensures LabelText(MonthYear(8, 1990)) == "Sep1990"
    ensures LabelText(MonthYear(8, 1989)) == "Sep1989"
  {
    YearTexts1989();
    YearTexts1999();
  }

  /** The year header texts the tests read. */
  lemma YearHeaderTexts()
    ensures LabelText(YearOnly(1989)) == "1989"
    ensures LabelText(YearOnly(1990)) == "1990"
  {
    YearTexts1989();
  }

  /** The decade header texts the tests read. */
  lemma DecadeHeaderTexts()
    ensures LabelText(Span(1980, 1989)) == "1980-1989"
    ensures LabelText(Span(1990, 1999)) == "1990-1999"
  {
    YearTexts1900();
    YearTexts1989();
    YearTexts1999();
  }

  /** The century header texts the tests read. */
  lemma CenturyHeaderTexts()
    ensures LabelText(Span(1800, 1899)) == "1800-1899"
    ensures LabelText(Span(1900, 1999)) == "1900-1999"
  {
    YearTexts1800();
    YearTexts1900();
    YearTexts1999();
  }

  // ---------------------------------------------------------------------
  // Value ownership

  lemma DefaultValueRun()
    ensures Mount(Plain(DatePicker), Uncontrolled, Some(Day(2000, 0, 1))).state
         == State(Some(Day(2000, 0, 1)), false, Day(2000, 0, 1), Date, false)
  {
  }

  /** `defaultValue` 2000-01-01 opens the page of January 2000 with day 1 selected. */
  method DefaultValueSelected() returns (header: Option<string>, selectedDay: Option<int>)
    ensures header == Some("Jan2000") && selectedDay == Some(1)
  {
    var panel := new PickerPanel(Plain(DatePicker), Uncontrolled, Some(Day(2000, 0, 1)));
    DefaultValueRun();
    MonthHeaderTexts();
    header := panel.HeaderText();
    selectedDay := if panel.value.Some? then Some(panel.value.value.day) else None;
  }

  lemma ControlledRun()
    ensures var p, d, first := Plain(DatePicker), Day(2000, 0, 23), Day(2000, 0, 1);
      var s0 := State(Some(first), true, first, Date, false);
      var s1 := s0.(anchor := d, timeSeeded := true);
      var s2 := State(Some(d), true, d, Date, true);
      && Mount(p, Controlled(Some(first)), None) == Outcome(s0, [])
      && Engine.SelectCell(p, s0, DateCell(23)) == Outcome(s1, [Select(d), Change(d)])
      && Engine.SelectCell(p, s1, DateCell(23)) == Outcome(s1, [Select(d), Change(d)])
      && SetValue(p, s1, Some(d)) == Outcome(s2, [])
      && Engine.SelectCell(p, s2, DateCell(23)).events == [Select(d)]
  {
    var p, d, first := Plain(DatePicker), Day(2000, 0, 23), Day(2000, 0, 1);
    var s0 := State(Some(first), true, first, Date, false);
    ControlledPick(p, s0);
    ControlledPick(p, s0.(anchor := d, timeSeeded := true));
  }

  /** A controlled panel showing January 2000 that picks the 23rd announces it and keeps its value. */
  lemma ControlledPick(p: Props, s: State)
    requires p == Plain(DatePicker)
    requires s.value == Some(Day(2000, 0, 1)) && s.controlled && s.view == Date
    requires s.anchor in {Day(2000, 0, 1), Day(2000, 0, 23)}
    ensures var d := Day(2000, 0, 23);
      Engine.SelectCell(p, s, DateCell(23)) == Outcome(s.(anchor := d, timeSeeded := true), [Select(d), Change(d)])
  {
  }

  /** A controlled value re-fires onChange until the caller adopts the pick. */
  method ControlledValue() returns (fired: seq<Event>)
    ensures var d := Day(2000, 0, 23);
      fired == [Select(d), Change(d), Select(d), Change(d), Select(d)]
  {
    var panel := new PickerPanel(Plain(DatePicker), Controlled(Some(Day(2000, 0, 1))), None);
    ControlledRun();
    panel.SelectCell(DateCell(23));
    panel.SelectCell(DateCell(23));
    panel.SetValueProp(Some(Day(2000, 0, 23)));
    panel.SelectCell(DateCell(23));
    fired := panel.events;
  }

  lemma UncontrolledRun()
    ensures var p, d := Plain(DatePicker), Day(1990, 8, 23);
      var s0 := Mount(p, Uncontrolled, None);
      var o1 := Engine.SelectCell(p, s0.state, DateCell(23));
      var o2 := Engine.SelectCell(p, o1.state, DateCell(23));
      && s0.events == []
      && o1.events == [Select(d), Change(d)]
      && o2 == Outcome(o1.state, [Select(d)])
      && o1.state.value == Some(d)
  {
  }

  /** The first pick commits a day of the month of `now`; the identical second pick is silent. */
  method UncontrolledValue() returns (fired: seq<Event>, value: Option<DateTime>)
    ensures var d := Day(1990, 8, 23);
      fired == [Select(d), Change(d), Select(d)] && value == Some(d)
  {
    var panel := new PickerPanel(Plain(DatePicker), Uncontrolled, None);
    UncontrolledRun();
    panel.SelectCell(DateCell(23));
    panel.SelectCell(DateCell(23));
    fired := panel.events;
    value := panel.value;
  }

  // ---------------------------------------------------------------------
  // Panel switching by picker

  lemma YearPickerRun()
    ensures var p := Plain(YearPicker);
      var s0 := State(None, false, Now(), Year, false);
      var s1 := s0.(view := Decade);
      var s2 := s0.(view := Year);
      && Mount(p, Uncontrolled, None).state == s0
      && HeaderButton(p, s0, Decade).state == s1
      && Engine.SelectCell(p, s1, DecadeCell(1990)).state == s2
      && Engine.SelectCell(p, s2, YearCell(1999)).state.view == Year
  {
    var p := Plain(YearPicker);
    var s0 := State(None, false, Now(), Year, false);
    DecadePick(p, s0.(view := Decade));
    YearPick(p, s0);
  }

  /** Picking the 1990s on the decade page of 1990-09-03 moves to the year page. */
  lemma DecadePick(p: Props, s: State)
    requires p == Plain(YearPicker) || p == Plain(MonthPicker) || p == Plain(QuarterPicker)
    requires s == State(None, false, Now(), Decade, false)
    ensures Engine.SelectCell(p, s, DecadeCell(1990)).state == s.(view := Year)
  {
    assert CenturyStart(1990) == 1900;
    assert CellDate(Decade, Now(), DecadeCell(1990)) == Some(Now());
    assert Engine.SelectCell(p, s, DecadeCell(1990)) == Pick(p, s, Now());
  }

  /**
   * Picking 1999 on the year page of 1990-09-03: the year picker stays on
   * its year view; the month and quarter pickers move the anchor to 1999
   * and drill down to their own view.
   */
  lemma YearPick(p: Props, s: State)
    requires p == Plain(YearPicker) || p == Plain(MonthPicker) || p == Plain(QuarterPicker)
    requires s == State(None, false, Now(), Year, false)
    ensures p.picker == YearPicker ==> Engine.SelectCell(p, s, YearCell(1999)).state.view == Year
    ensures p.picker != YearPicker ==>
              Engine.SelectCell(p, s, YearCell(1999)).state == s.(anchor := Day(1999, 8, 3), view := DefaultView(p.picker))
  {
    var d := Day(1999, 8, 3);
    assert DecadeStart(1990) == 1990;
    assert CellDate(Year, Now(), YearCell(1999)) == Some(d);
    assert Engine.SelectCell(p, s, YearCell(1999)) == Pick(p, s, d);
  }

  /** The year picker: the decade button opens the decade view, a decade drills to years, a year stays. */
  method YearPickerSwitch() returns (views: seq<View>)
    ensures views == [Decade, Year, Year]
  {
    var panel := new PickerPanel(Plain(YearPicker), Uncontrolled, None);
    YearPickerRun();
    panel.OpenView(Decade);
    views := [panel.ShownView()];
    panel.SelectCell(DecadeCell(1990));
    views := views + [panel.ShownView()];
    panel.SelectCell(YearCell(1999));
    views := views + [panel.ShownView()];
  }

  /** The cell the month and quarter tests pick on their own view: Aug, or Q3. */
  function LeafCell(picker: PickerKind): Cell {
    if picker == MonthPicker then MonthCell(7) else QuarterCell(2)
  }

  /** On a month or quarter picker the year button opens years, and there the decade button opens decades. */
  lemma CoarserButtons(picker: PickerKind)
    requires picker == MonthPicker || picker == QuarterPicker
    ensures var p, s0 := Plain(picker), State(None, false, Now(), DefaultView(picker), false);
      && Mount(p, Uncontrolled, None).state == s0
      && HeaderButton(p, s0, Year).state == s0.(view := Year)
      && HeaderButton(p, s0.(view := Year), Decade).state == s0.(view := Decade)
  {
  }

  lemma MonthOrQuarterRun(picker: PickerKind)
    requires picker == MonthPicker || picker == QuarterPicker
    ensures var p, leaf := Plain(picker), DefaultView(picker);
      var s0 := State(None, false, Now(), leaf, false);
      var s1 := State(None, false, Now(), Year, false);
      var s2 := State(None, false, Now(), Decade, false);
      var s3 := State(None, false, Day(1990, 8, 3), Year, false);
      var s4 := State(None, false, Day(1999, 8, 3), leaf, false);
      && Mount(p, Uncontrolled, None).state == s0
      && HeaderButton(p, s0, Year).state == s1
      && HeaderButton(p, s1, Decade).state == s2
      && Engine.SelectCell(p, s2, DecadeCell(1990)).state == s3
      && Engine.SelectCell(p, s3, YearCell(1999)).state == s4
      && Shown(p, Engine.SelectCell(p, s4, LeafCell(picker)).state) == leaf
  {
    var p, leaf := Plain(picker), DefaultView(picker);
    CoarserButtons(picker);
    DecadePick(p, State(None, false, Now(), Decade, false));
    YearPick(p, State(None, false, Now(), Year, false));
    LeafPickKeepsView(p, State(None, false, Day(1999, 8, 3), leaf, false), LeafCell(picker));
  }

  /**
   * The month and quarter pickers: year then decade button, then a decade,
   * a year and a leaf cell drill back down to the picker's own view.
   */
  method MonthOrQuarterSwitch(picker: PickerKind) returns (views: seq<View>)
    requires picker == MonthPicker || picker == QuarterPicker
    ensures views == [Year, Decade, Year, DefaultView(picker), DefaultView(picker)]
  {
    var panel := new PickerPanel(Plain(picker), Uncontrolled, None);
    var leaf := DefaultView(picker);
    MonthOrQuarterRun(picker);
    assert panel.props == Plain(picker) && panel.Snapshot() == State(None, false, Now(), leaf, false);
    panel.OpenView(Year);
    var v1 := panel.ShownView();
    panel.OpenView(Decade);
    var v2 := panel.ShownView();
    panel.SelectCell(DecadeCell(1990));
    var v3 := panel.ShownView();
    panel.SelectCell(YearCell(1999));
    var v4 := panel.ShownView();
    panel.SelectCell(LeafCell(picker));
    views := [v1, v2, v3, v4, panel.ShownView()];
  }

  // ---------------------------------------------------------------------
  // Header navigation

  lemma DateNavigationRun()
    ensures var p := Plain(DatePicker);
      var s0 := State(Some(Now()), false, Now(), Date, false);
      var aug := s0.(anchor := Day(1990, 7, 3));
      var lastYear := s0.(anchor := Day(1989, 8, 3));
      && Mount(p, Uncontrolled, Some(Now())).state == s0
      && NavigateStep(p, s0, Prev).state == aug
      && NavigateStep(p, aug, Next).state == s0
      && NavigateStep(p, s0, SuperPrev).state == lastYear
      && NavigateStep(p, lastYear, SuperNext).state == s0
  {
    var p, s0 := Plain(DatePicker), State(Some(Now()), false, Now(), Date, false);
    MonthSteps(p, s0);
    YearSteps(p, s0);
  }

  lemma MonthSteps(p: Props, s0: State)
    requires p == Plain(DatePicker) && s0 == State(Some(Now()), false, Now(), Date, false)
    ensures var aug := s0.(anchor := Day(1990, 7, 3));
      NavigateStep(p, s0, Prev).state == aug && NavigateStep(p, aug, Next).state == s0
  {
  }

  lemma YearSteps(p: Props, s0: State)
    requires p == Plain(DatePicker) && s0 == State(Some(Now()), false, Now(), Date, false)
    ensures var lastYear := s0.(anchor := Day(1989, 8, 3));
      NavigateStep(p, s0, SuperPrev).state == lastYear && NavigateStep(p, lastYear, SuperNext).state == s0
  {
  }

  /** On the date view, prev/next turn one month and super-prev/super-next one year. */
  method DateNavigation() returns (headers: seq<Option<string>>)
    ensures headers == [Some("Aug1990"), Some("Sep1990"), Some("Sep1989"), Some("Sep1990")]
  {
    var panel := new PickerPanel(Plain(DatePicker), Uncontrolled, Some(Now()));
    DateNavigationRun();
    MonthHeaderTexts();
    panel.ClickButton(Prev);
    var h1 := panel.HeaderText();
    assert h1 == Some(LabelText(MonthYear(7, 1990)));
    panel.ClickButton(Next);
    var h2 := panel.HeaderText();
    assert h2 == Some(LabelText(MonthYear(8, 1990)));
    panel.ClickButton(SuperPrev);
    var h3 := panel.HeaderText();
    assert h3 == Some(LabelText(MonthYear(8, 1989)));
    panel.ClickButton(SuperNext);
    var h4 := panel.HeaderText();
    assert h4 == Some(LabelText(MonthYear(8, 1990)));
    headers := [h1, h2, h3, h4];
  }

  lemma MonthOrQuarterNavigationRun(picker: PickerKind)
    requires picker == MonthPicker || picker == QuarterPicker
    ensures var p := Plain(picker);
      var s0 := State(Some(Now()), false, Now(), DefaultView(picker), false);
      var lastYear := s0.(anchor := Day(1989, 8, 3));
      && Mount(p, Uncontrolled, Some(Now())).state == s0
      && NavigateStep(p, s0, SuperPrev).state == lastYear
      && NavigateStep(p, lastYear, SuperNext).state == s0
  {
  }

  /** On the month and quarter views the super buttons turn one year. */
  method MonthOrQuarterNavigation(picker: PickerKind) returns (headers: seq<Option<string>>)
    requires picker == MonthPicker || picker == QuarterPicker
    ensures headers == [Some("1989"), Some("1990")]
  {
    var panel := new PickerPanel(Plain(picker), Uncontrolled, Some(Now()));
    MonthOrQuarterNavigationRun(picker);
    YearHeaderTexts();
    panel.ClickButton(SuperPrev);
    var h1 := panel.HeaderText();
    assert h1 == Some(LabelText(YearOnly(1989)));
    panel.ClickButton(SuperNext);
    var h2 := panel.HeaderText();
    assert h2 == Some(LabelText(YearOnly(1990)));
    headers := [h1, h2];
  }

  lemma YearNavigationRun()
    ensures var p := Plain(YearPicker);
      var s0 := State(Some(Now()), false, Now(), Year, false);
      var back := s0.(anchor := Day(1980, 8, 3));
      && Mount(p, Uncontrolled, Some(Now())).state == s0
      && NavigateStep(p, s0, SuperPrev).state == back
      && NavigateStep(p, back, SuperNext).state == s0
      && HeaderLabel(Year, Day(1980, 8, 3)) == Some(Span(1980, 1989))
      && HeaderLabel(Year, Now()) == Some(Span(1990, 1999))
  {
  }

  /** On the year view the super buttons turn a decade, and the header names it. */
  method YearNavigation() returns (headers: seq<Option<string>>)
    ensures headers == [Some("1980-1989"), Some("1990-1999")]
  {
    var panel := new PickerPanel(Plain(YearPicker), Uncontrolled, Some(Now()));
    YearNavigationRun();
    DecadeHeaderTexts();
    panel.ClickButton(SuperPrev);
    var h1 := panel.HeaderText();
    assert h1 == Some(LabelText(Span(1980, 1989)));
    panel.ClickButton(SuperNext);
    var h2 := panel.HeaderText();
    assert h2 == Some(LabelText(Span(1990, 1999)));
    headers := [h1, h2];
  }

  lemma DecadeNavigationRun()
    ensures var p := Plain(DatePicker).(mode := Some(Decade));
      var s0 := State(Some(Now()), false, Now(), Date, false);
      var back := s0.(anchor := Day(1890, 8, 3));
      && Mount(p, Uncontrolled, Some(Now())).state == s0
      && NavigateStep(p, s0, SuperPrev).state == back
      && NavigateStep(p, back, SuperNext).state == s0
      && HeaderLabel(Decade, Day(1890, 8, 3)) == Some(Span(1800, 1899))
      && HeaderLabel(Decade, Now()) == Some(Span(1900, 1999))
  {
  }

  /** On the decade view (by `mode`) the super buttons turn a century, and the header names it. */
  method DecadeNavigation() returns (headers: seq<Option<string>>)
    ensures headers == [Some("1800-1899"), Some("1900-1999")]
  {
    var panel := new PickerPanel(Plain(DatePicker).(mode := Some(Decade)), Uncontrolled, Some(Now()));
    DecadeNavigationRun();
    CenturyHeaderTexts();
    panel.ClickButton(SuperPrev);
    var h1 := panel.HeaderText();
    assert h1 == Some(LabelText(Span(1800, 1899)));
    panel.ClickButton(SuperNext);
    var h2 := panel.HeaderText();
    assert h2 == Some(LabelText(Span(1900, 1999)));
    headers := [h1, h2];
  }

  // ---------------------------------------------------------------------
  // showTime

  /** The seed of the showTime tests: 2001-01-02 01:03:07. */
  function Seed(): DateTime {
    At(2001, 0, 2, 1, 3, 7)
  }

  /** A date picker whose `showTime` carries `defaultValue` and the given options. */
  function WithShowTime(seed: DateTime, opts: TimeOptions): Props {
    Plain(DatePicker).(showTime := Some(ShowTime(Some(seed), opts)))
  }

  /** showTime hiding hours 0..3 and the second column. */
  function HidingOptions(): TimeOptions {
    TimeOptions(false, false, true, HourRules({0, 1, 2, 3}))
  }

  lemma HiddenHoursRun()
    ensures var p := WithShowTime(Seed(), HidingOptions());
      var s0 := State(None, true, Now(), Date, false);
      var d := At(1990, 8, 5, 1, 3, 7);
      && Mount(p, Controlled(None), Some(Seed())).state == s0
      && Engine.SelectCell(p, s0, DateCell(5)).events == [Select(d), Change(d)]
  {
  }

  /**
   * Hidden disabled hours 0..3 and no second column: two columns, and the
   * hour list holds the 20 hours 4..23 in order, starting at "04".
   */
  lemma HiddenHoursLayout()
    ensures var cols := Columns(HidingOptions(), None);
      && |cols| == 2 && |cols[0].units| == 20
      && (forall i :: 0 <= i < 20 ==> cols[0].units[i].value == i + 4)
      && cols[0].units[0].text == "04"
  {
    var opts := HidingOptions();
    assert forall h :: 0 <= h < 24 ==> (h in opts.rules.disabledHours <==> h < 4);
    HiddenHoursAreTheRest(opts, None, 4);
    assert Pad2(0 + 4) == "04";
  }

  method HiddenHoursColumns() returns (columnCount: nat, hourCount: nat, firstHour: string)
    ensures columnCount == 2 && hourCount == 20 && firstHour == "04"
  {
    var panel := new PickerPanel(WithShowTime(Seed(), HidingOptions()), Controlled(None), Some(Seed()));
    assert TimeOptionsOf(panel.props) == HidingOptions() && panel.value == None && panel.ShownView() == Date;
    var cols := panel.TimeColumnsShown();
    HiddenHoursLayout();
    columnCount := |cols|;
    hourCount := |cols[0].units|;
    firstHour := cols[0].units[0].text;
  }

  /** With `value` null, the first date pick takes the seed's time. */
  method HiddenHoursPick() returns (fired: seq<Event>)
    ensures var d := At(1990, 8, 5, 1, 3, 7);
      fired == [Select(d), Change(d)]
  {
    var panel := new PickerPanel(WithShowTime(Seed(), HidingOptions()), Controlled(None), Some(Seed()));
    HiddenHoursRun();
    panel.SelectCell(DateCell(5));
    fired := panel.events;
  }

  /** The first date pick takes the seed's time of day. */
  lemma SeededPick(p: Props)
    requires p == WithShowTime(Seed(), DefaultTimeOptions())
    ensures var d1 := At(1990, 8, 5, 1, 3, 7);
      var s0 := State(None, false, Now(), Date, false);
      && Mount(p, Uncontrolled, None).state == s0
      && Engine.SelectCell(p, s0, DateCell(5)) == Outcome(State(Some(d1), false, d1, Date, true), [Select(d1), Change(d1)])
  {
    var s0 := State(None, false, Now(), Date, false);
    var d1 := At(1990, 8, 5, 1, 3, 7);
    assert CellDate(Date, Now(), DateCell(5)) == Some(Day(1990, 8, 5));
    assert SeedsTime(p, s0, Date);
    assert Engine.SelectCell(p, s0, DateCell(5)) == Pick(p, s0, d1);
  }

  /** Hour 10 on 1990-09-05 01:03:07 gives 10:03:07. */
  lemma HourAfterSeed(p: Props, s1: State)
    requires p == WithShowTime(Seed(), DefaultTimeOptions())
    requires s1 == State(Some(At(1990, 8, 5, 1, 3, 7)), false, At(1990, 8, 5, 1, 3, 7), Date, true)
    ensures var d2 := At(1990, 8, 5, 10, 3, 7);
      ClickTime(p, s1, HourColumn, 10) == Outcome(State(Some(d2), false, d2, Date, true), [Select(d2), Change(d2)])
  {
  }

  /** Once a time was committed the seed no longer applies: the 20th keeps 10:03:07. */
  lemma PickAfterSeed(p: Props, s2: State)
    requires p == WithShowTime(Seed(), DefaultTimeOptions())
    requires s2 == State(Some(At(1990, 8, 5, 10, 3, 7)), false, At(1990, 8, 5, 10, 3, 7), Date, true)
    ensures var d3 := At(1990, 8, 20, 10, 3, 7);
      Engine.SelectCell(p, s2, DateCell(20)).events == [Select(d3), Change(d3)]
  {
    assert !SeedsTime(p, s2, Date);
    assert CellDate(Date, s2.anchor, DateCell(20)) == Some(At(1990, 8, 20, 10, 3, 7));
  }

  /** The hour click of SeedOnce, on the panel its first pick left. */
  method HourStep(panel: PickerPanel)
    requires panel.Valid() && panel.props == WithShowTime(Seed(), DefaultTimeOptions())
    requires panel.Snapshot() == State(Some(At(1990, 8, 5, 1, 3, 7)), false, At(1990, 8, 5, 1, 3, 7), Date, true)
    modifies panel
    ensures panel.Valid()
    ensures var d2 := At(1990, 8, 5, 10, 3, 7);
      && panel.Snapshot() == State(Some(d2), false, d2, Date, true)
      && panel.events == old(panel.events) + [Select(d2), Change(d2)]
  {
    HourAfterSeed(panel.props, panel.Snapshot());
    panel.ClickTimeCell(HourColumn, 10);
  }

  /** The seed's time is used by the first date pick only; after an hour click, picks keep that hour. */
  method SeedOnce() returns (fired: seq<Event>)
    ensures var d1, d2, d3 := At(1990, 8, 5, 1, 3, 7), At(1990, 8, 5, 10, 3, 7), At(1990, 8, 20, 10, 3, 7);
      fired == [Select(d1), Change(d1)] + [Select(d2), Change(d2)] + [Select(d3), Change(d3)]
  {
    var panel := new PickerPanel(WithShowTime(Seed(), DefaultTimeOptions()), Uncontrolled, None);
    var d1, d2 := At(1990, 8, 5, 1, 3, 7), At(1990, 8, 5, 10, 3, 7);
    SeededPick(panel.props);
    panel.SelectCell(DateCell(5));
    HourStep(panel);
    PickAfterSeed(panel.props, State(Some(d2), false, d2, Date, true));
    panel.SelectCell(DateCell(20));
    fired := panel.events;
  }

  lemma ValueBeatsSeedRun()
    ensures var p := WithShowTime(At(2001, 0, 2, 9, 9, 9), DefaultTimeOptions());
      var v, d := At(2001, 0, 2, 10, 10, 10), At(2001, 0, 5, 10, 10, 10);
      var s0 := State(Some(v), true, v, Date, false);
      && Mount(p, Controlled(Some(v)), None).state == s0
      && Engine.SelectCell(p, s0, DateCell(5)).events == [Select(d), Change(d)]
  {
  }

  /** With a value present the seed is ignored: the pick keeps the value's time. */
  method ValueBeatsSeed() returns (fired: seq<Event>)
    ensures var d := At(2001, 0, 5, 10, 10, 10);
      fired == [Select(d), Change(d)]
  {
    var v := At(2001, 0, 2, 10, 10, 10);
    var panel := new PickerPanel(WithShowTime(At(2001, 0, 2, 9, 9, 9), DefaultTimeOptions()), Controlled(Some(v)), None);
    ValueBeatsSeedRun();
    panel.SelectCell(DateCell(5));
    fired := panel.events;
  }

  // ---------------------------------------------------------------------
  // Disabled cells and onPanelChange

  lemma DisabledHourRun()
    ensures var p := TimeProps(false, {0});
      var s0 := State(None, false, Now(), Time, false);
      var d := At(1990, 8, 3, 1, 0, 0);
      && Mount(p, Uncontrolled, None).state == s0
      && ClickTime(p, s0, HourColumn, 0) == Outcome(s0, [])
      && ClickTime(p, s0, HourColumn, 1).events == [Select(d), Change(d)]
  {
    var p, s0 := TimeProps(false, {0}), State(None, false, Now(), Time, false);
    DisabledHourIgnored(p, s0);
    NextHourPicked(p, s0);
  }

  lemma DisabledHourIgnored(p: Props, s0: State)
    requires p == TimeProps(false, {0}) && s0 == State(None, false, Now(), Time, false)
    ensures ClickTime(p, s0, HourColumn, 0) == Outcome(s0, [])
  {
    ClickTakesEnabledEntry(TimeOptionsOf(p), None, Now(), HourColumn, 0);
  }

  lemma NextHourPicked(p: Props, s0: State)
    requires p == TimeProps(false, {0}) && s0 == State(None, false, Now(), Time, false)
    ensures var d := At(1990, 8, 3, 1, 0, 0);
      ClickTime(p, s0, HourColumn, 1).events == [Select(d), Change(d)]
  {
    ClickTakesEnabledEntry(TimeOptionsOf(p), None, Now(), HourColumn, 1);
    UnsetClockClick(TimeOptionsOf(p), Now(), HourColumn, 1);
  }

  /** A disabled hour fires no onSelect; the next hour does. */
  method DisabledHour() returns (fired: seq<Event>)
    ensures var d := At(1990, 8, 3, 1, 0, 0);
      fired == [Select(d), Change(d)]
  {
    var panel := new PickerPanel(TimeProps(false, {0}), Uncontrolled, None);
    DisabledHourRun();
    panel.ClickTimeCell(HourColumn, 0);
    panel.ClickTimeCell(HourColumn, 1);
    fired := panel.events;
  }

  /** A month picker whose `disabledDate` rejects January. */
  function NoJanuary(): Props {
    Plain(MonthPicker).(disabledDate := (d: DateTime) => d.month == 0)
  }

  lemma DisabledMonthRun()
    ensures var p := NoJanuary();
      var s0 := State(None, false, Now(), Month, false);
      var d := Day(1990, 1, 3);
      && Mount(p, Uncontrolled, None).state == s0
      && Engine.SelectCell(p, s0, MonthCell(0)) == Outcome(s0, [])
      && Engine.SelectCell(p, s0, MonthCell(1)).events == [Select(d), Change(d)]
  {
  }

  /** January is disabled and fires nothing; February fires onSelect. */
  method DisabledMonth() returns (fired: seq<Event>)
    ensures var d := Day(1990, 1, 3);
      fired == [Select(d), Change(d)]
  {
    var panel := new PickerPanel(NoJanuary(), Uncontrolled, None);
    DisabledMonthRun();
    panel.SelectCell(MonthCell(0));
    panel.SelectCell(MonthCell(1));
    fired := panel.events;
  }

  /** A year picker whose `disabledDate` rejects 1990. */
  function No1990(): Props {
    Plain(YearPicker).(disabledDate := (d: DateTime) => d.year == 1990)
  }

  lemma DisabledYearRun()
    ensures var p := No1990();
      var s0 := State(None, false, Now(), Year, false);
      var d := Day(1993, 8, 3);
      && Mount(p, Uncontrolled, None).state == s0
      && Engine.SelectCell(p, s0, YearCell(1990)) == Outcome(s0, [])
      && Engine.SelectCell(p, s0, YearCell(1993)).events == [Select(d), Change(d)]
  {
  }

  /** 1990 is disabled and fires nothing; 1993 fires onSelect. */
  method DisabledYear() returns (fired: seq<Event>)
    ensures var d := Day(1993, 8, 3);
      fired == [Select(d), Change(d)]
  {
    var panel := new PickerPanel(No1990(), Uncontrolled, None);
    DisabledYearRun();
    panel.SelectCell(YearCell(1990));
    panel.SelectCell(YearCell(1993));
    fired := panel.events;
  }

  /** The decade view by `mode`, with 1900 disabled. */
  function DecadeMode(): Props {
    Plain(DatePicker).(mode := Some(Decade), disabledDate := (d: DateTime) => d.year == 1900)
  }

  lemma DecadeModeRun()
    ensures var p := DecadeMode();
      var s0 := State(None, false, Now(), Date, false);
      var s1 := State(None, false, Day(1900, 8, 3), Year, false);
      && Mount(p, Uncontrolled, None).state == s0
      && Engine.SelectCell(p, s0, DecadeCell(1900)) == Outcome(s1, [PanelChange(Day(1900, 8, 3), Year)])
      && Engine.SelectCell(p, s1, DecadeCell(1910)).events == [PanelChange(Day(1910, 8, 3), Year)]
  {
    var p := DecadeMode();
    DecadeModePick(p, State(None, false, Now(), Date, false), 1900);
    DecadeModePick(p, State(None, false, Day(1900, 8, 3), Year, false), 1910);
  }

  /** On the fixed decade view of the 1900s every decade cell is enabled and asks for the year view. */
  lemma DecadeModePick(p: Props, s: State, y: int)
    requires p == DecadeMode() && y in {1900, 1910}
    requires s.value.None? && !s.controlled && Valid(s.anchor) && s.anchor.month == 8 && s.anchor.day == 3
    requires 1900 <= s.anchor.year < 2000 && s.anchor.hour == 0 && s.anchor.minute == 0 && s.anchor.second == 0
    ensures var d := Day(y, 8, 3);
      Engine.SelectCell(p, s, DecadeCell(y)) == Outcome(s.(anchor := d, view := Year), [PanelChange(d, Year)])
  {
    var d := Day(y, 8, 3);
    assert CenturyStart(s.anchor.year) == 1900;
    assert CellDate(Decade, s.anchor, DecadeCell(y)) == Some(d);
    assert !CellDisabled(Decade, p.disabledDate, d);
    assert Engine.SelectCell(p, s, DecadeCell(y)) == Pick(p, s, d);
  }

  /** No picker is a decade picker, so decade cells are never disabled; each asks for the year view. */
  method DecadeModeCells() returns (fired: seq<Event>)
    ensures fired == [PanelChange(Day(1900, 8, 3), Year), PanelChange(Day(1910, 8, 3), Year)]
  {
    var panel := new PickerPanel(DecadeMode(), Uncontrolled, None);
    DecadeModeRun();
    panel.SelectCell(DecadeCell(1900));
    panel.SelectCell(DecadeCell(1910));
    fired := panel.events;
  }

  /** A date pick on the date view fires no onPanelChange. */
  method SamePanel() returns (fired: seq<Event>)
    ensures !HasPanelChange(fired)
  {
    var panel := new PickerPanel(Plain(DatePicker), Uncontrolled, None);
    assert panel.Snapshot() == State(None, false, Now(), Date, false);
    PanelChangeNamesOtherView(Plain(DatePicker), panel.Snapshot(), DateCell(23), Date);
    panel.SelectCell(DateCell(23));
    fired := panel.events;
  }

  // ---------------------------------------------------------------------
  // Time columns on a 12-hour clock

  lemma TwelveHourPMRun()
    ensures var p, v, d := TimeProps(true, {}), At(2000, 0, 1, 0, 1, 2), At(2000, 0, 1, 12, 1, 2);
      var s0 := State(Some(v), false, v, Time, false);
      && Mount(p, Uncontrolled, Some(v)).state == s0
      && ClickTime(p, s0, MeridiemColumn, 1).events == [Select(d), Change(d)]
  {
    var p, v := TimeProps(true, {}), At(2000, 0, 1, 0, 1, 2);
    PMEntry(TimeOptionsOf(p), v);
  }

  /** With no hour disabled, the PM entry of a 12-hour clock turns 00:01:02 into 12:01:02. */
  lemma PMEntry(opts: TimeOptions, v: DateTime)
    requires opts == TimeOptions(true, true, false, HourRules({})) && v == At(2000, 0, 1, 0, 1, 2)
    ensures ClickTime(TimeProps(true, {}), State(Some(v), false, v, Time, false), MeridiemColumn, 1).events
         == [Select(At(2000, 0, 1, 12, 1, 2)), Change(At(2000, 0, 1, 12, 1, 2))]
  {
    PMResult(opts, v);
  }

  lemma PMResult(opts: TimeOptions, v: DateTime)
    requires opts == TimeOptions(true, true, false, HourRules({})) && v == At(2000, 0, 1, 0, 1, 2)
    ensures ClickResult(opts, Some(v), Now(), MeridiemColumn, 1) == Some(At(2000, 0, 1, 12, 1, 2))
  {
    var cols := Columns(opts, Some(v));
    assert |cols| == 4;
    MeridiemDisabledIff(opts.rules);
    assert 12 !in opts.rules.disabledHours;
    assert cols[3].units == MeridiemUnits(opts.rules);
    assert !cols[3].units[1].disabled;
    assert FindColumn(cols, MeridiemColumn) == Some(cols[3]);
    MeridiemClick(opts, v, true);
  }

  /** 00:01:02 on a 12-hour clock: the PM entry, last of the last column, gives 12:01:02. */
  method TwelveHourPM() returns (fired: seq<Event>)
    ensures var d := At(2000, 0, 1, 12, 1, 2);
      fired == [Select(d), Change(d)]
  {
    var v := At(2000, 0, 1, 0, 1, 2);
    var panel := new PickerPanel(TimeProps(true, {}), Uncontrolled, Some(v));
    TwelveHourPMRun();
    panel.ClickTimeCell(MeridiemColumn, 1);
    fired := panel.events;
  }

  /** At midnight and at noon the 12-hour hour list starts with "12". */
  method FirstHourIsTwelve(hour: int) returns (firstHour: string)
    requires hour == 0 || hour == 12
    ensures firstHour == "12"
  {
    var v := At(2000, 0, 1, hour, 0, 0);
    var panel := new PickerPanel(TimeProps(true, {}), Uncontrolled, Some(v));
    assert panel.value == Some(v) && panel.ShownView() == Time;
    var cols := panel.TimeColumnsShown();
    TwelveHourColumn(TimeOptionsOf(panel.props), v);
    firstHour := cols[0].units[0].text;
  }

  /**
   * The AM and PM entries of a 12-hour time picker at 12:00:00: AM is
   * disabled exactly when hours 0..11 all are, PM exactly when 12..23 all are.
   */
  method MeridiemFlags(hours: set<int>) returns (am: bool, pm: bool)
    ensures am <==> forall h :: 0 <= h < 12 ==> h in hours
    ensures pm <==> forall h :: 12 <= h < 24 ==> h in hours
  {
    var v := At(2000, 0, 1, 12, 0, 0);
    var panel := new PickerPanel(TimeProps(true, hours), Uncontrolled, Some(v));
    var opts := TimeOptionsOf(panel.props);
    assert opts == TimeOptions(true, true, false, HourRules(hours)) && panel.ShownView() == Time;
    var cols := panel.TimeColumnsShown();
    assert cols[|cols| - 1].units == MeridiemUnits(opts.rules);
    MeridiemDisabledIff(opts.rules);
    am := cols[|cols| - 1].units[0].disabled;
    pm := cols[|cols| - 1].units[1].disabled;
  }

  /** Hours 0..11 disabled: the AM entry is disabled. */
  method MorningDisabled() returns (am: bool)
    ensures am
  {
    var pm;
    am, pm := MeridiemFlags({0, 1, 2, 3, 4, 5, 6, 7, 8, 9, 10, 11});
  }

  /** Hours 12..23 disabled: the PM entry is disabled. */
  method AfternoonDisabled() returns (pm: bool)
    ensures pm
  {
    var am;
    am, pm := MeridiemFlags({12, 13, 14, 15, 16, 17, 18, 19, 20, 21, 22, 23});
  }

  /** The `mode` time view on a 12-hour clock at 13:07:04, with rules that echo their arguments. */
  function EchoRules(): Props {
    Props(DatePicker, Some(Time), d => false,
          TimeOptions(true, true, false, TimeRules({}, h => {h}, (h, m) => {h + m})), None, Now())
  }

  lemma EchoColumns(opts: TimeOptions, v: DateTime)
    requires opts == TimeOptionsOf(EchoRules()) && v == At(2000, 0, 1, 13, 7, 4)
    ensures var cols := Columns(opts, Some(v));
      && cols[1].units[13].disabled && !cols[1].units[1].disabled
      && cols[2].units[20].disabled && !cols[2].units[8].disabled
  {
    RulesSeeTwentyFourHourClock(opts, v, 13);
    RulesSeeTwentyFourHourClock(opts, v, 1);
    RulesSeeTwentyFourHourClock(opts, v, 20);
    RulesSeeTwentyFourHourClock(opts, v, 8);
  }

  /**
   * The minute rule is asked with hour 13 and the second rule with (13, 7),
   * not with the 12-hour reading 1: with rules that disable the entry
   * named by their arguments, minute 13 and second 20 are disabled and
   * minute 1 and second 8 are not.
   */
  method RuleArguments() returns (minute13: bool, minute1: bool, second20: bool, second8: bool)
    ensures minute13 && !minute1 && second20 && !second8
  {
    var v := At(2000, 0, 1, 13, 7, 4);
    var panel := new PickerPanel(EchoRules(), Controlled(Some(v)), None);
    assert panel.value == Some(v) && panel.ShownView() == Time;
    var cols := panel.TimeColumnsShown();
    EchoColumns(TimeOptionsOf(EchoRules()), v);
    minute13 := cols[1].units[13].disabled;
    minute1 := cols[1].units[1].disabled;
    second20 := cols[2].units[20].disabled;
    second8 := cols[2].units[8].disabled;
  }

  // ---------------------------------------------------------------------
  // Invalid input and confirm

  /** A date the record cannot stand for (month 12). */
  function Invalid(): DateTime {
    DateTime(1990, 12, 1, 0, 0, 0)
  }

  /** An invalid `value` or `defaultValue` is reported once, naming the property. */
  method InvalidInputWarns() returns (byValue: seq<Event>, byDefault: seq<Event>)
    ensures byValue == [InvalidInput(ValueParam)] && byDefault == [InvalidInput(DefaultValueParam)]
  {
    var a := new PickerPanel(Plain(DatePicker), Controlled(Some(Invalid())), None);
    var b := new PickerPanel(Plain(DatePicker), Uncontrolled, Some(Invalid()));
    byValue := a.events;
    byDefault := b.events;
  }

  lemma OkRun()
    ensures var p, d := TimeProps(false, {}), At(1990, 8, 3, 3, 0, 0);
      var s0 := State(None, false, Now(), Time, false);
      && Mount(p, Uncontrolled, None).state == s0
      && ClickTime(p, s0, HourColumn, 3) == Outcome(State(Some(d), false, d, Time, true), [Select(d), Change(d)])
  {
    var p := TimeProps(false, {});
    ClickTakesEnabledEntry(TimeOptionsOf(p), None, Now(), HourColumn, 3);
    UnsetClockClick(TimeOptionsOf(p), Now(), HourColumn, 3);
  }

  /** Clicking hour 3 of a time picker fires no onOk; the OK button then fires it with 03:00:00. */
  method OkOnConfirm() returns (beforeOk: seq<Event>, fired: seq<Event>)
    ensures var d := At(1990, 8, 3, 3, 0, 0);
      beforeOk == [Select(d), Change(d)] && fired == beforeOk + [Ok(d)]
  {
    var panel := new PickerPanel(TimeProps(false, {}), Uncontrolled, None);
    OkRun();
    panel.ClickTimeCell(HourColumn, 3);
    beforeOk := panel.events;
    panel.ConfirmOk();
    fired := panel.events;
  }
}
