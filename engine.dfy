/**
 * The panel engine as pure step functions: mounting, cell picks, header
 * buttons, time-column clicks, confirm and a new `value` property. Each step
 * maps the panel state to the new state and the callbacks it fires, in
 * order. The PickerPanel class runs these steps in place.
 */
module Engine {
  import opened Wrappers
  import opened Calendar
  import opened Views
  import opened Navigation
  import opened Disablement
  import opened TimeColumns

  /** `showTime` given as an object: its `defaultValue` and its time options. */
  datatype ShowTime = ShowTime(defaultValue: Option<DateTime>, options: TimeOptions)

  /**
   * The properties no interaction changes. `mode`, when given, pins the
   * shown view; `time` holds the panel's own time options, which `showTime`
   * replaces; `now` is the clock reading the panel falls back on.
   */
  datatype Props = Props(
    picker: PickerKind,
    mode: Option<View>,
    disabledDate: DateTime -> bool,
    time: TimeOptions,
    showTime: Option<ShowTime>,
    now: DateTime)

  /** The `value` property: absent (the panel owns its value) or given, possibly as null. */
  datatype ValueProp = Uncontrolled | Controlled(given: Option<DateTime>)

  datatype Param = ValueParam | DefaultValueParam

  /** The callbacks, and the diagnostic for an invalid date property. */
  datatype Event =
    | Select(date: DateTime)
    | Change(date: DateTime)
    | PanelChange(date: DateTime, view: View)
    | Ok(date: DateTime)
    | InvalidInput(param: Param)

  /**
   * The mutable state: the committed value, whether the caller owns it,
   * the anchor (the page shown), the inner view and the one-shot flag that
   * is set at the first committed selection.
   */
  datatype State = State(
    value: Option<DateTime>,
    controlled: bool,
    anchor: DateTime,
    view: View,
    timeSeeded: bool)

  datatype Outcome = Outcome(state: State, events: seq<Event>)

  /** A clicked cell: a decade by its first year, a year, a quarter 0..3, a month 0..11, a day. */
  datatype Cell =
    | DecadeCell(startYear: int)
    | YearCell(year: int)
    | QuarterCell(quarter: int)
    | MonthCell(month: int)
    | DateCell(day: int)

  predicate ValidProps(p: Props) {
    && Valid(p.now)
    && (p.showTime.Some? && p.showTime.value.defaultValue.Some? ==> Valid(p.showTime.value.defaultValue.value))
  }

  predicate ValidState(s: State) {
    Valid(s.anchor) && (s.value.Some? ==> Valid(s.value.value))
  }

  /** The view on screen: the `mode` property when given, else the inner view. */
  function Shown(p: Props, s: State): View {
    p.mode.GetOr(s.view)
  }

  /** Selections commit only on the picker's own view. */
  predicate AtLeaf(p: Props, s: State) {
    Shown(p, s) == DefaultView(p.picker)
  }

  function TimeOptionsOf(p: Props): TimeOptions {
    match p.showTime
    case Some(st) => st.options
    case None => p.time
  }

  /** The time columns are on screen in the time view and in the date view with `showTime`. */
  predicate TimeShown(p: Props, view: View) {
    view == Time || (view == Date && p.showTime.Some?)
  }

  predicate IsInvalid(v: Option<DateTime>) {
    v.Some? && !Valid(v.value)
  }

  /** An invalid date is treated as no date. */
  function Sanitize(v: Option<DateTime>): (r: Option<DateTime>)
    ensures r.Some? ==> Valid(r.value) && r == v
    ensures r.None? ==> v.None? || IsInvalid(v)
  {
    if IsInvalid(v) then None else v
  }

  predicate HasPanelChange(events: seq<Event>) {
    exists e :: e in events && e.PanelChange?
  }

  /** The date of the latest onChange in `events`, if there is one. */
  function LastChange(events: seq<Event>): Option<DateTime> {
    if events == [] then None
    else if events[|events| - 1].Change? then Some(events[|events| - 1].date)
    else LastChange(events[..|events| - 1])
  }

  /** LastChange finds a change exactly when there is one, and names one that is there. */
  lemma {:induction false} LastChangeMeans(events: seq<Event>)
    ensures LastChange(events).Some? <==> exists e :: e in events && e.Change?
    ensures LastChange(events).Some? ==> Change(LastChange(events).value) in events
  {
    if events != [] {
      var init := events[..|events| - 1];
      assert events == init + [events[|events| - 1]];
      LastChangeMeans(init);
    }
  }

  /**
   * For a panel that owns its value: the value after a step is the date of
   * the step's latest onChange, or the value before when it fired none.
   */
  predicate KeepsAnnounced(s: State, o: Outcome) {
    !s.controlled ==> o.state.value == (if LastChange(o.events).Some? then LastChange(o.events) else s.value)
  }

  // ---------------------------------------------------------------------
  // The steps

  /**
   * Mounting: the committed value is the `value` property when given, else
   * `defaultValue`; the anchor is that value or `now`; the view is the
   * picker's own. An invalid date property is reported once and then
   * treated as absent.
   */
  function Mount(p: Props, value: ValueProp, defaultValue: Option<DateTime>): (o: Outcome)
    requires ValidProps(p)
    ensures ValidState(o.state) && o.state.view == DefaultView(p.picker) && !o.state.timeSeeded
    ensures o.state.controlled == value.Controlled?
    ensures o.state.value == Sanitize(if value.Controlled? then value.given else defaultValue)
    ensures o.state.anchor == o.state.value.GetOr(p.now)
    ensures InvalidInput(ValueParam) in o.events <==> value.Controlled? && IsInvalid(value.given)
    ensures InvalidInput(DefaultValueParam) in o.events <==> IsInvalid(defaultValue)
    ensures forall e :: e in o.events ==> e.InvalidInput?
  {
    var committed := if value.Controlled? then Sanitize(value.given) else Sanitize(defaultValue);
    var warnings :=
      (if value.Controlled? && IsInvalid(value.given) then [InvalidInput(ValueParam)] else [])
      + (if IsInvalid(defaultValue) then [InvalidInput(DefaultValueParam)] else []);
    Outcome(State(committed, value.Controlled?, committed.GetOr(p.now), DefaultView(p.picker), false), warnings)
  }

  /** Whether `d` lies in the period the cell stands for, on the anchor's page. */
  predicate InCell(anchor: DateTime, cell: Cell, d: DateTime) {
    match cell
    case DecadeCell(y) => d.year == y && d.month == anchor.month
    case YearCell(y) => d.year == y && d.month == anchor.month
    case QuarterCell(q) => d.year == anchor.year && d.month == 3 * q && d.day == 1
    case MonthCell(m) => d.year == anchor.year && d.month == m
    case DateCell(k) => d.year == anchor.year && d.month == anchor.month && d.day == k
  }

  /**
   * The representative day of a cell of the shown page, on the anchor's
   * time of day; None when the view has no such cell. A decade page lists
   * twelve decades around the century, a year page twelve years around
   * the decade.
   */
  function CellDate(view: View, anchor: DateTime, cell: Cell): (r: Option<DateTime>)
    requires Valid(anchor)
    ensures r.Some? ==> Valid(r.value) && SameClock(r.value, anchor) && InCell(anchor, cell, r.value)
  {
    match cell
    case DecadeCell(y) =>
      var first := CenturyStart(anchor.year);
      if view == Decade && y % 10 == 0 && first - 10 <= y <= first + 100 then Some(SetYear(anchor, y)) else None
    case YearCell(y) =>
      var first := DecadeStart(anchor.year);
      if view == Year && first - 1 <= y <= first + 10 then Some(SetYear(anchor, y)) else None
    case QuarterCell(q) =>
      if view == Quarter && 0 <= q < 4 then Some(anchor.(month := 3 * q, day := 1)) else None
    case MonthCell(m) =>
      if view == Month && 0 <= m < 12 then Some(SetMonth(anchor, m)) else None
    case DateCell(k) =>
      if (view == Date || view == Week) && 1 <= k <= DaysInMonth(anchor.year, anchor.month)
      then Some(anchor.(day := k))
      else None
  }

  /**
   * Whether a date pick takes its time of day from `showTime.defaultValue`:
   * only on the date view, before the first committed selection, and only
   * while no value is committed.
   */
  predicate SeedsTime(p: Props, s: State, view: View) {
    && view == Date && !s.timeSeeded && s.value.None?
    && p.showTime.Some? && p.showTime.value.defaultValue.Some?
  }

  /** The date a cell pick produces: the cell's day, with the seeded time of day if it applies. */
  function PickedDate(p: Props, s: State, view: View, cell: Cell, c: DateTime): (r: DateTime)
    requires ValidProps(p) && Valid(c)
    ensures Valid(r) && SameDate(r, c)
  {
    if cell.DateCell? && SeedsTime(p, s, view) then
      var t := p.showTime.value.defaultValue.value;
      SetClock(c, t.hour, t.minute, t.second)
    else c
  }

  /**
   * A selection on the picker's own view: onSelect always, onChange unless
   * the date equals the committed value; the panel keeps the date only
   * when it owns its value.
   */
  function Commit(s: State, d: DateTime): (o: Outcome)
    ensures 1 <= |o.events| && o.events[0] == Select(d)
    ensures Change(d) in o.events <==> s.value != Some(d)
    ensures forall e :: e in o.events ==> e == Select(d) || e == Change(d)
    ensures s.controlled ==> o.state.value == s.value
    ensures !s.controlled ==> o.state.value == Some(d)
    ensures o.state.timeSeeded
    ensures o.state.anchor == s.anchor && o.state.view == s.view && o.state.controlled == s.controlled
  {
    Outcome(
      s.(value := if s.controlled then s.value else Some(d), timeSeeded := true),
      [Select(d)] + (if s.value == Some(d) then [] else [Change(d)]))
  }

  /**
   * A cell click. A missing or disabled cell does nothing. Otherwise the
   * anchor moves to the picked date, a coarser view drills down one level
   * (onPanelChange fires when the view this asks for is not the one on
   * screen), and on the picker's own view the pick is committed.
   */
  function SelectCell(p: Props, s: State, cell: Cell): (o: Outcome)
    requires ValidProps(p) && ValidState(s)
    ensures ValidState(o.state) && o.state.controlled == s.controlled
    ensures s.controlled ==> o.state.value == s.value
  {
    var shown := Shown(p, s);
    match CellDate(shown, s.anchor, cell)
    case None => Outcome(s, [])
    case Some(c) =>
      if CellDisabled(shown, p.disabledDate, c) then Outcome(s, [])
      else Pick(p, s, PickedDate(p, s, shown, cell, c))
  }

  /**
   * The effect of an enabled cell whose date is `d`: drill down from a
   * coarser view, move the anchor, commit on the picker's own view.
   */
  function Pick(p: Props, s: State, d: DateTime): (o: Outcome)
    requires ValidState(s) && Valid(d)
    ensures ValidState(o.state) && o.state.controlled == s.controlled && o.state.anchor == d
    ensures s.controlled ==> o.state.value == s.value
  {
    var shown := Shown(p, s);
    var next := DrillDown(p.picker, shown);
    var panel := if next != shown then [PanelChange(d, next)] else [];
    var s1 := s.(anchor := d, view := if DrillTarget(shown).Some? then next else s.view);
    if shown == DefaultView(p.picker) then
      var o := Commit(s1, d);
      Outcome(o.state, panel + o.events)
    else Outcome(s1, panel)
  }

  /** A prev / next / super-prev / super-next button: moves the anchor only, fires nothing. */
  function NavigateStep(p: Props, s: State, dir: Direction): (o: Outcome)
    requires ValidState(s)
    ensures ValidState(o.state) && o.events == []
    ensures o.state.value == s.value && o.state.view == s.view && o.state.controlled == s.controlled
    ensures o.state.timeSeeded == s.timeSeeded
    ensures Navigate(Shown(p, s), dir, s.anchor).Some? ==> o.state.anchor == Navigate(Shown(p, s), dir, s.anchor).value
    ensures Navigate(Shown(p, s), dir, s.anchor).None? ==> o.state == s
  {
    match Navigate(Shown(p, s), dir, s.anchor)
    case None => Outcome(s, [])
    case Some(a) => Outcome(s.(anchor := a), [])
  }

  /** A header button that opens a coarser view (the "year", "month" or "decade" button). */
  function HeaderButton(p: Props, s: State, target: View): (o: Outcome)
    requires ValidState(s)
    ensures ValidState(o.state) && o.state.value == s.value && o.state.anchor == s.anchor
  {
    var shown := Shown(p, s);
    if target !in HeaderButtons(shown) then Outcome(s, [])
    else
      var next := NextMode(p.picker, target);
      Outcome(s.(view := next), if next != shown then [PanelChange(s.anchor, next)] else [])
  }

  /**
   * A click on entry `index` of a time column. A disabled or missing entry
   * does nothing; otherwise the anchor takes the new time and on the
   * picker's own view it is committed at once.
   */
  function ClickTime(p: Props, s: State, kind: ColumnKind, index: nat): (o: Outcome)
    requires ValidProps(p) && ValidState(s)
    ensures ValidState(o.state) && o.state.view == s.view && o.state.controlled == s.controlled
    ensures s.controlled ==> o.state.value == s.value
    ensures !HasPanelChange(o.events)
    ensures var r := ClickResult(TimeOptionsOf(p), s.value, p.now, kind, index);
      && (!TimeShown(p, Shown(p, s)) || r.None? ==> o == Outcome(s, []))
      && (TimeShown(p, Shown(p, s)) && r.Some? && AtLeaf(p, s) ==> o == Commit(s.(anchor := r.value), r.value))
      && (TimeShown(p, Shown(p, s)) && r.Some? && !AtLeaf(p, s) ==> o == Outcome(s.(anchor := r.value), []))
  {
    var shown := Shown(p, s);
    if !TimeShown(p, shown) then Outcome(s, [])
    else
      match ClickResult(TimeOptionsOf(p), s.value, p.now, kind, index)
      case None => Outcome(s, [])
      case Some(d) =>
        var s1 := s.(anchor := d);
        if shown == DefaultView(p.picker) then Commit(s1, d) else Outcome(s1, [])
  }

  /** The OK button: onOk with the committed value; nothing without one. */
  function Confirm(p: Props, s: State): (o: Outcome)
    ensures o.state == s
    ensures s.value.Some? ==> o.events == [Ok(s.value.value)]
    ensures s.value.None? <==> o.events == []
  {
    match s.value
    case Some(v) => Outcome(s, [Ok(v)])
    case None => Outcome(s, [])
  }

  /** A new `value` property: the caller now owns the value; the anchor follows a given date. */
  function SetValue(p: Props, s: State, v: Option<DateTime>): (o: Outcome)
    requires ValidState(s)
    ensures ValidState(o.state) && o.state.controlled && o.state.value == Sanitize(v)
    ensures o.state.view == s.view && o.state.timeSeeded == s.timeSeeded
    ensures o.events == (if IsInvalid(v) then [InvalidInput(ValueParam)] else [])
  {
    var given := Sanitize(v);
    Outcome(
      s.(value := given, controlled := true, anchor := given.GetOr(s.anchor)),
      if IsInvalid(v) then [InvalidInput(ValueParam)] else [])
  }

  // ---------------------------------------------------------------------
  // Properties of the steps

  /** Mounting with an invalid date behaves as mounting without it, apart from the diagnostic. */
  lemma InvalidInputIsAbsent(p: Props, bad: DateTime, defaultValue: Option<DateTime>)
    requires ValidProps(p) && !Valid(bad)
    ensures Mount(p, Controlled(Some(bad)), defaultValue).state == Mount(p, Controlled(None), defaultValue).state
    ensures Mount(p, Uncontrolled, Some(bad)).state == Mount(p, Uncontrolled, None).state
    ensures Mount(p, Uncontrolled, Some(bad)).events == [InvalidInput(DefaultValueParam)]
  {
  }

  /**
   * onSelect fires exactly when the clicked cell is on the page, is not
   * disabled, and the view on screen is the picker's own.
   */
  lemma SelectFiresIff(p: Props, s: State, cell: Cell)
    requires ValidProps(p) && ValidState(s)
    ensures (exists e :: e in SelectCell(p, s, cell).events && e.Select?)
        <==> && CellDate(Shown(p, s), s.anchor, cell).Some?
             && !CellDisabled(Shown(p, s), p.disabledDate, CellDate(Shown(p, s), s.anchor, cell).value)
             && AtLeaf(p, s)
  {
    var o := SelectCell(p, s, cell);
    var shown := Shown(p, s);
    var cd := CellDate(shown, s.anchor, cell);
    if cd.Some? && !CellDisabled(shown, p.disabledDate, cd.value) && AtLeaf(p, s) {
      var d := PickedDate(p, s, shown, cell, cd.value);
      assert Select(d) in o.events;
    }
  }

  /**
   * With nothing hidden, a click on an entry of a time column fires onSelect
   * exactly when the columns are on screen, the view is the picker's own and
   * the entry is not disabled; a disabled entry changes nothing and fires nothing.
   */
  lemma TimeSelectFiresIff(p: Props, s: State, kind: ColumnKind, x: nat)
    requires ValidProps(p) && ValidState(s) && !TimeOptionsOf(p).hideDisabledOptions
    requires UnitInRange(TimeOptionsOf(p), kind, x)
    requires kind == SecondColumn ==> TimeOptionsOf(p).showSecond
    requires kind == MeridiemColumn ==> TimeOptionsOf(p).use12Hours
    ensures (exists e :: e in ClickTime(p, s, kind, x).events && e.Select?)
        <==> && TimeShown(p, Shown(p, s))
             && AtLeaf(p, s)
             && !EntryDisabled(TimeOptionsOf(p), SelectedClock(s.value), kind, x)
    ensures EntryDisabled(TimeOptionsOf(p), SelectedClock(s.value), kind, x) ==> ClickTime(p, s, kind, x) == Outcome(s, [])
  {
    ClickTakesEnabledEntry(TimeOptionsOf(p), s.value, p.now, kind, x);
    var r := ClickResult(TimeOptionsOf(p), s.value, p.now, kind, x);
    if TimeShown(p, Shown(p, s)) && AtLeaf(p, s) && r.Some? {
      assert Select(r.value) in ClickTime(p, s, kind, x).events;
    }
  }

  /** A disabled cell, or one not on the page, changes nothing and fires nothing. */
  lemma DisabledCellIsIgnored(p: Props, s: State, cell: Cell)
    requires ValidProps(p) && ValidState(s)
    requires CellDate(Shown(p, s), s.anchor, cell).None?
          || CellDisabled(Shown(p, s), p.disabledDate, CellDate(Shown(p, s), s.anchor, cell).value)
    ensures SelectCell(p, s, cell) == Outcome(s, [])
  {
  }

  /**
   * A committed pick announces onChange exactly when it differs from the
   * committed value, and the panel keeps it exactly when it owns its value.
   */
  lemma ChangeIffNew(p: Props, s: State, cell: Cell)
    requires ValidProps(p) && ValidState(s) && AtLeaf(p, s)
    requires CellDate(Shown(p, s), s.anchor, cell).Some?
    requires !CellDisabled(Shown(p, s), p.disabledDate, CellDate(Shown(p, s), s.anchor, cell).value)
    ensures var d := PickedDate(p, s, Shown(p, s), cell, CellDate(Shown(p, s), s.anchor, cell).value);
      var o := SelectCell(p, s, cell);
      && o.events == [Select(d)] + (if s.value == Some(d) then [] else [Change(d)])
      && Select(d) in o.events
      && (Change(d) in o.events <==> s.value != Some(d))
      && (forall e :: e in o.events && e.Change? ==> e == Change(d))
      && o.state.value == (if s.controlled then s.value else Some(d))
      && o.state.anchor == d
  {
    var shown := Shown(p, s);
    var d := PickedDate(p, s, shown, cell, CellDate(shown, s.anchor, cell).value);
    var o := SelectCell(p, s, cell);
    LeafIsFixed(p.picker);
    assert DrillDown(p.picker, shown) == shown;
    assert o.events == [Select(d)] + (if s.value == Some(d) then [] else [Change(d)]);
  }

  /** Clicking the cell of the date just picked picks the same date again. */
  lemma CellDateIdempotent(view: View, a: DateTime, cell: Cell)
    requires Valid(a) && CellDate(view, a, cell).Some?
    ensures CellDate(view, CellDate(view, a, cell).value, cell) == CellDate(view, a, cell)
  {
  }

  /**
   * Picking the same cell twice on the picker's own view: the second pick
   * leaves the state as the first left it, fires onSelect again, and fires
   * onChange again exactly when the first pick was not kept as the value.
   */
  lemma RepickAtLeaf(p: Props, s: State, cell: Cell)
    requires ValidProps(p) && ValidState(s) && AtLeaf(p, s)
    requires CellDate(Shown(p, s), s.anchor, cell).Some?
    requires !CellDisabled(Shown(p, s), p.disabledDate, CellDate(Shown(p, s), s.anchor, cell).value)
    ensures var o1 := SelectCell(p, s, cell);
      var o2 := SelectCell(p, o1.state, cell);
      var d := o1.state.anchor;
      && o2.state == o1.state
      && o2.events == [Select(d)] + (if o1.state.value == Some(d) then [] else [Change(d)])
      && o1.state.timeSeeded && Shown(p, o1.state) == Shown(p, s)
      && CellDate(Shown(p, s), d, cell) == Some(d)
      && !CellDisabled(Shown(p, s), p.disabledDate, d)
  {
    var shown := Shown(p, s);
    var c := CellDate(shown, s.anchor, cell).value;
    var o1 := SelectCell(p, s, cell);
    var d := PickedDate(p, s, shown, cell, c);
    ChangeIffNew(p, s, cell);
    LeafIsFixed(p.picker);
    assert o1.state.anchor == d && o1.state.timeSeeded;
    assert Shown(p, o1.state) == shown;
    assert CellDate(shown, d, cell) == Some(d) by {
      if !cell.DateCell? {
        assert d == c;
        CellDateIdempotent(shown, s.anchor, cell);
      }
    }
    DisabledIgnoresClock(shown, p.disabledDate, c, d);
    assert PickedDate(p, o1.state, shown, cell, d) == d;
    ChangeIffNew(p, o1.state, cell);
  }

  /**
   * With a controlled value the caller has not adopted, picking the same
   * cell again fires onChange with the same date again.
   */
  lemma ControlledRepickFiresAgain(p: Props, s: State, cell: Cell)
    requires ValidProps(p) && ValidState(s) && AtLeaf(p, s) && s.controlled
    requires CellDate(Shown(p, s), s.anchor, cell).Some?
    requires !CellDisabled(Shown(p, s), p.disabledDate, CellDate(Shown(p, s), s.anchor, cell).value)
    requires exists e :: e in SelectCell(p, s, cell).events && e.Change?
    ensures var o1 := SelectCell(p, s, cell);
      var d := o1.state.anchor;
      && Change(d) in o1.events
      && Change(d) in SelectCell(p, o1.state, cell).events
      && o1.state.value == s.value
  {
    ChangeIffNew(p, s, cell);
    RepickAtLeaf(p, s, cell);
  }

  /** When the panel owns its value, an identical second pick fires onSelect but no onChange. */
  lemma UncontrolledRepickIsSilent(p: Props, s: State, cell: Cell)
    requires ValidProps(p) && ValidState(s) && AtLeaf(p, s) && !s.controlled
    requires CellDate(Shown(p, s), s.anchor, cell).Some?
    requires !CellDisabled(Shown(p, s), p.disabledDate, CellDate(Shown(p, s), s.anchor, cell).value)
    ensures var o1 := SelectCell(p, s, cell);
      SelectCell(p, o1.state, cell).events == [Select(o1.state.anchor)]
  {
    ChangeIffNew(p, s, cell);
    RepickAtLeaf(p, s, cell);
  }

  /**
   * Once the caller adopts the picked date as the controlled value, picking
   * the same cell fires no onChange.
   */
  lemma AdoptedValueIsSilent(p: Props, s: State, cell: Cell)
    requires ValidProps(p) && ValidState(s) && AtLeaf(p, s)
    requires CellDate(Shown(p, s), s.anchor, cell).Some?
    requires !CellDisabled(Shown(p, s), p.disabledDate, CellDate(Shown(p, s), s.anchor, cell).value)
    ensures var o1 := SelectCell(p, s, cell);
      var d := o1.state.anchor;
      var s2 := SetValue(p, o1.state, Some(d)).state;
      SelectCell(p, s2, cell).events == [Select(d)]
  {
    var o1 := SelectCell(p, s, cell);
    var d := o1.state.anchor;
    var s2 := SetValue(p, o1.state, Some(d)).state;
    RepickAtLeaf(p, s, cell);
    assert s2 == o1.state.(value := Some(d), controlled := true);
    assert Shown(p, s2) == Shown(p, s) && !SeedsTime(p, s2, Shown(p, s));
    ChangeIffNew(p, s2, cell);
  }

  /**
   * The first date pick with no committed value takes its time of day from
   * `showTime.defaultValue`; every pick that commits ends the seeding.
   */
  lemma FirstPickSeedsTime(p: Props, s: State, day: int)
    requires ValidProps(p) && ValidState(s) && SeedsTime(p, s, Shown(p, s))
    requires CellDate(Shown(p, s), s.anchor, DateCell(day)).Some?
    requires !CellDisabled(Shown(p, s), p.disabledDate, CellDate(Shown(p, s), s.anchor, DateCell(day)).value)
    ensures var o := SelectCell(p, s, DateCell(day));
      var t := p.showTime.value.defaultValue.value;
      && SameClock(o.state.anchor, t)
      && SameDate(o.state.anchor, CellDate(Shown(p, s), s.anchor, DateCell(day)).value)
      && (AtLeaf(p, s) ==> Select(o.state.anchor) in o.events && o.state.timeSeeded)
  {
  }

  /**
   * Without seeding (a value is committed, a pick was already committed,
   * or there is no default), a date pick keeps the anchor's time of day:
   * the last selected time is carried forward.
   */
  lemma PickKeepsAnchorClock(p: Props, s: State, cell: Cell)
    requires ValidProps(p) && ValidState(s) && !SeedsTime(p, s, Shown(p, s))
    ensures SameClock(SelectCell(p, s, cell).state.anchor, s.anchor)
  {
  }

  /**
   * A time-column click in the date view of a date-time picker, followed by
   * a date pick: the new date carries the clicked time of day.
   */
  lemma TimeCarriedForward(p: Props, s: State, kind: ColumnKind, index: nat, day: int)
    requires ValidProps(p) && ValidState(s) && AtLeaf(p, s) && Shown(p, s) == Date && p.showTime.Some?
    requires ClickResult(TimeOptionsOf(p), s.value, p.now, kind, index).Some?
    ensures var clicked := ClickResult(TimeOptionsOf(p), s.value, p.now, kind, index).value;
      var o1 := ClickTime(p, s, kind, index);
      var o2 := SelectCell(p, o1.state, DateCell(day));
      && Select(clicked) in o1.events
      && SameClock(o2.state.anchor, clicked)
  {
    var o1 := ClickTime(p, s, kind, index);
    assert o1.state.timeSeeded;
    PickKeepsAnchorClock(p, o1.state, DateCell(day));
  }

  /**
   * Without a `mode` property, a cell click fires onPanelChange exactly
   * when it changes the view, and names the view it changes to.
   */
  lemma CellPanelChangeIffViewChanges(p: Props, s: State, cell: Cell)
    requires ValidProps(p) && ValidState(s) && p.mode.None?
    ensures var o := SelectCell(p, s, cell);
      && (HasPanelChange(o.events) <==> o.state.view != s.view)
      && (forall e :: e in o.events && e.PanelChange? ==> e.view == o.state.view)
  {
    var o := SelectCell(p, s, cell);
    var shown := Shown(p, s);
    match CellDate(shown, s.anchor, cell)
    case None =>
    case Some(c) =>
      if !CellDisabled(shown, p.disabledDate, c) {
        var d := PickedDate(p, s, shown, cell, c);
        var next := DrillDown(p.picker, shown);
        if next != shown {
          assert PanelChange(d, next) in o.events;
        }
      }
  }

  /**
   * Under any `mode` property, onPanelChange only ever names a view other
   * than the one on screen, so a date-cell pick on the date view fires none.
   */
  lemma PanelChangeNamesOtherView(p: Props, s: State, cell: Cell, target: View)
    requires ValidProps(p) && ValidState(s)
    ensures forall e :: e in SelectCell(p, s, cell).events && e.PanelChange? ==> e.view != Shown(p, s)
    ensures forall e :: e in HeaderButton(p, s, target).events && e.PanelChange? ==> e.view != Shown(p, s)
    ensures Shown(p, s) == Date ==> !HasPanelChange(SelectCell(p, s, cell).events)
  {
  }

  /**
   * A header button fires onPanelChange exactly when it is on the header
   * and opens a view other than the one on screen; without a `mode`
   * property that view is then shown.
   */
  lemma HeaderPanelChangeIff(p: Props, s: State, target: View)
    requires ValidState(s)
    ensures var o := HeaderButton(p, s, target);
      && (HasPanelChange(o.events) <==> target in HeaderButtons(Shown(p, s)) && NextMode(p.picker, target) != Shown(p, s))
      && (p.mode.None? && target in HeaderButtons(Shown(p, s)) ==> Shown(p, o.state) == NextMode(p.picker, target))
  {
    var o := HeaderButton(p, s, target);
    if target in HeaderButtons(Shown(p, s)) && NextMode(p.picker, target) != Shown(p, s) {
      assert PanelChange(s.anchor, NextMode(p.picker, target)) in o.events;
    }
  }

  /** Without a `mode` property the inner view stays among the picker's reachable views. */
  lemma ViewStaysReachable(p: Props, s: State, cell: Cell, target: View)
    requires ValidProps(p) && ValidState(s) && p.mode.None? && s.view in Reachable(p.picker)
    ensures SelectCell(p, s, cell).state.view in Reachable(p.picker)
    ensures HeaderButton(p, s, target).state.view in Reachable(p.picker)
  {
    ReachableIsClosed(p.picker, s.view, target);
  }

  /** A pick on the picker's own view never leaves it. */
  lemma LeafPickKeepsView(p: Props, s: State, cell: Cell)
    requires ValidProps(p) && ValidState(s) && AtLeaf(p, s)
    ensures Shown(p, SelectCell(p, s, cell).state) == Shown(p, s)
  {
    LeafIsFixed(p.picker);
  }

  /** The latest onChange of a concatenation is the later part's, when it has one. */
  lemma {:induction false} LastChangeAppend(a: seq<Event>, b: seq<Event>)
    ensures LastChange(a + b) == (if LastChange(b).Some? then LastChange(b) else LastChange(a))
  {
    if b == [] {
      assert a + b == a;
    } else {
      assert (a + b)[..|a + b| - 1] == a + b[..|b| - 1];
      LastChangeAppend(a, b[..|b| - 1]);
    }
  }

  /** Events that announce no change, followed by a commit, keep the announced value. */
  lemma CommitAnnounces(s: State, s1: State, prefix: seq<Event>, d: DateTime)
    requires !s1.controlled && s1.value == s.value && LastChange(prefix).None?
    ensures var o := Commit(s1, d); KeepsAnnounced(s, Outcome(o.state, prefix + o.events))
  {
    var tail := if s.value == Some(d) then [] else [Change(d)];
    LastChangeAppend(prefix, [Select(d)] + tail);
    LastChangeAppend([Select(d)], tail);
  }

  /** A pick by a panel that owns its value keeps the date it last announced. */
  lemma PickKeepsAnnounced(p: Props, s: State, d: DateTime)
    requires ValidProps(p) && ValidState(s) && !s.controlled && Valid(d)
    ensures KeepsAnnounced(s, Pick(p, s, d))
  {
    var shown := Shown(p, s);
    var next := DrillDown(p.picker, shown);
    var panel := if next != shown then [PanelChange(d, next)] else [];
    assert LastChange(panel).None? by {
      if next != shown {
        assert panel[..0] == [];
      }
    }
    if shown == DefaultView(p.picker) {
      var s1 := s.(anchor := d, view := if DrillTarget(shown).Some? then next else s.view);
      CommitAnnounces(s, s1, panel, d);
    }
  }

  /** A cell click by a panel that owns its value keeps the date it last announced. */
  lemma CellKeepsAnnounced(p: Props, s: State, cell: Cell)
    requires ValidProps(p) && ValidState(s) && !s.controlled
    ensures KeepsAnnounced(s, SelectCell(p, s, cell))
  {
    var shown := Shown(p, s);
    match CellDate(shown, s.anchor, cell)
    case None =>
    case Some(c) =>
      if !CellDisabled(shown, p.disabledDate, c) {
        var d := PickedDate(p, s, shown, cell, c);
        assert SelectCell(p, s, cell) == Pick(p, s, d);
        PickKeepsAnnounced(p, s, d);
      }
  }

  /** A time click by a panel that owns its value keeps the date it last announced. */
  lemma TimeKeepsAnnounced(p: Props, s: State, kind: ColumnKind, index: nat)
    requires ValidProps(p) && ValidState(s) && !s.controlled
    ensures KeepsAnnounced(s, ClickTime(p, s, kind, index))
  {
    var shown := Shown(p, s);
    var r := ClickResult(TimeOptionsOf(p), s.value, p.now, kind, index);
    if TimeShown(p, shown) && r.Some? && shown == DefaultView(p.picker) {
      var s1 := s.(anchor := r.value);
      assert ClickTime(p, s, kind, index) == Commit(s1, r.value);
      CommitAnnounces(s, s1, [], r.value);
      assert [] + Commit(s1, r.value).events == Commit(s1, r.value).events;
    }
  }

  /** A panel that owns its value always holds the date it last announced through onChange. */
  lemma OwnValueIsLastAnnounced(p: Props, s: State, cell: Cell, kind: ColumnKind, index: nat)
    requires ValidProps(p) && ValidState(s) && !s.controlled
    ensures KeepsAnnounced(s, SelectCell(p, s, cell))
    ensures KeepsAnnounced(s, ClickTime(p, s, kind, index))
  {
    CellKeepsAnnounced(p, s, cell);
    TimeKeepsAnnounced(p, s, kind, index);
  }
}
