/**
 * The time column builder: the hour, minute, second and AM/PM lists of the
 * time panel with their labels and disabled flags, and what clicking an
 * entry does to the time of day.
 */
module TimeColumns {
  import opened Wrappers
  import opened Calendar
  import opened Disablement

  /** One list entry: its text, the value a click passes on, and whether it is disabled. */
  datatype Unit = Unit(text: string, value: int, disabled: bool)

  datatype ColumnKind = HourColumn | MinuteColumn | SecondColumn | MeridiemColumn

  datatype Column = Column(kind: ColumnKind, units: seq<Unit>)

  /** `use12Hours`, `showSecond`, `hideDisabledOptions` and the time rules. */
  datatype TimeOptions = TimeOptions(
    use12Hours: bool,
    showSecond: bool,
    hideDisabledOptions: bool,
    rules: TimeRules)

  function DefaultTimeOptions(): TimeOptions {
    TimeOptions(false, true, false, NoTimeRules())
  }

  /** The selected hour, minute and second; -1 each when no value is committed. */
  datatype Clock = Clock(hour: int, minute: int, second: int)

  predicate ClockOrUnset(c: Clock) {
    && (c.hour == -1 || 0 <= c.hour < 24)
    && (c.minute == -1 || 0 <= c.minute < 60)
    && (c.second == -1 || 0 <= c.second < 60)
  }

  function SelectedClock(value: Option<DateTime>): Clock {
    match value
    case Some(v) => Clock(v.hour, v.minute, v.second)
    case None => Clock(-1, -1, -1)
  }

  function Pad2(n: int): (s: string)
    requires 0 <= n < 100
    ensures |s| == 2
  {
    [(48 + n / 10) as char, (48 + n % 10) as char]
  }

  /** The text of 24-hour hour `h`; on a 12-hour clock midnight and noon read "12". */
  function HourLabel(use12Hours: bool, h: int): (s: string)
    requires 0 <= h < 24
    ensures |s| == 2
  {
    if !use12Hours then Pad2(h)
    else if h % 12 == 0 then "12"
    else Pad2(h % 12)
  }

  /** The entries lo, lo+1, ..., lo+count-1, each disabled when it is in `disabled`. */
  function Units(lo: int, count: nat, disabled: set<int>): seq<Unit>
    requires 0 <= lo && lo + count <= 100
  {
    seq(count, k requires 0 <= k < count => Unit(Pad2(lo + k), lo + k, lo + k in disabled))
  }

  /** All 24 hours, flagged by `disabledHours`. */
  function RawHours(rules: TimeRules): seq<Unit> {
    Units(0, 24, rules.disabledHours)
  }

  predicate IsPM(opts: TimeOptions, c: Clock) {
    opts.use12Hours && c.hour >= 12
  }

  /** The first 24-hour hour of the half day the hour column lists (12 in the afternoon). */
  function HalfStart(opts: TimeOptions, c: Clock): int {
    if IsPM(opts, c) then 12 else 0
  }

  /** The 24-hour hour that an hour entry with value `v` stands for. */
  function EntryHour(opts: TimeOptions, c: Clock, v: int): int {
    HalfStart(opts, c) + v
  }

  /**
   * The hour entries. On a 12-hour clock only the selected half day is
   * listed, with values 0..11 and labels 12, 01, ..., 11.
   */
  function HourUnits(opts: TimeOptions, c: Clock): (r: seq<Unit>)
    ensures |r| == (if opts.use12Hours then 12 else 24)
    ensures forall k :: 0 <= k < |r| ==>
              && r[k].value == k
              && r[k].text == HourLabel(opts.use12Hours, EntryHour(opts, c, k))
              && (r[k].disabled <==> EntryHour(opts, c, k) in opts.rules.disabledHours)
  {
    if !opts.use12Hours then RawHours(opts.rules)
    else HalfDay(opts.rules, HalfStart(opts, c))
  }

  /** The twelve hours from `base`, with 12-hour labels and values 0..11. */
  function HalfDay(rules: TimeRules, base: int): seq<Unit>
    requires base == 0 || base == 12
  {
    seq(12, k requires 0 <= k < 12 => Unit(HourLabel(true, base + k), k, base + k in rules.disabledHours))
  }

  /** Whether every entry of `units` whose value is in [lo, hi) is disabled. */
  function AllDisabledIn(units: seq<Unit>, lo: int, hi: int): bool {
    if units == [] then true
    else (units[0].disabled || !(lo <= units[0].value < hi)) && AllDisabledIn(units[1..], lo, hi)
  }

  /** AM (value 0) and PM (value 1); each is disabled when its whole half day of hours is. */
  function MeridiemUnits(rules: TimeRules): (r: seq<Unit>)
    ensures |r| == 2 && r[0].text == "AM" && r[0].value == 0 && r[1].text == "PM" && r[1].value == 1
  {
    var raw := RawHours(rules);
    [Unit("AM", 0, AllDisabledIn(raw, 0, 12)), Unit("PM", 1, AllDisabledIn(raw, 12, 24))]
  }

  /** The entries that are not disabled, in their order. */
  function HideDisabled(units: seq<Unit>): (r: seq<Unit>)
    ensures |r| <= |units|
    ensures forall u :: u in r ==> u in units && !u.disabled
    ensures (forall k :: 0 <= k < |units| ==> !units[k].disabled) ==> r == units
    ensures (forall k :: 0 <= k < |units| ==> units[k].disabled) ==> r == []
  {
    if units == [] then []
    else if units[0].disabled then HideDisabled(units[1..])
    else [units[0]] + HideDisabled(units[1..])
  }

  function Visible(units: seq<Unit>, hiding: bool): seq<Unit> {
    if hiding then HideDisabled(units) else units
  }

  /**
   * The columns of the time panel: hours and minutes, then seconds when
   * `showSecond`, then AM/PM when `use12Hours`. The minute and second rules
   * are asked with the selected 24-hour hour (and minute).
   */
  function Columns(opts: TimeOptions, value: Option<DateTime>): (cols: seq<Column>)
    ensures |cols| == 2 + (if opts.showSecond then 1 else 0) + (if opts.use12Hours then 1 else 0)
    ensures cols[0].kind == HourColumn && cols[1].kind == MinuteColumn
    ensures opts.showSecond ==> cols[2].kind == SecondColumn
    ensures opts.use12Hours ==> cols[|cols| - 1].kind == MeridiemColumn
    ensures forall i, j :: 0 <= i < j < |cols| ==> cols[i].kind != cols[j].kind
  {
    var c := SelectedClock(value);
    var hiding := opts.hideDisabledOptions;
    [Column(HourColumn, Visible(HourUnits(opts, c), hiding)),
     Column(MinuteColumn, Visible(Units(0, 60, opts.rules.disabledMinutes(c.hour)), hiding))]
    + (if opts.showSecond
       then [Column(SecondColumn, Visible(Units(0, 60, opts.rules.disabledSeconds(c.hour, c.minute)), hiding))]
       else [])
    + (if opts.use12Hours then [Column(MeridiemColumn, Visible(MeridiemUnits(opts.rules), hiding))] else [])
  }

  function FindColumn(cols: seq<Column>, kind: ColumnKind): (r: Option<Column>)
    ensures r.Some? ==> r.value in cols && r.value.kind == kind
    ensures r.None? ==> forall col :: col in cols ==> col.kind != kind
  {
    if cols == [] then None
    else if cols[0].kind == kind then Some(cols[0])
    else FindColumn(cols[1..], kind)
  }

  /** The values a column of `kind` can pass to a click. */
  predicate UnitInRange(opts: TimeOptions, kind: ColumnKind, v: int) {
    match kind
    case HourColumn => 0 <= v < (if opts.use12Hours then 12 else 24)
    case MinuteColumn => 0 <= v < 60
    case SecondColumn => 0 <= v < 60
    case MeridiemColumn => 0 <= v < 2
  }

  /** The hour the hour column shows as selected: the hour within the half day on a 12-hour clock. */
  function ShownHour(opts: TimeOptions, c: Clock): int {
    if opts.use12Hours && c.hour >= 0 then c.hour % 12 else c.hour
  }

  /**
   * Set the time of day from the column picks; an unset field (-1) becomes
   * 0, and on a 12-hour clock PM adds 12 to the hour.
   */
  function SetTime(opts: TimeOptions, base: DateTime, pm: bool, h: int, m: int, s: int): (r: DateTime)
    requires Valid(base)
    requires -1 <= h < (if opts.use12Hours then 12 else 24) && -1 <= m < 60 && -1 <= s < 60
    ensures Valid(r) && SameDate(r, base)
    ensures r.hour == Max(0, h) + (if opts.use12Hours && pm then 12 else 0)
    ensures r.minute == Max(0, m) && r.second == Max(0, s)
  {
    var h0 := Max(0, h);
    SetClock(base, if !opts.use12Hours || !pm then h0 else h0 + 12, Max(0, m), Max(0, s))
  }

  /**
   * The date-time a click on an entry with value `v` of a `kind` column
   * produces: the clicked field takes the entry, the others keep the
   * selected clock (0 where it is unset), and AM/PM moves the hour into
   * its half day.
   */
  function ApplyUnit(opts: TimeOptions, base: DateTime, c: Clock, kind: ColumnKind, v: int): (r: DateTime)
    requires Valid(base) && ClockOrUnset(c) && UnitInRange(opts, kind, v)
    ensures Valid(r) && SameDate(r, base)
    ensures r.hour == (match kind
                       case HourColumn => EntryHour(opts, c, v)
                       case MeridiemColumn => Max(0, ShownHour(opts, c)) + (if opts.use12Hours && v == 1 then 12 else 0)
                       case _ => Max(0, c.hour))
    ensures r.minute == (if kind == MinuteColumn then v else Max(0, c.minute))
    ensures r.second == (if kind == SecondColumn then v else Max(0, c.second))
  {
    var pm := IsPM(opts, c);
    var h := ShownHour(opts, c);
    match kind
    case HourColumn => SetTime(opts, base, pm, v, c.minute, c.second)
    case MinuteColumn => SetTime(opts, base, pm, h, v, c.second)
    case SecondColumn => SetTime(opts, base, pm, h, c.minute, v)
    case MeridiemColumn => SetTime(opts, base, v == 1, h, c.minute, c.second)
  }

  lemma {:induction false} HideDisabledSubset(units: seq<Unit>, u: Unit)
    requires u in HideDisabled(units)
    ensures u in units && !u.disabled
  {
  }

  /** The entries of a `kind` column before hiding. */
  function RawColumn(opts: TimeOptions, c: Clock, kind: ColumnKind): seq<Unit> {
    match kind
    case HourColumn => HourUnits(opts, c)
    case MinuteColumn => Units(0, 60, opts.rules.disabledMinutes(c.hour))
    case SecondColumn => Units(0, 60, opts.rules.disabledSeconds(c.hour, c.minute))
    case MeridiemColumn => MeridiemUnits(opts.rules)
  }

  lemma ColumnIsVisibleRaw(opts: TimeOptions, value: Option<DateTime>, col: Column)
    requires col in Columns(opts, value)
    ensures col.units == Visible(RawColumn(opts, SelectedClock(value), col.kind), opts.hideDisabledOptions)
  {
    var cols := Columns(opts, value);
    var i :| 0 <= i < |cols| && cols[i] == col;
  }

  /** Every entry of every column passes a value its kind accepts. */
  lemma ColumnUnitsInRange(opts: TimeOptions, value: Option<DateTime>, col: Column, u: Unit)
    requires col in Columns(opts, value) && u in col.units
    ensures UnitInRange(opts, col.kind, u.value)
  {
    var raw := RawColumn(opts, SelectedClock(value), col.kind);
    ColumnIsVisibleRaw(opts, value, col);
    assert u in raw by {
      if opts.hideDisabledOptions { HideDisabledSubset(raw, u); }
    }
    var k :| 0 <= k < |raw| && raw[k] == u;
  }

  /**
   * An enabled entry of a column passes a value in range that the rules
   * allow: an hour that is not disabled, a minute not disabled for the
   * selected hour, a second not disabled for the selected hour and minute.
   */
  lemma EnabledEntryAllowed(opts: TimeOptions, value: Option<DateTime>, col: Column, index: nat)
    requires col in Columns(opts, value) && index < |col.units| && !col.units[index].disabled
    ensures var c, v := SelectedClock(value), col.units[index].value;
      && UnitInRange(opts, col.kind, v)
      && (col.kind == HourColumn ==> EntryHour(opts, c, v) !in opts.rules.disabledHours)
      && (col.kind == MinuteColumn ==> v !in opts.rules.disabledMinutes(c.hour))
      && (col.kind == SecondColumn ==> v !in opts.rules.disabledSeconds(c.hour, c.minute))
  {
    var c, u := SelectedClock(value), col.units[index];
    var raw := RawColumn(opts, c, col.kind);
    ColumnUnitsInRange(opts, value, col, u);
    ColumnIsVisibleRaw(opts, value, col);
    assert u in raw by {
      if opts.hideDisabledOptions { HideDisabledSubset(raw, u); }
    }
    var k :| 0 <= k < |raw| && raw[k] == u;
  }

  /**
   * A click on entry `index` of the `kind` column: None when there is no
   * such entry or it is disabled. The base is the committed value, or the
   * current time `now` when there is none.
   */
  function ClickResult(opts: TimeOptions, value: Option<DateTime>, now: DateTime, kind: ColumnKind, index: nat)
    : (r: Option<DateTime>)
    requires Valid(now) && (value.Some? ==> Valid(value.value))
    ensures r.Some? ==> Valid(r.value) && SameDate(r.value, value.GetOr(now))
    ensures r.Some? && kind == HourColumn ==> r.value.hour !in opts.rules.disabledHours
    ensures r.Some? && kind == MinuteColumn ==>
              r.value.minute !in opts.rules.disabledMinutes(SelectedClock(value).hour)
    ensures r.Some? && kind == SecondColumn ==>
              r.value.second !in opts.rules.disabledSeconds(SelectedClock(value).hour, SelectedClock(value).minute)
  {
    match FindColumn(Columns(opts, value), kind)
    case None => None
    case Some(col) =>
      if index >= |col.units| || col.units[index].disabled then None
      else
        EnabledEntryAllowed(opts, value, col, index);
        Some(ApplyUnit(opts, value.GetOr(now), SelectedClock(value), kind, col.units[index].value))
  }

  /** Whether entry `x` of a `kind` column is disabled by the rules, for the selected clock `c`. */
  predicate EntryDisabled(opts: TimeOptions, c: Clock, kind: ColumnKind, x: int) {
    match kind
    case HourColumn => EntryHour(opts, c, x) in opts.rules.disabledHours
    case MinuteColumn => x in opts.rules.disabledMinutes(c.hour)
    case SecondColumn => x in opts.rules.disabledSeconds(c.hour, c.minute)
    case MeridiemColumn =>
      if x == 0 then forall h :: 0 <= h < 12 ==> h in opts.rules.disabledHours
      else forall h :: 12 <= h < 24 ==> h in opts.rules.disabledHours
  }

  // ---------------------------------------------------------------------
  // Properties of the columns

  lemma {:induction false} AllDisabledInMeans(units: seq<Unit>, lo: int, hi: int)
    ensures AllDisabledIn(units, lo, hi)
        <==> forall k :: 0 <= k < |units| && lo <= units[k].value < hi ==> units[k].disabled
  {
    if units != [] {
      AllDisabledInMeans(units[1..], lo, hi);
      assert forall k :: 1 <= k < |units| ==> units[k] == units[1..][k - 1];
    }
  }

  /** AM is disabled exactly when hours 0..11 are all disabled, PM exactly when 12..23 are. */
  lemma MeridiemDisabledIff(rules: TimeRules)
    ensures MeridiemUnits(rules)[0].disabled <==> forall h :: 0 <= h < 12 ==> h in rules.disabledHours
    ensures MeridiemUnits(rules)[1].disabled <==> forall h :: 12 <= h < 24 ==> h in rules.disabledHours
  {
    var raw := RawHours(rules);
    AllDisabledInMeans(raw, 0, 12);
    AllDisabledInMeans(raw, 12, 24);
    assert forall k :: 0 <= k < 24 ==> raw[k].value == k && (raw[k].disabled <==> k in rules.disabledHours);
  }

  /** Midnight and noon read "12"; other hours read their hour within the half day. */
  lemma TwelveHourLabels(h: int)
    requires 0 <= h < 24
    ensures HourLabel(true, h) == "12" <==> h == 0 || h == 12
    ensures 1 <= h < 12 ==> HourLabel(true, h) == Pad2(h)
    ensures 13 <= h < 24 ==> HourLabel(true, h) == Pad2(h - 12)
  {
    if h % 12 != 0 {
      assert Pad2(h % 12)[0] == '0' || Pad2(h % 12)[1] != '2';
    }
  }

  /**
   * On a 12-hour clock the selected hour `h` is listed at position h mod 12
   * of the hour column, with its 12-hour label, standing for `h` itself;
   * the column always starts with "12".
   */
  lemma TwelveHourColumn(opts: TimeOptions, v: DateTime)
    requires Valid(v) && opts.use12Hours && !opts.hideDisabledOptions
    ensures var units := Columns(opts, Some(v))[0].units;
      && |units| == 12
      && units[0].text == "12"
      && units[v.hour % 12].text == HourLabel(true, v.hour)
      && EntryHour(opts, SelectedClock(Some(v)), units[v.hour % 12].value) == v.hour
  {
    var c := SelectedClock(Some(v));
    var units := HourUnits(opts, c);
    assert Columns(opts, Some(v))[0].units == units;
    assert EntryHour(opts, c, 0) % 12 == 0;
    assert EntryHour(opts, c, v.hour % 12) == v.hour;
  }

  /** The hour list shown when nothing is selected on a 12-hour clock is the morning, from "12". */
  lemma TwelveHourColumnUnset(opts: TimeOptions)
    requires opts.use12Hours && !opts.hideDisabledOptions
    ensures Columns(opts, None)[0].units[0].text == "12"
    ensures forall k :: 0 <= k < 12 ==> EntryHour(opts, SelectedClock(None), Columns(opts, None)[0].units[k].value) == k
  {
    var units := HourUnits(opts, SelectedClock(None));
    assert Columns(opts, None)[0].units == units;
    assert EntryHour(opts, SelectedClock(None), 0) == 0;
  }

  /**
   * The minute rule is asked with the selected 24-hour hour and the second
   * rule with that hour and the selected minute, on either clock.
   */
  lemma RulesSeeTwentyFourHourClock(opts: TimeOptions, v: DateTime, m: int)
    requires Valid(v) && !opts.hideDisabledOptions && 0 <= m < 60
    ensures Columns(opts, Some(v))[1].units[m].disabled <==> m in opts.rules.disabledMinutes(v.hour)
    ensures opts.showSecond ==>
              (Columns(opts, Some(v))[2].units[m].disabled <==> m in opts.rules.disabledSeconds(v.hour, v.minute))
  {
  }

  /** Hiding keeps exactly the enabled entries. */
  lemma {:induction false} HideDisabledKeeps(units: seq<Unit>, u: Unit)
    ensures u in HideDisabled(units) <==> u in units && !u.disabled
  {
    if units != [] {
      HideDisabledKeeps(units[1..], u);
      assert units == [units[0]] + units[1..];
    }
  }

  /** With hiding, the list starts at the first enabled entry. */
  lemma {:induction false} HideDisabledFirst(units: seq<Unit>, k: nat)
    requires k < |units| && !units[k].disabled
    requires forall j :: 0 <= j < k ==> units[j].disabled
    ensures |HideDisabled(units)| > 0 && HideDisabled(units)[0] == units[k]
  {
    if k > 0 {
      HideDisabledFirst(units[1..], k - 1);
    }
  }

  /**
   * With hiding on a 24-hour clock, the hour column starts at the first
   * hour the rules allow.
   */
  lemma HiddenHoursStartAtFirstEnabled(opts: TimeOptions, value: Option<DateTime>, k: int)
    requires opts.hideDisabledOptions && !opts.use12Hours && 0 <= k < 24
    requires forall h :: 0 <= h < k ==> h in opts.rules.disabledHours
    requires k !in opts.rules.disabledHours
    ensures var units := Columns(opts, value)[0].units;
      |units| > 0 && units[0] == Unit(Pad2(k), k, false)
  {
    var raw := RawHours(opts.rules);
    assert Columns(opts, value)[0].units == HideDisabled(raw);
    assert forall j :: 0 <= j < k ==> raw[j].disabled;
    HideDisabledFirst(raw, k);
  }

  /**
   * On a 12-hour clock, clicking AM or PM moves the selected hour into that
   * half day and keeps its 12-hour label, the minute and the second
   * (00:01:02 with PM becomes 12:01:02).
   */
  lemma MeridiemClick(opts: TimeOptions, v: DateTime, pm: bool)
    requires Valid(v) && opts.use12Hours
    ensures var r := ApplyUnit(opts, v, SelectedClock(Some(v)), MeridiemColumn, if pm then 1 else 0);
      && r.hour == v.hour % 12 + (if pm then 12 else 0)
      && HourLabel(true, r.hour) == HourLabel(true, v.hour)
      && SameDate(r, v) && r.minute == v.minute && r.second == v.second
  {
    var c := SelectedClock(Some(v));
    var h := ShownHour(opts, c);
    assert h == v.hour % 12 && 0 <= h < 12;
    assert (v.hour % 12 + (if pm then 12 else 0)) % 12 == h;
  }

  /** A click in the hour, minute or second column changes that field alone. */
  lemma ColumnClickChangesOwnField(opts: TimeOptions, v: DateTime, kind: ColumnKind, x: int)
    requires Valid(v) && kind != MeridiemColumn && UnitInRange(opts, kind, x)
    ensures var c := SelectedClock(Some(v));
      var r := ApplyUnit(opts, v, c, kind, x);
      && SameDate(r, v)
      && r.hour == (if kind == HourColumn then EntryHour(opts, c, x) else v.hour)
      && r.minute == (if kind == MinuteColumn then x else v.minute)
      && r.second == (if kind == SecondColumn then x else v.second)
  {
  }

  /**
   * Without hiding, entry x of a shown column is the one with value x:
   * clicking it produces a date exactly when the rules do not disable it,
   * and then the date ApplyUnit gives for x.
   */
  lemma ClickTakesEnabledEntry(opts: TimeOptions, value: Option<DateTime>, now: DateTime, kind: ColumnKind, x: nat)
    requires Valid(now) && (value.Some? ==> Valid(value.value)) && !opts.hideDisabledOptions
    requires UnitInRange(opts, kind, x)
    requires kind == SecondColumn ==> opts.showSecond
    requires kind == MeridiemColumn ==> opts.use12Hours
    ensures var c := SelectedClock(value);
      && (ClickResult(opts, value, now, kind, x).Some? <==> !EntryDisabled(opts, c, kind, x))
      && (ClickResult(opts, value, now, kind, x).Some? ==>
            ClickResult(opts, value, now, kind, x).value == ApplyUnit(opts, value.GetOr(now), c, kind, x))
  {
    var c, cols := SelectedClock(value), Columns(opts, value);
    var i := match kind
      case HourColumn => 0
      case MinuteColumn => 1
      case SecondColumn => 2
      case MeridiemColumn => |cols| - 1;
    assert cols[i].kind == kind;
    var col := FindColumn(cols, kind).value;
    ColumnIsVisibleRaw(opts, value, col);
    var raw := RawColumn(opts, c, kind);
    assert col.units == raw;
    if kind == MeridiemColumn {
      MeridiemDisabledIff(opts.rules);
    }
    assert raw[x].value == x && (raw[x].disabled <==> EntryDisabled(opts, c, kind, x));
  }

  /**
   * With no value committed, a click starts from the current time's date
   * at 00:00:00 and sets only the clicked field; PM on a 12-hour clock
   * gives 12:00:00.
   */
  lemma UnsetClockClick(opts: TimeOptions, now: DateTime, kind: ColumnKind, x: int)
    requires Valid(now) && UnitInRange(opts, kind, x)
    ensures var r := ApplyUnit(opts, now, SelectedClock(None), kind, x);
      && SameDate(r, now)
      && r.hour == (if kind == HourColumn then x else if kind == MeridiemColumn && opts.use12Hours && x == 1 then 12 else 0)
      && r.minute == (if kind == MinuteColumn then x else 0)
      && r.second == (if kind == SecondColumn then x else 0)
  {
  }

  /** Hiding is done entry by entry, so it keeps the order of the entries it keeps. */
  lemma {:induction false} HideDisabledAppend(a: seq<Unit>, b: seq<Unit>)
    ensures HideDisabled(a + b) == HideDisabled(a) + HideDisabled(b)
  {
    if a == [] {
      assert a + b == b;
    } else {
      assert (a + b)[0] == a[0] && (a + b)[1..] == a[1..] + b;
      HideDisabledAppend(a[1..], b);
    }
  }

  /** A column whose disabled entries all come first is hidden down to the rest. */
  lemma {:induction false} HideLeadingDisabled(units: seq<Unit>, k: nat)
    requires k <= |units|
    requires forall j :: 0 <= j < k ==> units[j].disabled
    requires forall j :: k <= j < |units| ==> !units[j].disabled
    ensures HideDisabled(units) == units[k..]
  {
    if k == 0 {
      assert units[0..] == units;
    } else {
      var rest := units[1..];
      assert forall j :: 0 <= j < |rest| ==> rest[j] == units[j + 1];
      HideLeadingDisabled(rest, k - 1);
      assert rest[k - 1..] == units[k..];
    }
  }

  /**
   * With hiding on a 24-hour clock, when exactly the hours below k are
   * disabled, the hour column lists the hours k..23 in order.
   */
  lemma HiddenHoursAreTheRest(opts: TimeOptions, value: Option<DateTime>, k: nat)
    requires opts.hideDisabledOptions && !opts.use12Hours && k <= 24
    requires forall h :: 0 <= h < 24 ==> (h in opts.rules.disabledHours <==> h < k)
    ensures var units := Columns(opts, value)[0].units;
      && |units| == 24 - k
      && forall i :: 0 <= i < |units| ==> units[i] == Unit(Pad2(i + k), i + k, false)
  {
    var raw := RawHours(opts.rules);
    assert Columns(opts, value)[0].units == HideDisabled(raw);
    HideLeadingDisabled(raw, k);
  }
}
