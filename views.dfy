/**
 * The view state machine: which granularity a picker kind shows by default,
 * which coarser views its header buttons open, and where a cell click in a
 * coarser view drills down to.
 */
module Views {
  import opened Wrappers

  /** The `picker` property. A date-time picker is the date picker with `showTime`. */
  datatype PickerKind = DatePicker | WeekPicker | MonthPicker | QuarterPicker | YearPicker | TimePicker

  /** The rendered panel (the `mode`). */
  datatype View = Decade | Year | Quarter | Month | Week | Date | Time

  /**
   * The view a picker actually opens when a panel asks for `requested`:
   * the picker's own view replaces every view finer than it.
   */
  function NextMode(picker: PickerKind, requested: View): (v: View)
    ensures v != requested ==> v == DefaultView(picker)
  {
    match picker
    case YearPicker => if requested == Month || requested == Date then Year else requested
    case MonthPicker => if requested == Date then Month else requested
    case QuarterPicker => if requested == Month || requested == Date then Quarter else requested
    case WeekPicker => if requested == Date then Week else requested
    case DatePicker => requested
    case TimePicker => requested
  }

  /** The view shown on mount: the picker's own view, where a selection commits. */
  function DefaultView(picker: PickerKind): (v: View)
    ensures v != Decade
    ensures v == Time <==> picker == TimePicker
  {
    match picker
    case YearPicker => Year
    case MonthPicker => Month
    case QuarterPicker => Quarter
    case WeekPicker => Week
    case DatePicker => Date
    case TimePicker => Time
  }

  /** The finer view a cell of `view` drills down to, if its cells drill at all. */
  function DrillTarget(view: View): Option<View> {
    match view
    case Decade => Some(Year)
    case Year => Some(Month)
    case Month => Some(Date)
    case _ => None
  }

  /** The coarser views the header of `view` has buttons for. */
  function HeaderButtons(view: View): (bs: set<View>)
    ensures bs <= {Decade, Year, Month}
    ensures bs == {} <==> view == Decade || view == Time
    ensures Decade in bs <==> view == Year
  {
    match view
    case Date => {Year, Month}
    case Week => {Year, Month}
    case Month => {Year}
    case Quarter => {Year}
    case Year => {Decade}
    case _ => {}
  }

  /** The view after a cell of `view` is clicked in a `picker`. */
  function DrillDown(picker: PickerKind, view: View): (v: View)
    ensures DrillTarget(view).None? ==> v == view
    ensures DrillTarget(view).Some? ==> v == DrillTarget(view).value || v == DefaultView(picker)
  {
    match DrillTarget(view)
    case Some(t) => NextMode(picker, t)
    case None => view
  }

  /** The views a picker without a `mode` property can show. */
  function Reachable(picker: PickerKind): (vs: set<View>)
    ensures DefaultView(picker) in vs
  {
    match picker
    case DatePicker => {Decade, Year, Month, Date}
    case WeekPicker => {Decade, Year, Month, Week}
    case MonthPicker => {Decade, Year, Month}
    case QuarterPicker => {Decade, Year, Quarter}
    case YearPicker => {Decade, Year}
    case TimePicker => {Time}
  }

  /** The picker's own view is where a drill ends: picking there keeps the view. */
  lemma LeafIsFixed(picker: PickerKind)
    ensures DrillDown(picker, DefaultView(picker)) == DefaultView(picker)
    ensures NextMode(picker, DefaultView(picker)) == DefaultView(picker)
  {
  }

  /** Header buttons and drills never leave the reachable views. */
  lemma ReachableIsClosed(picker: PickerKind, v: View, target: View)
    requires v in Reachable(picker)
    ensures DrillDown(picker, v) in Reachable(picker)
    ensures target in HeaderButtons(v) ==> NextMode(picker, target) in Reachable(picker)
  {
  }

  /**
   * From any reachable view, at most three cell clicks lead back to the
   * picker's own view (decade, then year, then month/quarter/...).
   */
  lemma DrillReturnsToLeaf(picker: PickerKind, v: View)
    requires v in Reachable(picker)
    ensures DrillDown(picker, DrillDown(picker, DrillDown(picker, v))) == DefaultView(picker)
  {
  }

  /** Each header button opens a strictly coarser view, so drilling up ends at the decade view. */
  lemma HeaderOpensCoarser(picker: PickerKind, v: View, target: View)
    requires v in Reachable(picker) && target in HeaderButtons(v)
    ensures NextMode(picker, target) == target
    ensures target == Decade || target == Year || target == Month
  {
  }
}
