/**
 * The disablement evaluator: the caller's `disabledDate`, `disabledHours`,
 * `disabledMinutes` and `disabledSeconds` rules, taken as pure functions
 * (an absent rule is the one that disables nothing).
 */
module Disablement {
  import opened Calendar
  import opened Views

  /** The time rules: `disabledMinutes` gets the 24-hour hour, `disabledSeconds` the hour and minute. */
  datatype TimeRules = TimeRules(
    disabledHours: set<int>,
    disabledMinutes: int -> set<int>,
    disabledSeconds: (int, int) -> set<int>)

  /** The rules of a panel given none. */
  function NoTimeRules(): TimeRules {
    TimeRules({}, _ => {}, (_, _) => {})
  }

  /** `disabledDate` is asked about the day only; the time of day is ignored. */
  function IsDateDisabled(disabledDate: DateTime -> bool, d: DateTime): (b: bool)
    ensures forall t :: SameDate(t, d) ==> (b <==> disabledDate(StartOfDay(t)))
  {
    disabledDate(StartOfDay(d))
  }

  /**
   * Whether a cell of `view` whose representative day is `d` is disabled.
   * No picker is a decade picker, so decade cells can always be clicked.
   */
  function CellDisabled(view: View, disabledDate: DateTime -> bool, d: DateTime): (b: bool)
    ensures view == Decade ==> !b
    ensures view != Decade ==> forall t :: SameDate(t, d) ==> (b <==> disabledDate(StartOfDay(t)))
  {
    view != Decade && IsDateDisabled(disabledDate, d)
  }

  /** Two candidates on the same day are disabled alike. */
  lemma DisabledIgnoresClock(view: View, disabledDate: DateTime -> bool, a: DateTime, b: DateTime)
    requires SameDate(a, b)
    ensures CellDisabled(view, disabledDate, a) == CellDisabled(view, disabledDate, b)
  {
    assert StartOfDay(a) == StartOfDay(b);
  }
}
