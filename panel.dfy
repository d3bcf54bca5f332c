/**
 * The mounted picker panel as an object: its fields are the panel state and
 * each user interaction is a method that updates them in place and appends
 * the callbacks it fires to `events`. Every method is proved to perform the
 * matching step of the Engine module.
 */
module Panel {
  import opened Wrappers
  import opened Calendar
  import opened Views
  import opened Navigation
  import opened TimeColumns
  import opened Disablement
  import opened Engine

  class PickerPanel {
    const props: Props
    /** The committed value. */
    var value: Option<DateTime>
    /** Whether the caller owns `value` through the `value` property. */
    var controlled: bool
    /** The date whose page is on screen. */
    var anchor: DateTime
    /** The view the panel itself keeps; the `mode` property overrides it on screen. */
    var innerView: View
    /** Set by the first committed selection; ends time seeding. */
    var timeSeeded: bool
    /** The callbacks fired so far, oldest first. */
    var events: seq<Event>

    function Snapshot(): State
      reads this
    {
      State(value, controlled, anchor, innerView, timeSeeded)
    }

    /**
     * The panel's invariant: the properties and dates are valid and, without
     * a `mode` property, the inner view is one the picker can reach.
     */
    ghost predicate Valid()
      reads this
    {
      && ValidProps(props)
      && ValidState(Snapshot())
      && (props.mode.None? ==> innerView in Reachable(props.picker))
    }

    /** The view on screen. */
    function ShownView(): View
      reads this
    {
      props.mode.GetOr(innerView)
    }

    /** The header text of the page on screen; none on the time view. */
    function HeaderText(): (r: Option<string>)
      reads this
      requires Valid()
      ensures r.Some? <==> ShownView() != Time
    {
      match HeaderLabel(ShownView(), anchor)
      case Some(l) => Some(LabelText(l))
      case None => None
    }

    /** The time columns on screen; none when the view shows no time. */
    function TimeColumnsShown(): (cols: seq<Column>)
      reads this
      ensures TimeShown(props, ShownView()) ==> cols == Columns(TimeOptionsOf(props), value)
      ensures !TimeShown(props, ShownView()) ==> cols == []
    {
      if TimeShown(props, ShownView()) then Columns(TimeOptionsOf(props), value) else []
    }

    constructor (p: Props, valueProp: ValueProp, defaultValue: Option<DateTime>)
      requires ValidProps(p)
      ensures Valid() && props == p
      ensures Snapshot() == Mount(p, valueProp, defaultValue).state
      ensures events == Mount(p, valueProp, defaultValue).events
    {
      var warnings: seq<Event> := [];
      if valueProp.Controlled? && IsInvalid(valueProp.given) {
        warnings := [InvalidInput(ValueParam)];
      }
      if IsInvalid(defaultValue) {
        warnings := warnings + [InvalidInput(DefaultValueParam)];
      }
      var committed := if valueProp.Controlled? then Sanitize(valueProp.given) else Sanitize(defaultValue);
      props := p;
      value := committed;
      controlled := valueProp.Controlled?;
      anchor := committed.GetOr(p.now);
      innerView := DefaultView(p.picker);
      timeSeeded := false;
      events := warnings;
    }

    /**
     * Commit `d` as a selection on the picker's own view: onSelect, then
     * onChange unless it equals the committed value.
     */
    method TriggerSelect(d: DateTime)
      modifies this
      ensures Snapshot() == Commit(old(Snapshot()), d).state
      ensures events == old(events) + Commit(old(Snapshot()), d).events
    {
      var changed := value != Some(d);
      if !controlled {
        value := Some(d);
      }
      timeSeeded := true;
      events := events + [Select(d)];
      if changed {
        events := events + [Change(d)];
      }
    }

    /** Click a cell of the page on screen. */
    method SelectCell(cell: Cell)
      requires Valid()
      modifies this
      ensures Valid()
      ensures Snapshot() == Engine.SelectCell(props, old(Snapshot()), cell).state
      ensures events == old(events) + Engine.SelectCell(props, old(Snapshot()), cell).events
    {
      ghost var s0 := Snapshot();
      var shown := props.mode.GetOr(innerView);
      var picked := CellDate(shown, anchor, cell);
      if picked.None? || CellDisabled(shown, props.disabledDate, picked.value) {
        return;
      }
      var d := PickedDate(props, Snapshot(), shown, cell, picked.value);
      PickDate(d);
      assert Engine.SelectCell(props, s0, cell) == Pick(props, s0, d);
      if props.mode.None? {
        ViewStaysReachable(props, s0, cell, Time);
      }
    }

    /** The effect of an enabled cell whose date is `d`. */
    method PickDate(d: DateTime)
      requires ValidState(Snapshot()) && Calendar.Valid(d)
      modifies this
      ensures Snapshot() == Pick(props, old(Snapshot()), d).state
      ensures events == old(events) + Pick(props, old(Snapshot()), d).events
    {
      var shown := props.mode.GetOr(innerView);
      var next := DrillDown(props.picker, shown);
      if next != shown {
        events := events + [PanelChange(d, next)];
      }
      if DrillTarget(shown).Some? {
        innerView := next;
      }
      anchor := d;
      if shown == DefaultView(props.picker) {
        TriggerSelect(d);
      }
    }

    /** Click prev, next, super-prev or super-next: turn the page. */
    method ClickButton(dir: Direction)
      requires Valid()
      modifies this
      ensures Valid()
      ensures Snapshot() == NavigateStep(props, old(Snapshot()), dir).state
      ensures events == old(events)
    {
      var moved := Navigate(props.mode.GetOr(innerView), dir, anchor);
      if moved.Some? {
        anchor := moved.value;
      }
    }

    /** Click a header button that opens a coarser view. */
    method OpenView(target: View)
      requires Valid()
      modifies this
      ensures Valid()
      ensures Snapshot() == HeaderButton(props, old(Snapshot()), target).state
      ensures events == old(events) + HeaderButton(props, old(Snapshot()), target).events
    {
      ghost var s0 := Snapshot();
      var shown := props.mode.GetOr(innerView);
      if target in HeaderButtons(shown) {
        var next := NextMode(props.picker, target);
        if next != shown {
          events := events + [PanelChange(anchor, next)];
        }
        innerView := next;
        if props.mode.None? {
          ViewStaysReachable(props, s0, DateCell(0), target);
        }
      }
    }

    /** Click entry `index` of a time column. */
    method ClickTimeCell(kind: ColumnKind, index: nat)
      requires Valid()
      modifies this
      ensures Valid()
      ensures Snapshot() == ClickTime(props, old(Snapshot()), kind, index).state
      ensures events == old(events) + ClickTime(props, old(Snapshot()), kind, index).events
    {
      ghost var s0 := Snapshot();
      var shown := props.mode.GetOr(innerView);
      if !TimeShown(props, shown) {
        return;
      }
      var r := ClickResult(TimeOptionsOf(props), value, props.now, kind, index);
      if r.None? {
        return;
      }
      anchor := r.value;
      if shown == DefaultView(props.picker) {
        TriggerSelect(r.value);
      }
    }

    /** Click OK: onOk with the committed value. */
    method ConfirmOk()
      requires Valid()
      modifies this
      ensures Valid() && Snapshot() == old(Snapshot())
      ensures events == old(events) + Confirm(props, old(Snapshot())).events
    {
      if value.Some? {
        events := events + [Ok(value.value)];
      }
    }

    /** The caller passes a new `value` property. */
    method SetValueProp(v: Option<DateTime>)
      requires Valid()
      modifies this
      ensures Valid()
      ensures Snapshot() == SetValue(props, old(Snapshot()), v).state
      ensures events == old(events) + SetValue(props, old(Snapshot()), v).events
    {
      if IsInvalid(v) {
        events := events + [InvalidInput(ValueParam)];
      }
      value := Sanitize(v);
      controlled := true;
      if value.Some? {
        anchor := value.value;
      }
    }
  }
}
