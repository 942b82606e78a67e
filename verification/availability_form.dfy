/** The weekly availability editor: seven day cards, each with a checkbox and
    a list of start/end slots, the operations on one day, and the transform
    that fills the form from the rows fetched from the server. */
module AvailabilityForm {
  import opened Wrappers
  import opened Seqs
  import opened TimeLabels

  /** The `days` list, in display order; a day is its position in this list. */
  const Days: seq<string> := ["Monday", "Tuesday", "Wednesday", "Thursday", "Friday", "Saturday", "Sunday"]

  type Day = d: nat | d < 7

  /** No two days share a name. */
  lemma DaysDistinct()
    ensures forall i, j :: 0 <= i < j < |Days| ==> Days[i] != Days[j]
  {
    var initials := ["Mo", "Tu", "We", "Th", "Fr", "Sa", "Su"];
    assert forall k :: 0 <= k < 7 ==> Days[k][..2] == initials[k];
    forall i, j | 0 <= i < j < |Days|
      ensures Days[i] != Days[j]
    {
      assert initials[i] != initials[j];
    }
  }

  /** One slot as the form holds it: two 12-hour labels. */
  datatype Slot = Slot(start: string, end: string)

  datatype DayForm = DayForm(checked: bool, slots: seq<Slot>)

  /** The form state `availability`: one entry per day, in the order of `Days`. */
  type Form = seq<DayForm>

  predicate Complete(f: Form)
  {
    |f| == |Days|
  }

  /** The form's default values. */
  const InitialForm: Form := seq(7, d => DayForm(false, []))

  lemma InitialFormIsEmpty()
    ensures Complete(InitialForm)
    ensures forall d :: 0 <= d < 7 ==> !InitialForm[d].checked && InitialForm[d].slots == []
  {
  }

  /** The validation schema for one slot: start and end are required and the
      end must pass the `is-greater` test against the start. */
  predicate SlotValid(s: Slot)
  {
    s.start != "" && s.end != "" && IsGreater(s.start, s.end)
  }

  /** The schema accepts a form when every slot of every day is valid. */
  predicate FormValid(f: Form)
  {
    forall d, k :: 0 <= d < |f| && 0 <= k < |f[d].slots| ==> SlotValid(f[d].slots[k])
  }

  /** A slot is accepted exactly when its end converts to a strictly later time
      than its start; in particular a slot that ends when it starts is rejected. */
  lemma SlotValidMeaning(s: Slot)
    ensures SlotValid(s) <==>
      ConvertToMinutes(s.start).Some? && ConvertToMinutes(s.end).Some?
      && ConvertToMinutes(s.end).value > ConvertToMinutes(s.start).value
    ensures s.start == s.end ==> !SlotValid(s)
  {
    EmptyLabelDoesNotConvert();
  }

  /** The slot `addSlot` appends. */
  const DefaultSlot: Slot := Slot("09:00 AM", "05:00 PM")

  lemma DefaultSlotStart()
    ensures ConvertToMinutes(DefaultSlot.start) == Some(9 * 60)
  {
    DefaultSlotSpelling();
    OnTheHourReads(DefaultSlot.start, 9, "AM", 9 * 60);
  }

  lemma DefaultSlotEnd()
    ensures ConvertToMinutes(DefaultSlot.end) == Some(17 * 60)
  {
    DefaultSlotSpelling();
    OnTheHourReads(DefaultSlot.end, 5, "PM", 17 * 60);
  }

  lemma DefaultSlotSpelling()
    ensures DefaultSlot == Slot(Label(9, 0, "AM"), Label(5, 0, "PM"))
  {
    DigitChars();
    LabelSpelling(9, 0, "AM");
    LabelSpelling(5, 0, "PM");
  }

  /** A label on the hour reads as its modifier-adjusted hour. */
  lemma OnTheHourReads(s: string, hours: nat, modifier: string, t: int)
    requires hours < 100 && ' ' !in modifier && s == Label(hours, 0, modifier)
    requires t == AdjustHour(hours, Some(modifier)) * 60
    ensures ConvertToMinutes(s) == Some(t)
  {
    LabelConverts(hours, 0, modifier);
  }

  /** The default slot, 09:00 AM to 05:00 PM, passes the end-after-start check. */
  lemma DefaultSlotValid()
    ensures SlotValid(DefaultSlot)
  {
    DefaultSlotStart();
    DefaultSlotEnd();
  }

  /** What `addSlot` leaves behind: the form, and the snackbar message shown when the day is unchecked. */
  datatype AddSlotOutcome = AddSlotOutcome(form: Form, notice: Option<string>)

  /** `addSlot(day)`: on a checked day, append the default slot; on an
      unchecked one, leave the form alone and ask for the box to be checked. */
  function AddSlot(f: Form, d: Day): (r: AddSlotOutcome)
    requires Complete(f)
    ensures !f[d].checked ==> r.form == f
    ensures !f[d].checked ==> r.notice == Some("Please check the box for " + Days[d] + " to add a slot.")
    ensures |r.form| == |f|
    ensures f[d].checked ==> r.notice.None? && r.form[d].checked
    ensures f[d].checked ==> |r.form[d].slots| == |f[d].slots| + 1
    ensures f[d].checked ==> r.form[d].slots[..|f[d].slots|] == f[d].slots
    ensures f[d].checked ==> r.form[d].slots[|f[d].slots|] == DefaultSlot
    ensures forall e :: 0 <= e < |f| && e != d ==> r.form[e] == f[e]
  {
    if !f[d].checked then
      AddSlotOutcome(f, Some("Please check the box for " + Days[d] + " to add a slot."))
    else
      AddSlotOutcome(f[d := f[d].(slots := f[d].slots + [DefaultSlot])], None)
  }

  /** `removeSlot(day, index)`: keep every slot of that day whose position is not `index`. */
  function RemoveSlot(f: Form, d: Day, index: int): (r: Form)
    requires Complete(f)
    ensures |r| == |f|
    ensures r[d].checked == f[d].checked
    ensures 0 <= index < |f[d].slots| ==>
      |r[d].slots| == |f[d].slots| - 1
      && (forall k :: 0 <= k < index ==> r[d].slots[k] == f[d].slots[k])
      && (forall k :: index <= k < |r[d].slots| ==> r[d].slots[k] == f[d].slots[k + 1])
    ensures !(0 <= index < |f[d].slots|) ==> r == f
    ensures forall e :: 0 <= e < |f| && e != d ==> r[e] == f[e]
  {
    f[d := f[d].(slots := DropIndex(f[d].slots, index))]
  }

  /** `handleCheckboxChange(day)`: flip the checkbox, and clear the slots only when the day was checked. */
  function ToggleDay(f: Form, d: Day): (r: Form)
    requires Complete(f)
    ensures |r| == |f|
    ensures r[d].checked == !f[d].checked
    ensures f[d].checked ==> r[d].slots == []
    ensures !f[d].checked ==> r[d].slots == f[d].slots
    ensures forall e :: 0 <= e < |f| && e != d ==> r[e] == f[e]
  {
    var checked := f[d].checked;
    f[d := DayForm(!checked, if checked then [] else f[d].slots)]
  }

  /** Toggling a day twice restores its checkbox but leaves it without slots. */
  lemma ToggleTwice(f: Form, d: Day)
    requires Complete(f)
    ensures ToggleDay(ToggleDay(f, d), d)[d].checked == f[d].checked
    ensures ToggleDay(ToggleDay(f, d), d)[d].slots == []
  {
  }

  /** Adding the default slot, removing a slot and toggling a day all keep a valid form valid. */
  lemma OperationsKeepFormValid(f: Form, d: Day, index: int)
    requires Complete(f)
    requires FormValid(f)
    ensures FormValid(AddSlot(f, d).form)
    ensures FormValid(RemoveSlot(f, d, index))
    ensures FormValid(ToggleDay(f, d))
  {
    DefaultSlotValid();
    var a := AddSlot(f, d).form;
    forall e, k | 0 <= e < |a| && 0 <= k < |a[e].slots|
      ensures SlotValid(a[e].slots[k])
    {
      if e == d && f[d].checked && k < |f[d].slots| {
        assert a[e].slots[k] == a[e].slots[..|f[d].slots|][k];
      }
    }
    var r := RemoveSlot(f, d, index);
    forall e, k | 0 <= e < |r| && 0 <= k < |r[e].slots|
      ensures SlotValid(r[e].slots[k])
    {
      if e == d && 0 <= index < |f[d].slots| && k >= index {
        assert r[e].slots[k] == f[d].slots[k + 1];
      }
    }
  }

  /** One row of the availability fetched for the signed-in teacher. */
  datatype FetchedRow = FetchedRow(day: string, startTime: string, endTime: string)

  /** The filter test `(slot) => slot.day === day`. */
  function OnDay(d: Day): FetchedRow -> bool
  {
    (r: FetchedRow) => r.day == Days[d]
  }

  /** `data.filter((slot) => slot.day === day)`. */
  function DayRows(rows: seq<FetchedRow>, d: Day): seq<FetchedRow>
  {
    Filter(rows, OnDay(d))
  }

  /** Each row becomes a slot whose labels are the row's times passed through `format`,
      the 24-hour to 12-hour rendering the browser performs. */
  function RowsToSlots(rows: seq<FetchedRow>, format: string -> string): (r: seq<Slot>)
    ensures |r| == |rows|
    ensures forall k :: 0 <= k < |rows| ==> r[k] == Slot(format(rows[k].startTime), format(rows[k].endTime))
  {
    seq(|rows|, k requires 0 <= k < |rows| => Slot(format(rows[k].startTime), format(rows[k].endTime)))
  }

  lemma RowsToSlotsAppend(rows: seq<FetchedRow>, row: FetchedRow, format: string -> string)
    ensures RowsToSlots(rows + [row], format) == RowsToSlots(rows, format) + [Slot(format(row.startTime), format(row.endTime))]
  {
  }

  function LoadDay(rows: seq<FetchedRow>, d: Day, format: string -> string): DayForm
  {
    var mine := DayRows(rows, d);
    DayForm(|mine| > 0, RowsToSlots(mine, format))
  }

  /** The transform applied to fetched data: each day is checked when some row
      names it, and its slots are that day's rows in fetched order. */
  function LoadForm(rows: seq<FetchedRow>, format: string -> string): (r: Form)
    ensures Complete(r)
    ensures forall d :: 0 <= d < 7 ==> (r[d].checked <==> exists k :: 0 <= k < |rows| && rows[k].day == Days[d])
  {
    var result := seq(7, (d: int) requires 0 <= d < 7 => LoadDay(rows, d, format));
    assert forall d :: 0 <= d < 7 ==> (result[d].checked <==> exists k :: 0 <= k < |rows| && rows[k].day == Days[d]) by {
      forall d | 0 <= d < 7
        ensures result[d].checked <==> exists k :: 0 <= k < |rows| && rows[k].day == Days[d]
      {
        var mine := DayRows(rows, d);
        if |mine| > 0 {
          assert mine[0] in rows;
        }
        if exists k :: 0 <= k < |rows| && rows[k].day == Days[d] {
          var k :| 0 <= k < |rows| && rows[k].day == Days[d];
          assert rows[k] in mine;
        }
      }
    }
    result
  }

  /** Nothing fetched gives the initial form. */
  lemma LoadNothing(format: string -> string)
    ensures LoadForm([], format) == InitialForm
  {
  }

  lemma LoadFormAt(rows: seq<FetchedRow>, d: Day, format: string -> string)
    ensures LoadForm(rows, format)[d] == LoadDay(rows, d, format)
  {
  }

  lemma DayRowsAppend(rows: seq<FetchedRow>, row: FetchedRow, d: Day)
    ensures DayRows(rows + [row], d) == DayRows(rows, d) + (if row.day == Days[d] then [row] else [])
  {
    FilterAppend(rows, [row], OnDay(d));
    FilterSingleton(row, OnDay(d));
  }

  /** A fetched row naming one of the seven days adds one slot at the end of
      that day and checks it. */
  lemma {:induction false} LoadAppendKnownDay(rows: seq<FetchedRow>, row: FetchedRow, d: Day, format: string -> string)
    requires row.day == Days[d]
    ensures LoadForm(rows + [row], format)[d]
      == DayForm(true, LoadForm(rows, format)[d].slots + [Slot(format(row.startTime), format(row.endTime))])
  {
    LoadFormAt(rows + [row], d, format);
    LoadFormAt(rows, d, format);
    DayRowsAppend(rows, row, d);
    RowsToSlotsAppend(DayRows(rows, d), row, format);
  }

  lemma LoadAppendOtherDay(rows: seq<FetchedRow>, row: FetchedRow, d: Day, e: Day, format: string -> string)
    requires row.day == Days[d] && e != d
    ensures LoadForm(rows + [row], format)[e] == LoadForm(rows, format)[e]
  {
    assert row.day != Days[e] by {
      DaysDistinct();
      if e < d { assert Days[e] != Days[d]; } else { assert Days[d] != Days[e]; }
    }
    LoadFormAt(rows + [row], e, format);
    LoadFormAt(rows, e, format);
    DayRowsAppend(rows, row, e);
  }

  /** ... and leaves every other day as it was. */
  lemma {:induction false} LoadAppendOtherDays(rows: seq<FetchedRow>, row: FetchedRow, d: Day, format: string -> string)
    requires row.day == Days[d]
    ensures forall e :: 0 <= e < 7 && e != d ==> LoadForm(rows + [row], format)[e] == LoadForm(rows, format)[e]
  {
    forall e: Day | e != d
      ensures LoadForm(rows + [row], format)[e] == LoadForm(rows, format)[e]
    {
      LoadAppendOtherDay(rows, row, d, e, format);
    }
  }

  /** A fetched row whose day is none of the seven is dropped. */
  lemma {:induction false} LoadAppendUnknownDay(rows: seq<FetchedRow>, row: FetchedRow, format: string -> string)
    requires row.day !in Days
    ensures LoadForm(rows + [row], format) == LoadForm(rows, format)
  {
    forall e: Day
      ensures LoadForm(rows + [row], format)[e] == LoadForm(rows, format)[e]
    {
      LoadFormAt(rows + [row], e, format);
      LoadFormAt(rows, e, format);
      DayRowsAppend(rows, row, e);
    }
  }
}
