/**
 * appointments/forms.py: the bookable time grid (TIME_CHOICES), the date
 * and time field cleaners, and the capacity check in `save`.
 */
module AppointmentForms {
  import opened Wrappers
  import opened Clock
  import opened AppointmentModels

  /** 09:00, the first bookable time. */
  const OpenTime: Minute := 540
  /** 16:30, the last bookable time. */
  const CloseTime: Minute := 990
  /** The grid step (forms.py:22) and save's buffer (forms.py:85), two separate literals. */
  const StepMinutes: int := 30
  const BufferMinutes: int := 30
  /** At most this many bookings per buffered window (forms.py:103). */
  const Capacity: int := 5
  /** Number of entries in TIME_CHOICES. */
  const ChoiceCount: nat := 16

  datatype FormError =
    | DateNotInFuture      // "You cannot book a date today or in the past."
    | OutsideOpeningHours  // "Appointments are only available between 9:00 AM and 4:30 PM"
    | MalformedTime        // int() or time() raises ValueError
    | InvalidChoice        // the ChoiceField rejects a value not in TIME_CHOICES
    | SlotFull             // IntegrityError: "Maximum 5 persons can book per 30-minute interval."

  /** The value part of TIME_CHOICES, entry by entry. */
  function ChoiceValues(): (vs: seq<string>)
    ensures |vs| == ChoiceCount
    ensures forall i :: 0 <= i < ChoiceCount ==> vs[i] == FormatHHMM(OpenTime + StepMinutes * i)
  {
    seq(ChoiceCount, i requires 0 <= i < ChoiceCount => FormatHHMM(OpenTime + StepMinutes * i))
  }

  /**
   * The class-level loop that builds TIME_CHOICES: from 09:00 while the
   * time is at most 16:30, record `HH:MM`, then add 30 minutes, carrying
   * into the hour.  (The display label is not modelled.)
   */
  method TimeChoices() returns (choices: seq<string>)
    ensures |choices| == ChoiceCount
    ensures forall i :: 0 <= i < |choices| ==> choices[i] == FormatHHMM(OpenTime + StepMinutes * i)
    ensures forall i :: 0 <= i < |choices| ==> ParseHHMM(choices[i]) == Some(OpenTime + StepMinutes * i)
    ensures choices == ChoiceValues()
  {
    choices := [];
    var hour, minute := 9, 0;
    while hour * 60 + minute <= CloseTime
      invariant minute == 0 || minute == 30
      invariant hour * 60 + minute == OpenTime + StepMinutes * |choices|
      invariant hour * 60 + minute <= CloseTime + StepMinutes
      invariant forall i :: 0 <= i < |choices| ==> choices[i] == FormatHHMM(OpenTime + StepMinutes * i)
      decreases CloseTime + StepMinutes - (hour * 60 + minute)
    {
      choices := choices + [FormatHHMM(hour * 60 + minute)];
      minute := minute + 30;
      if minute >= 60 {
        hour := hour + 1;
        minute := minute - 60;
      }
    }
    forall i | 0 <= i < |choices|
      ensures ParseHHMM(choices[i]) == Some(OpenTime + StepMinutes * i)
    {
      FormatThenParse(OpenTime + StepMinutes * i);
    }
  }

  /** The grid starts at 09:00, ends at 16:30 and rises by 30 minutes. */
  lemma ChoiceGridEnds()
    ensures ChoiceValues()[0] == "09:00"
    ensures ChoiceValues()[ChoiceCount - 1] == "16:30"
    ensures forall i :: 0 <= i < ChoiceCount ==> ParseHHMM(ChoiceValues()[i]) == Some(OpenTime + StepMinutes * i)
  {
    var vs := ChoiceValues();
    assert vs[0] == Pad2(9) + ":" + Pad2(0);
    assert vs[15] == Pad2(16) + ":" + Pad2(30);
    forall i | 0 <= i < ChoiceCount
      ensures ParseHHMM(vs[i]) == Some(OpenTime + StepMinutes * i)
    {
      FormatThenParse(OpenTime + StepMinutes * i);
    }
  }

  /** The ChoiceField's own check: the submitted value is one of TIME_CHOICES. */
  predicate IsTimeChoice(value: string) {
    value in ChoiceValues()
  }

  /**
   * `clean_preferred_date`: a date before tomorrow is refused; a missing
   * date passes through (the required-field check reports it instead).
   */
  function CleanPreferredDate(date: Option<int>, today: int): (r: Result<Option<int>, FormError>)
    ensures r.Err? <==> date.Some? && date.value <= today
    ensures r.Err? ==> r.error == DateNotInFuture
    ensures r.Ok? ==> r.value == date
  {
    if date.Some? && date.value < today + 1 then Err(DateNotInFuture) else Ok(date)
  }

  /**
   * `clean_preferred_time`: the string is parsed as `HH:MM`; a time outside
   * [09:00, 16:30] is refused; on success the string itself is returned.
   */
  function CleanPreferredTime(value: string): (r: Result<string, FormError>)
    ensures r.Ok? ==> r.value == value
    ensures r.Ok? <==> ParseHHMM(value).Some? && OpenTime <= ParseHHMM(value).value <= CloseTime
    ensures r == Err(MalformedTime) <==> ParseHHMM(value).None?
  {
    match ParseHHMM(value)
    case None => Err(MalformedTime)
    case Some(t) => if !(OpenTime <= t <= CloseTime) then Err(OutsideOpeningHours) else Ok(value)
  }

  /** A printed time is accepted exactly when it lies in [09:00, 16:30]. */
  lemma CleanPreferredTimeWindow(t: Minute)
    ensures CleanPreferredTime(FormatHHMM(t)).Ok? <==> OpenTime <= t <= CloseTime
  {
    FormatThenParse(t);
  }

  /** Every value the ChoiceField lets through also passes the time check. */
  lemma TimeChoicesPassCleanTime(value: string)
    requires IsTimeChoice(value)
    ensures CleanPreferredTime(value) == Ok(value)
  {
    var vs := ChoiceValues();
    var i :| 0 <= i < |vs| && vs[i] == value;
    CleanPreferredTimeWindow(OpenTime + StepMinutes * i);
  }

  /** What `super().save(commit=False)` builds: a booking not yet stored. */
  datatype Draft = Draft(certificateType: CertificateType, date: int, time: Minute, purpose: string)

  /**
   * The conflict query of `save`: same date, time between
   * `(start - 30 min).time()` and `(start + 30 min).time()`, all statuses,
   * without the edited instance's own row.
   */
  function SaveQuery(date: int, time: Minute, editing: Option<nat>): Query {
    var start := DateTime(date, time);
    Query(date, AddMinutes(start, -BufferMinutes).minute, AddMinutes(start, BufferMinutes).minute,
          false, editing)
  }

  /**
   * `save`: refuses with SlotFull when five or more bookings are already in
   * the window, and otherwise hands the unsaved draft back unchanged; it
   * writes nothing.
   */
  function Save(store: seq<Appointment>, draft: Draft, editing: Option<nat>): (r: Result<Draft, FormError>)
    reads store
    ensures r.Ok? ==> r.value == draft
    ensures r.Err? ==> r.error == SlotFull
  {
    if Count(store, SaveQuery(draft.date, draft.time, editing)) >= Capacity then Err(SlotFull) else Ok(draft)
  }

  /**
   * For a time at least 30 minutes from midnight either way (every time the
   * form accepts) the conflicts are the bookings on that date, of any
   * status, whose time lies in the closed range [T - 30, T + 30], the edited
   * row excluded; save refuses exactly when there are five or more.
   */
  lemma SaveRefusesFullWindow(store: seq<Appointment>, draft: Draft, editing: Option<nat>)
    requires BufferMinutes <= draft.time < MinutesPerDay - BufferMinutes
    ensures Save(store, draft, editing).Err? <==>
      Count(store, Query(draft.date, draft.time - BufferMinutes, draft.time + BufferMinutes, false, editing)) >= Capacity
  {
    AddMinutesWithinDay(DateTime(draft.date, draft.time), -BufferMinutes);
    AddMinutesWithinDay(DateTime(draft.date, draft.time), BufferMinutes);
  }

  /**
   * Within 30 minutes of midnight the window's ends wrap past each other,
   * the range is empty, and save admits whatever the table holds.
   */
  lemma SaveAdmitsWrappedWindow(store: seq<Appointment>, draft: Draft, editing: Option<nat>)
    requires draft.time < BufferMinutes || draft.time >= MinutesPerDay - BufferMinutes
    ensures Save(store, draft, editing) == Ok(draft)
  {
    var q := SaveQuery(draft.date, draft.time, editing);
    assert q.lo > q.hi;
    CountEmptyRange(store, q);
  }

  /**
   * Adding five bookings inside a slot's window makes the next request for
   * that slot fail, whatever the table held before.
   */
  lemma {:induction false} SixthBookingRefused(store: seq<Appointment>, added: seq<Appointment>,
                                               draft: Draft, editing: Option<nat>)
    requires |added| >= Capacity
    requires forall i :: 0 <= i < |added| ==> Matches(added[i], SaveQuery(draft.date, draft.time, editing))
    ensures Save(store + added, draft, editing).Err?
  {
    var q := SaveQuery(draft.date, draft.time, editing);
    CountConcat(store, added, q);
    CountAllSelected(added, q);
  }

  /** Fewer than five conflicts means the booking is admitted. */
  lemma SaveAdmitsBelowCapacity(store: seq<Appointment>, draft: Draft, editing: Option<nat>)
    requires Count(store, SaveQuery(draft.date, draft.time, editing)) < Capacity
    ensures Save(store, draft, editing) == Ok(draft)
  {
  }
}
