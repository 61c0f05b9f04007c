/**
 * `find_nearest_available_slot` of appointments/views.py: a forward scan
 * over day offsets 0..max_days, in 30-minute steps up to 16:30, returning
 * the first slot whose (midnight-clamped) buffered window holds fewer than
 * five non-cancelled bookings.
 *
 * The scan order is written out as a sequence of candidates (Candidates),
 * the answer as the first free one (NearestSlot), and the loop method is
 * proved to compute exactly that answer.
 */
module SlotSearch {
  import opened Wrappers
  import opened Clock
  import opened AppointmentModels
  import AppointmentForms

  /** The search opens at 08:00 (the booking form opens at 09:00). */
  const SearchOpen: Minute := 480
  /** 16:30, the last candidate time. */
  const SearchClose: Minute := 990
  /**
   * `step` (views.py:26) and the `< 5` test (views.py:59): literals of the
   * search itself, separate from the booking form's 30-minute grid and its
   * `>= 5` capacity test, although equal to them.
   */
  const StepMinutes: int := 30
  const Capacity: int := 5
  /** The defaults of `buffer_minutes` and `max_days`. */
  const DefaultBuffer: nat := 30
  const DefaultMaxDays: nat := 14

  /** The `{'date': ..., 'time': ...}` the search returns. */
  datatype Slot = Slot(date: int, time: Minute)

  /** A scan position: the day being scanned and the candidate datetime. */
  datatype Candidate = Candidate(date: int, at: DateTime)

  function SlotOf(c: Candidate): Slot {
    Slot(c.date, c.at.minute)
  }

  /**
   * The conflict query of one candidate: non-cancelled bookings on the
   * scanned day between the window's ends, where an end that falls on
   * another day is replaced by the opening or closing time.
   */
  function WindowQuery(c: Candidate, buffer: nat): Query {
    var start := AddMinutes(c.at, -(buffer as int));
    var end := AddMinutes(c.at, buffer);
    Query(c.date,
          if start.day < c.date then SearchOpen else start.minute,
          if end.day > c.date then SearchClose else end.minute,
          true, None)
  }

  predicate IsFree(store: seq<Appointment>, c: Candidate, buffer: nat)
    reads store
  {
    Count(store, WindowQuery(c, buffer)) < Capacity
  }

  /** Where day offset k starts: one step after the preferred time on day 0, 08:00 later. */
  function DayStart(preferredDate: int, preferredTime: Minute, k: nat): DateTime {
    if k == 0 then AddMinutes(DateTime(preferredDate, preferredTime), StepMinutes)
    else DateTime(preferredDate + k, SearchOpen)
  }

  /** The candidates of one day, from `from` while the time is at most 16:30. */
  function DayCandidates(date: int, from: DateTime): seq<Candidate>
    decreases MinutesPerDay - from.minute
  {
    if from.minute > SearchClose then []
    else
      AddMinutesWithinDay(from, StepMinutes);
      [Candidate(date, from)] + DayCandidates(date, AddMinutes(from, StepMinutes))
  }

  /** The candidates of day offsets k..maxDays, in scan order. */
  function CandidatesFrom(preferredDate: int, preferredTime: Minute, k: nat, maxDays: nat): seq<Candidate>
    decreases maxDays + 1 - k
  {
    if k > maxDays then []
    else DayCandidates(preferredDate + k, DayStart(preferredDate, preferredTime, k))
         + CandidatesFrom(preferredDate, preferredTime, k + 1, maxDays)
  }

  /** Every candidate of the search, in the order it examines them. */
  function Candidates(preferredDate: int, preferredTime: Minute, maxDays: nat): seq<Candidate> {
    CandidatesFrom(preferredDate, preferredTime, 0, maxDays)
  }

  /** The first free candidate of a list, as a slot. */
  function FirstFree(store: seq<Appointment>, cs: seq<Candidate>, buffer: nat): Option<Slot>
    reads store
    decreases |cs|
  {
    if cs == [] then None
    else if IsFree(store, cs[0], buffer) then Some(SlotOf(cs[0]))
    else FirstFree(store, cs[1..], buffer)
  }

  /** The answer the search must give. */
  function NearestSlot(store: seq<Appointment>, preferredDate: int, preferredTime: Minute,
                       buffer: nat, maxDays: nat): Option<Slot>
    reads store
  {
    FirstFree(store, Candidates(preferredDate, preferredTime, maxDays), buffer)
  }

  /** The first free candidate of a concatenation. */
  lemma {:induction false} FirstFreeAppend(store: seq<Appointment>, a: seq<Candidate>, b: seq<Candidate>, buffer: nat)
    ensures FirstFree(store, a + b, buffer) ==
      if FirstFree(store, a, buffer).Some? then FirstFree(store, a, buffer) else FirstFree(store, b, buffer)
    decreases |a|
  {
    if a == [] {
      assert a + b == b;
    } else {
      assert (a + b)[0] == a[0] && (a + b)[1..] == a[1..] + b;
      FirstFreeAppend(store, a[1..], b, buffer);
    }
  }

  /**
   * FirstFree answers None exactly when every candidate is full, and
   * otherwise names a free candidate before which every candidate is full.
   */
  lemma {:induction false} FirstFreeIsFirst(store: seq<Appointment>, cs: seq<Candidate>, buffer: nat)
    ensures FirstFree(store, cs, buffer).None? <==> forall i :: 0 <= i < |cs| ==> !IsFree(store, cs[i], buffer)
    ensures FirstFree(store, cs, buffer).Some? ==>
      exists i :: 0 <= i < |cs| && IsFree(store, cs[i], buffer)
        && FirstFree(store, cs, buffer) == Some(SlotOf(cs[i]))
        && forall j :: 0 <= j < i ==> !IsFree(store, cs[j], buffer)
    decreases |cs|
  {
    if cs != [] && !IsFree(store, cs[0], buffer) {
      FirstFreeIsFirst(store, cs[1..], buffer);
      assert forall i :: 1 <= i < |cs| ==> cs[i] == cs[1..][i - 1];
      if FirstFree(store, cs[1..], buffer).Some? {
        var k :| 0 <= k < |cs[1..]| && IsFree(store, cs[1..][k], buffer)
          && FirstFree(store, cs[1..], buffer) == Some(SlotOf(cs[1..][k]))
          && forall j :: 0 <= j < k ==> !IsFree(store, cs[1..][j], buffer);
        assert IsFree(store, cs[k + 1], buffer);
      } else {
        assert forall i :: 0 <= i < |cs| ==> !IsFree(store, cs[i], buffer) by {
          forall i | 0 <= i < |cs| ensures !IsFree(store, cs[i], buffer) {
            if i > 0 {
              assert cs[i] == cs[1..][i - 1];
            }
          }
        }
      }
    }
  }

  /**
   * The candidates of one day: nothing when the start is past 16:30;
   * otherwise the start, then every 30 minutes up to 16:30, on the start's
   * own calendar day.
   */
  lemma {:induction false} DayCandidatesGrid(date: int, from: DateTime)
    ensures |DayCandidates(date, from)| == if from.minute > SearchClose then 0 else (SearchClose - from.minute) / StepMinutes + 1
    ensures forall i :: 0 <= i < |DayCandidates(date, from)| ==>
      from.minute + StepMinutes * i <= SearchClose &&
      DayCandidates(date, from)[i] == Candidate(date, DateTime(from.day, from.minute + StepMinutes * i))
    decreases MinutesPerDay - from.minute
  {
    if from.minute <= SearchClose {
      AddMinutesWithinDay(from, StepMinutes);
      var next := AddMinutes(from, StepMinutes);
      DayCandidatesGrid(date, next);
      var cs := DayCandidates(date, from);
      assert cs == [Candidate(date, from)] + DayCandidates(date, next);
      forall i | 0 <= i < |cs|
        ensures from.minute + StepMinutes * i <= SearchClose
        ensures cs[i] == Candidate(date, DateTime(from.day, from.minute + StepMinutes * i))
      {
        if i > 0 {
          assert cs[i] == DayCandidates(date, next)[i - 1];
        }
      }
    }
  }

  /** What is known of a candidate of the search started at the preferred slot. */
  predicate Placed(c: Candidate, preferredDate: int, preferredTime: Minute, maxDays: nat) {
    && preferredDate <= c.date <= preferredDate + maxDays
    && c.at.minute <= SearchClose
    && (c.date == preferredDate ==>
          && Absolute(c.at) >= Absolute(DateTime(preferredDate, preferredTime)) + StepMinutes
          && (Absolute(c.at) - Absolute(DateTime(preferredDate, preferredTime))) % StepMinutes == 0
          && c.at.day == DayStart(preferredDate, preferredTime, 0).day)
    && (c.date > preferredDate ==>
          c.at.day == c.date && SearchOpen <= c.at.minute && (c.at.minute - SearchOpen) % StepMinutes == 0)
  }

  /** The candidates of the preferred date: on the step grid from one step after the preferred time. */
  lemma FirstDayPlaced(preferredDate: int, preferredTime: Minute, maxDays: nat)
    ensures forall c :: c in DayCandidates(preferredDate, DayStart(preferredDate, preferredTime, 0)) ==>
      c.date == preferredDate && Placed(c, preferredDate, preferredTime, maxDays)
  {
    var start := DayStart(preferredDate, preferredTime, 0);
    var day := DayCandidates(preferredDate, start);
    DayCandidatesGrid(preferredDate, start);
    forall c | c in day
      ensures c.date == preferredDate && Placed(c, preferredDate, preferredTime, maxDays)
    {
      var i :| 0 <= i < |day| && day[i] == c;
      assert c.at == DateTime(start.day, start.minute + StepMinutes * i);
      assert Absolute(c.at) == Absolute(start) + StepMinutes * i;
    }
  }

  /** The candidates of a later day: on that day, on the step grid from 08:00. */
  lemma LaterDayPlaced(preferredDate: int, preferredTime: Minute, k: nat, maxDays: nat)
    requires 0 < k <= maxDays
    ensures forall c :: c in DayCandidates(preferredDate + k, DayStart(preferredDate, preferredTime, k)) ==>
      c.date == preferredDate + k && Placed(c, preferredDate, preferredTime, maxDays)
  {
    var start := DayStart(preferredDate, preferredTime, k);
    var day := DayCandidates(preferredDate + k, start);
    DayCandidatesGrid(preferredDate + k, start);
    forall c | c in day
      ensures c.date == preferredDate + k && Placed(c, preferredDate, preferredTime, maxDays)
    {
      var i :| 0 <= i < |day| && day[i] == c;
      assert c.at == DateTime(preferredDate + k, SearchOpen + StepMinutes * i);
    }
  }

  lemma {:induction false} CandidatesFromPlaced(preferredDate: int, preferredTime: Minute, k: nat, maxDays: nat)
    ensures forall c :: c in CandidatesFrom(preferredDate, preferredTime, k, maxDays) ==>
      c.date >= preferredDate + k && Placed(c, preferredDate, preferredTime, maxDays)
    decreases maxDays + 1 - k
  {
    if k <= maxDays {
      var day := DayCandidates(preferredDate + k, DayStart(preferredDate, preferredTime, k));
      var rest := CandidatesFrom(preferredDate, preferredTime, k + 1, maxDays);
      if k == 0 {
        FirstDayPlaced(preferredDate, preferredTime, maxDays);
      } else {
        LaterDayPlaced(preferredDate, preferredTime, k, maxDays);
      }
      CandidatesFromPlaced(preferredDate, preferredTime, k + 1, maxDays);
      assert CandidatesFrom(preferredDate, preferredTime, k, maxDays) == day + rest;
    }
  }

  /** Every candidate of the search lies in the horizon, on the step grid, and not after 16:30. */
  lemma CandidatesPlaced(preferredDate: int, preferredTime: Minute, maxDays: nat)
    ensures forall c :: c in Candidates(preferredDate, preferredTime, maxDays) ==>
      Placed(c, preferredDate, preferredTime, maxDays)
  {
    CandidatesFromPlaced(preferredDate, preferredTime, 0, maxDays);
  }

  /**
   * For a preferred time before 23:30 (every time the form accepts),
   * candidates on the preferred date lie strictly after the preferred time,
   * and no candidate's window is clamped: with the default 30-minute buffer
   * it is exactly [t - 30, t + 30] on the scanned day.
   */
  lemma ReachableCandidates(preferredDate: int, preferredTime: Minute, maxDays: nat, c: Candidate)
    requires preferredTime + StepMinutes < MinutesPerDay
    requires c in Candidates(preferredDate, preferredTime, maxDays)
    ensures c.at.day == c.date
    ensures c.date == preferredDate ==> c.at.minute >= preferredTime + StepMinutes
    ensures DefaultBuffer <= c.at.minute <= SearchClose
    ensures WindowQuery(c, DefaultBuffer) == Query(c.date, c.at.minute - DefaultBuffer, c.at.minute + DefaultBuffer, true, None)
  {
    CandidatesPlaced(preferredDate, preferredTime, maxDays);
    AddMinutesWithinDay(DateTime(preferredDate, preferredTime), StepMinutes);
    AddMinutesWithinDay(c.at, -(DefaultBuffer as int));
    AddMinutesWithinDay(c.at, DefaultBuffer);
  }

  /**
   * The answer of the search: None exactly when every candidate in the
   * horizon is full; otherwise a free candidate, every earlier candidate
   * being full.
   */
  lemma NearestSlotIsFirstFree(store: seq<Appointment>, preferredDate: int, preferredTime: Minute,
                               buffer: nat, maxDays: nat)
    ensures var cs := Candidates(preferredDate, preferredTime, maxDays);
      NearestSlot(store, preferredDate, preferredTime, buffer, maxDays).None? <==>
        forall i :: 0 <= i < |cs| ==> !IsFree(store, cs[i], buffer)
    ensures var cs := Candidates(preferredDate, preferredTime, maxDays);
      var r := NearestSlot(store, preferredDate, preferredTime, buffer, maxDays);
      r.Some? ==>
        exists i :: 0 <= i < |cs| && IsFree(store, cs[i], buffer) && r == Some(SlotOf(cs[i]))
          && forall j :: 0 <= j < i ==> !IsFree(store, cs[j], buffer)
  {
    FirstFreeIsFirst(store, Candidates(preferredDate, preferredTime, maxDays), buffer);
  }

  /**
   * Where an answer can lie: within the horizon, at or before 16:30; on
   * the preferred date (preferred time before 23:30) at least 30 minutes
   * after the preferred time; on a later day on the half-hour grid from 08:00.
   */
  lemma NearestSlotPlacement(store: seq<Appointment>, preferredDate: int, preferredTime: Minute,
                             buffer: nat, maxDays: nat)
    ensures var r := NearestSlot(store, preferredDate, preferredTime, buffer, maxDays);
      r.Some? ==> preferredDate <= r.value.date <= preferredDate + maxDays && r.value.time <= SearchClose
    ensures var r := NearestSlot(store, preferredDate, preferredTime, buffer, maxDays);
      r.Some? && r.value.date == preferredDate && preferredTime + StepMinutes < MinutesPerDay ==>
        r.value.time >= preferredTime + StepMinutes
    ensures var r := NearestSlot(store, preferredDate, preferredTime, buffer, maxDays);
      r.Some? && r.value.date > preferredDate ==>
        r.value.time >= SearchOpen && (r.value.time - SearchOpen) % StepMinutes == 0
  {
    var cs := Candidates(preferredDate, preferredTime, maxDays);
    NearestSlotIsFirstFree(store, preferredDate, preferredTime, buffer, maxDays);
    CandidatesPlaced(preferredDate, preferredTime, maxDays);
    var r := NearestSlot(store, preferredDate, preferredTime, buffer, maxDays);
    if r.Some? {
      var i :| 0 <= i < |cs| && IsFree(store, cs[i], buffer) && r == Some(SlotOf(cs[i]));
      assert cs[i] in cs;
      assert Placed(cs[i], preferredDate, preferredTime, maxDays);
      if r.value.date == preferredDate && preferredTime + StepMinutes < MinutesPerDay {
        ReachableCandidates(preferredDate, preferredTime, maxDays, cs[i]);
      }
    }
  }

  /** One step of a day's scan: the candidate, then the rest of the day. */
  lemma DayCandidatesStep(date: int, from: DateTime)
    requires from.minute <= SearchClose
    ensures AddMinutes(from, StepMinutes) == DateTime(from.day, from.minute + StepMinutes)
    ensures DayCandidates(date, from) == [Candidate(date, from)] + DayCandidates(date, AddMinutes(from, StepMinutes))
  {
    AddMinutesWithinDay(from, StepMinutes);
  }

  /**
   * One day of the outer scan: a slot found on offset k is the answer from
   * k on; when none is found the answer from k is the answer from k + 1.
   */
  lemma CandidatesFromStep(store: seq<Appointment>, preferredDate: int, preferredTime: Minute,
                           buffer: nat, k: nat, maxDays: nat, found: Option<Slot>)
    requires k <= maxDays
    requires found == FirstFree(store, DayCandidates(preferredDate + k, DayStart(preferredDate, preferredTime, k)), buffer)
    ensures found.Some? ==> FirstFree(store, CandidatesFrom(preferredDate, preferredTime, k, maxDays), buffer) == found
    ensures found.None? ==>
      FirstFree(store, CandidatesFrom(preferredDate, preferredTime, k, maxDays), buffer)
      == FirstFree(store, CandidatesFrom(preferredDate, preferredTime, k + 1, maxDays), buffer)
  {
    FirstFreeAppend(store, DayCandidates(preferredDate + k, DayStart(preferredDate, preferredTime, k)),
                    CandidatesFrom(preferredDate, preferredTime, k + 1, maxDays), buffer);
  }

  /**
   * The inner loop of `find_nearest_available_slot` for one day: from the
   * day's start while the time is at most 16:30, count the candidate's
   * window (clamped at midnight) and stop at the first one below capacity.
   */
  method ScanDay(store: seq<Appointment>, currentDate: int, dayStart: DateTime, buffer: nat)
    returns (r: Option<Slot>)
    ensures r == FirstFree(store, DayCandidates(currentDate, dayStart), buffer)
  {
    var candidate := dayStart;
    while candidate.minute <= SearchClose
      invariant FirstFree(store, DayCandidates(currentDate, dayStart), buffer)
        == FirstFree(store, DayCandidates(currentDate, candidate), buffer)
      decreases MinutesPerDay - candidate.minute
    {
      var slotStart := AddMinutes(candidate, -(buffer as int));
      var slotEnd := AddMinutes(candidate, buffer);
      var slotStartTime := slotStart.minute;
      var slotEndTime := slotEnd.minute;
      if slotStart.day < currentDate {
        slotStartTime := SearchOpen;
      }
      if slotEnd.day > currentDate {
        slotEndTime := SearchClose;
      }
      var conflicts := Count(store, Query(currentDate, slotStartTime, slotEndTime, true, None));
      assert Query(currentDate, slotStartTime, slotEndTime, true, None) == WindowQuery(Candidate(currentDate, candidate), buffer);
      DayCandidatesStep(currentDate, candidate);
      if conflicts < Capacity {
        return Some(Slot(currentDate, candidate.minute));
      }
      candidate := AddMinutes(candidate, StepMinutes);
    }
    return None;
  }

  /**
   * One pass of the outer loop of `find_nearest_available_slot`: scan day
   * offset k from its start (one step after the preferred time on offset
   * 0, 08:00 later).
   */
  method ScanOffset(store: seq<Appointment>, preferredDate: int, preferredTime: Minute,
                    buffer: nat, k: nat, maxDays: nat)
    returns (found: Option<Slot>)
    requires k <= maxDays
    ensures found.Some? ==> FirstFree(store, CandidatesFrom(preferredDate, preferredTime, k, maxDays), buffer) == found
    ensures found.None? ==>
      FirstFree(store, CandidatesFrom(preferredDate, preferredTime, k, maxDays), buffer)
      == FirstFree(store, CandidatesFrom(preferredDate, preferredTime, k + 1, maxDays), buffer)
  {
    var currentDate := preferredDate + k;
    var candidate: DateTime;
    if k == 0 {
      candidate := AddMinutes(DateTime(currentDate, preferredTime), StepMinutes);
    } else {
      candidate := DateTime(currentDate, SearchOpen);
    }
    found := ScanDay(store, currentDate, candidate, buffer);
    CandidatesFromStep(store, preferredDate, preferredTime, buffer, k, maxDays, found);
  }

  /**
   * `find_nearest_available_slot`: day offsets 0..max_days in order; the
   * first free slot, or None.
   */
  method FindNearestAvailableSlot(store: seq<Appointment>, preferredDate: int, preferredTime: Minute,
                                  buffer: nat, maxDays: nat)
    returns (r: Option<Slot>)
    ensures r == NearestSlot(store, preferredDate, preferredTime, buffer, maxDays)
  {
    var dayOffset: nat := 0;
    while dayOffset <= maxDays
      invariant dayOffset <= maxDays + 1
      invariant NearestSlot(store, preferredDate, preferredTime, buffer, maxDays)
        == FirstFree(store, CandidatesFrom(preferredDate, preferredTime, dayOffset, maxDays), buffer)
      decreases maxDays + 1 - dayOffset
    {
      var found := ScanOffset(store, preferredDate, preferredTime, buffer, dayOffset, maxDays);
      if found.Some? {
        return found;
      }
      dayOffset := dayOffset + 1;
    }
    return None;
  }

  /**
   * Five live bookings at 10:00 fill both the 10:30 window [10:00, 11:00]
   * and the 10:00 one, so a request for 10:00 is pointed to 11:00, not 10:30.
   */
  lemma FiveAtTenSuggestsEleven(store: seq<Appointment>, d: int)
    requires |store| >= Capacity
    requires forall i :: 0 <= i < |store| ==> store[i].date == d && store[i].time == 600 && store[i].status != Cancelled
    ensures NearestSlot(store, d, 600, DefaultBuffer, DefaultMaxDays) == Some(Slot(d, 660))
  {
    var cs := Candidates(d, 600, DefaultMaxDays);
    assert DayStart(d, 600, 0) == DateTime(d, 630) by {
      AddMinutesWithinDay(DateTime(d, 600), StepMinutes);
    }
    DayCandidatesGrid(d, DateTime(d, 630));
    var day := DayCandidates(d, DateTime(d, 630));
    assert cs == day + CandidatesFrom(d, 600, 1, DefaultMaxDays);
    assert cs[0] == Candidate(d, DateTime(d, 630)) && cs[1] == Candidate(d, DateTime(d, 660));
    assert cs[0] in cs && cs[1] in cs;
    ReachableCandidates(d, 600, DefaultMaxDays, cs[0]);
    ReachableCandidates(d, 600, DefaultMaxDays, cs[1]);
    var q0 := WindowQuery(cs[0], DefaultBuffer);
    var q1 := WindowQuery(cs[1], DefaultBuffer);
    assert q0 == Query(d, 600, 660, true, None);
    assert q1 == Query(d, 630, 690, true, None);
    CountAllSelected(store, q0);
    CountNoneSelected(store, q1);
    assert !IsFree(store, cs[0], DefaultBuffer);
    assert IsFree(store, cs[1], DefaultBuffer);
    assert cs[1..][0] == cs[1];
    assert FirstFree(store, cs, DefaultBuffer) == FirstFree(store, cs[1..], DefaultBuffer);
  }

  /**
   * A preferred time of 23:45 puts the first candidate at 00:15 of the next
   * day, yet it is counted and reported on the preferred date: with no
   * bookings the answer is 00:15 of the preferred date, before the
   * preferred time.
   */
  lemma LatePreferredTimeWrapsToEarlyMorning(d: int)
    ensures NearestSlot([], d, 1425, DefaultBuffer, DefaultMaxDays) == Some(Slot(d, 15))
  {
    var start := DayStart(d, 1425, 0);
    assert start == DateTime(d + 1, 15);
    var cs := Candidates(d, 1425, DefaultMaxDays);
    assert cs == DayCandidates(d, start) + CandidatesFrom(d, 1425, 1, DefaultMaxDays);
    assert cs[0] == Candidate(d, start);
  }

  /**
   * The search opens at 08:00 while the form only accepts 09:00 to 16:30:
   * from 16:30 the suggestion for an empty day is 08:00 the next day, a
   * time the booking form would refuse.
   */
  lemma SuggestionCanFallBeforeFormHours(d: int)
    ensures NearestSlot([], d, 990, DefaultBuffer, DefaultMaxDays) == Some(Slot(d + 1, SearchOpen))
    ensures AppointmentForms.CleanPreferredTime(FormatHHMM(SearchOpen)).Err?
  {
    var day0 := DayStart(d, 990, 0);
    assert day0 == DateTime(d, 1020) by {
      AddMinutesWithinDay(DateTime(d, 990), StepMinutes);
    }
    assert DayCandidates(d, day0) == [];
    var cs := Candidates(d, 990, DefaultMaxDays);
    var rest := CandidatesFrom(d, 990, 1, DefaultMaxDays);
    assert cs == [] + rest;
    assert rest == DayCandidates(d + 1, DateTime(d + 1, SearchOpen)) + CandidatesFrom(d, 990, 2, DefaultMaxDays);
    assert rest[0] == Candidate(d + 1, DateTime(d + 1, SearchOpen));
    AppointmentForms.CleanPreferredTimeWindow(SearchOpen);
  }
}
