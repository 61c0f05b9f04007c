/**
 * The decision logic of the staff and resident views in
 * appointments/views.py: approve, claim, staff cancel, resident cancel,
 * the resident's "claimed" confirmation, reschedule with its own
 * date/time/capacity checks, the expiry sweep the staff lists run, and
 * booking (save, then insert, or a suggestion from the search).
 *
 * Each view mutates the Appointment object it looked up; the lookup
 * itself is AppointmentModels.FindById.
 */
module AppointmentViews {
  import opened Wrappers
  import opened Clock
  import opened AppointmentModels
  import AppointmentForms
  import SlotSearch

  /**
   * The reschedule view's own literals (views.py:218, 222 and 234): its
   * opening hours [09:00, 16:30], its 30-minute buffer and its capacity of
   * five. They repeat the booking form's values rather than referring to
   * them, so the model keeps them apart; DateChecksAgree and the lemmas of
   * AppointmentForms relate the two checks.
   */
  const RescheduleOpen: Minute := 540
  const RescheduleClose: Minute := 990
  const BufferMinutes: int := 30
  const Capacity: int := 5
  /** The reason `cancel_appointment` records. */
  const ResidentCancelReason: string := "Resident cancelled the appointment"

  datatype RescheduleError =
    | PastDate       // "You cannot reschedule to today or a past date."
    | OutsideHours   // "Appointments are only available between 9:00 AM and 4:30 PM."
    | WindowFull     // "Maximum 5 persons can book per 30-minute interval."

  /** What a POST handler reports back, in place of its flash message. */
  datatype Outcome =
    | Done
    | AlreadyHandled            // the "already approved / claimed / cancelled / completed" info
    | InvalidForm               // the submitted reason or reschedule form did not validate
    | Rejected(why: RescheduleError)
    | Ignored                   // an action the view does not know

  /** The status transitions of the views, as functions of the old status. */
  datatype StaffEvent = ApproveEvent | ClaimEvent | StaffCancelEvent

  /**
   * The staff actions: approve turns only pending into approved, claim
   * only approved into claimed, the pending list's cancel only pending into
   * cancelled; every other status is left as it is.
   */
  function StaffStep(s: Status, e: StaffEvent): (r: Status)
    ensures r != s ==>
      || (e == ApproveEvent && s == Pending && r == Approved)
      || (e == ClaimEvent && s == Approved && r == Claimed)
      || (e == StaffCancelEvent && s == Pending && r == Cancelled)
    ensures s == Completed || s == Cancelled || s == Claimed ==> r == s
  {
    match e
    case ApproveEvent => if s == Pending then Approved else s
    case ClaimEvent => if s == Approved then Claimed else s
    case StaffCancelEvent => if s == Pending then Cancelled else s
  }

  /** The status after a series of staff actions. */
  function RunStaff(s: Status, es: seq<StaffEvent>): Status
    decreases |es|
  {
    if es == [] then s else RunStaff(StaffStep(s, es[0]), es[1..])
  }

  /**
   * Staff actions alone never complete a booking: from pending they reach
   * only pending, approved, claimed or cancelled, and a claimed booking
   * stays claimed.
   */
  lemma {:induction false} StaffActionsNeverComplete(s: Status, es: seq<StaffEvent>)
    requires s != Completed
    ensures RunStaff(s, es) != Completed
    ensures s == Claimed ==> RunStaff(s, es) == Claimed
    ensures s == Cancelled ==> RunStaff(s, es) == Cancelled
    decreases |es|
  {
    if es != [] {
      StaffActionsNeverComplete(StaffStep(s, es[0]), es[1..]);
    }
  }

  /**
   * The status outside the declared choices, Claimed, is reached from a
   * declared status only through a claim action, and only from approved.
   */
  lemma {:induction false} OnlyClaimLeavesDeclaredChoices(s: Status, es: seq<StaffEvent>)
    requires IsDeclaredStatus(s)
    ensures !IsDeclaredStatus(RunStaff(s, es)) ==> ClaimEvent in es
    ensures forall e :: !IsDeclaredStatus(StaffStep(s, e)) ==> e == ClaimEvent && s == Approved
    decreases |es|
  {
    if es != [] {
      var t := StaffStep(s, es[0]);
      if IsDeclaredStatus(t) {
        OnlyClaimLeavesDeclaredChoices(t, es[1..]);
        assert es == [es[0]] + es[1..];
      }
    }
  }

  /**
   * approve in `pending_appointments`: a pending booking becomes approved;
   * any other is reported as already handled and left alone.
   */
  method Approve(appt: Appointment) returns (out: Outcome)
    modifies appt`status
    ensures appt.status == StaffStep(old(appt.status), ApproveEvent)
    ensures out == if old(appt.status) == Pending then Done else AlreadyHandled
  {
    if appt.status == Pending {
      appt.status := Approved;
      out := Done;
    } else {
      out := AlreadyHandled;
    }
  }

  /**
   * cancel in `pending_appointments`: only a pending booking is cancelled,
   * and only with a valid reason (None stands for a reason form that did
   * not validate), which is recorded.
   */
  method StaffCancel(appt: Appointment, reason: Option<string>) returns (out: Outcome)
    modifies appt`status, appt`cancellationReason
    ensures old(appt.status) == Pending && reason.Some? ==>
      appt.status == Cancelled && appt.cancellationReason == reason && out == Done
    ensures old(appt.status) == Pending && reason.None? ==>
      appt.status == Pending && appt.cancellationReason == old(appt.cancellationReason) && out == InvalidForm
    ensures old(appt.status) != Pending ==>
      appt.status == old(appt.status) && appt.cancellationReason == old(appt.cancellationReason) && out == AlreadyHandled
    ensures out == Done ==> appt.status == StaffStep(old(appt.status), StaffCancelEvent)
  {
    if appt.status == Pending {
      if reason.Some? {
        appt.status := Cancelled;
        appt.cancellationReason := reason;
        out := Done;
      } else {
        out := InvalidForm;
      }
    } else {
      out := AlreadyHandled;
    }
  }

  /** The POST branch of `pending_appointments`, dispatching on the action. */
  method PendingAppointmentsPost(appt: Appointment, action: string, reason: Option<string>) returns (out: Outcome)
    modifies appt`status, appt`cancellationReason
    ensures action == "approve" ==>
      appt.status == StaffStep(old(appt.status), ApproveEvent) && appt.cancellationReason == old(appt.cancellationReason)
      && out == (if old(appt.status) == Pending then Done else AlreadyHandled)
    ensures action == "cancel" ==>
      out == (if old(appt.status) != Pending then AlreadyHandled else if reason.Some? then Done else InvalidForm)
    ensures action == "cancel" && out == Done ==> appt.status == Cancelled && appt.cancellationReason == reason
    ensures action == "cancel" && out != Done ==>
      appt.status == old(appt.status) && appt.cancellationReason == old(appt.cancellationReason)
    ensures action != "approve" && action != "cancel" ==>
      out == Ignored && appt.status == old(appt.status) && appt.cancellationReason == old(appt.cancellationReason)
  {
    if action == "approve" {
      out := Approve(appt);
    } else if action == "cancel" {
      out := StaffCancel(appt, reason);
    } else {
      out := Ignored;
    }
  }

  /**
   * claimed in `approved_appointments`: an approved booking becomes
   * claimed; any other is reported as already claimed.
   */
  method Claim(appt: Appointment) returns (out: Outcome)
    modifies appt`status
    ensures appt.status == StaffStep(old(appt.status), ClaimEvent)
    ensures out == if old(appt.status) == Approved then Done else AlreadyHandled
  {
    if appt.status == Approved {
      appt.status := Claimed;
      out := Done;
    } else {
      out := AlreadyHandled;
    }
  }

  /** A reschedule request that passed its form: new date, new time, reason. */
  datatype RescheduleRequest = RescheduleRequest(newDate: int, newTime: Minute, reason: string)

  /**
   * The reschedule conflict query: non-cancelled bookings on the new date
   * between `(start - 30 min).time()` and `(start + 30 min).time()`, the
   * rescheduled booking itself excluded by id.
   */
  function RescheduleQuery(newDate: int, newTime: Minute, id: nat): Query {
    var start := DateTime(newDate, newTime);
    Query(newDate, AddMinutes(start, -BufferMinutes).minute, AddMinutes(start, BufferMinutes).minute,
          true, Some(id))
  }

  /**
   * The reschedule checks in order: a new date of today or earlier is
   * refused, then a time outside [09:00, 16:30], then a window [T - 30,
   * T + 30] already holding five or more live bookings other than this one.
   */
  function RescheduleCheck(store: seq<Appointment>, id: nat, newDate: int, newTime: Minute, today: int)
    : (r: Option<RescheduleError>)
    reads store
    ensures newDate <= today ==> r == Some(PastDate)
    ensures newDate > today && !(RescheduleOpen <= newTime <= RescheduleClose) ==> r == Some(OutsideHours)
    ensures newDate > today && RescheduleOpen <= newTime <= RescheduleClose ==>
      (r.Some? <==> Count(store, Query(newDate, newTime - BufferMinutes, newTime + BufferMinutes, true, Some(id))) >= Capacity)
      && (r.Some? ==> r.value == WindowFull)
  {
    if newDate <= today then Some(PastDate)
    else if !(RescheduleOpen <= newTime <= RescheduleClose) then Some(OutsideHours)
    else
      AddMinutesWithinDay(DateTime(newDate, newTime), -BufferMinutes);
      AddMinutesWithinDay(DateTime(newDate, newTime), BufferMinutes);
      if Count(store, RescheduleQuery(newDate, newTime, id)) >= Capacity then Some(WindowFull) else None
  }

  /**
   * The reschedule branch: when the checks pass, date, time, reason and
   * the reschedule stamp are written and the status stays as it was;
   * otherwise nothing changes.
   */
  method Reschedule(store: seq<Appointment>, appt: Appointment, req: RescheduleRequest, today: int, now: Instant)
    returns (out: Outcome)
    modifies appt`date, appt`time, appt`rescheduleReason, appt`rescheduledAt
    ensures var e := old(RescheduleCheck(store, appt.id, req.newDate, req.newTime, today));
      && (e.Some? ==>
            out == Rejected(e.value)
            && appt.date == old(appt.date) && appt.time == old(appt.time)
            && appt.rescheduleReason == old(appt.rescheduleReason) && appt.rescheduledAt == old(appt.rescheduledAt))
      && (e.None? ==>
            out == Done
            && appt.date == req.newDate && appt.time == req.newTime
            && appt.rescheduleReason == Some(req.reason) && appt.rescheduledAt == Some(now))
  {
    if req.newDate <= today {
      out := Rejected(PastDate);
    } else if !(RescheduleOpen <= req.newTime <= RescheduleClose) {
      out := Rejected(OutsideHours);
    } else {
      var conflicts := Count(store, RescheduleQuery(req.newDate, req.newTime, appt.id));
      if conflicts >= Capacity {
        out := Rejected(WindowFull);
      } else {
        appt.date := req.newDate;
        appt.time := req.newTime;
        appt.rescheduleReason := Some(req.reason);
        appt.rescheduledAt := Some(now);
        out := Done;
      }
    }
  }

  /**
   * The POST branch of `approved_appointments`: "claimed" claims,
   * "reschedule" reschedules when its form validated (None when it did
   * not), anything else changes nothing.
   */
  method ApprovedAppointmentsPost(store: seq<Appointment>, appt: Appointment, action: string,
                                  form: Option<RescheduleRequest>, today: int, now: Instant)
    returns (out: Outcome)
    modifies appt`status, appt`date, appt`time, appt`rescheduleReason, appt`rescheduledAt
    ensures action == "claimed" ==>
      appt.status == StaffStep(old(appt.status), ClaimEvent)
      && out == (if old(appt.status) == Approved then Done else AlreadyHandled)
    ensures action != "claimed" ==> appt.status == old(appt.status)
    ensures action == "reschedule" && form.Some? ==>
      var e := old(RescheduleCheck(store, appt.id, form.value.newDate, form.value.newTime, today));
      && (e.Some? ==> out == Rejected(e.value))
      && (e.None? ==>
            out == Done
            && appt.date == form.value.newDate && appt.time == form.value.newTime
            && appt.rescheduleReason == Some(form.value.reason) && appt.rescheduledAt == Some(now))
    ensures action == "reschedule" && form.None? ==> out == InvalidForm
    ensures action != "claimed" && action != "reschedule" ==> out == Ignored
    ensures out != Done || action != "reschedule" ==>
      && appt.date == old(appt.date) && appt.time == old(appt.time)
      && appt.rescheduleReason == old(appt.rescheduleReason) && appt.rescheduledAt == old(appt.rescheduledAt)
  {
    if action == "claimed" {
      out := Claim(appt);
    } else if action == "reschedule" {
      if form.Some? {
        out := Reschedule(store, appt, form.value, today, now);
      } else {
        out := InvalidForm;
      }
    } else {
      out := Ignored;
    }
  }

  /**
   * The POST branch of `claimed_appointments`: the "claimed" action marks
   * the booking completed whatever its status was.
   */
  method ConfirmClaimed(appt: Appointment, action: string) returns (out: Outcome)
    modifies appt`status
    ensures action == "claimed" ==> appt.status == Completed && out == Done
    ensures action != "claimed" ==> appt.status == old(appt.status) && out == AlreadyHandled
  {
    if action == "claimed" {
      appt.status := Completed;
      out := Done;
    } else {
      out := AlreadyHandled;
    }
  }

  /**
   * `cancel_appointment`: on POST the resident's booking is cancelled,
   * whatever its status, with the fixed reason; a GET changes nothing.
   */
  method ResidentCancel(appt: Appointment, isPost: bool)
    modifies appt`status, appt`cancellationReason
    ensures isPost ==> appt.status == Cancelled && appt.cancellationReason == Some(ResidentCancelReason)
    ensures !isPost ==> appt.status == old(appt.status) && appt.cancellationReason == old(appt.cancellationReason)
  {
    if isPost {
      appt.status := Cancelled;
      appt.cancellationReason := Some(ResidentCancelReason);
    }
  }

  /** The status after the sweep: expiry applies to the statuses the list selected. */
  function SweptStatus(s: Status, selected: set<Status>, at: DateTime, now: Instant): (r: Status)
    ensures s !in selected ==> r == s
    ensures s in selected ==> r == AfterExpiry(s, at, now)
  {
    if s in selected then AfterExpiry(s, at, now) else s
  }

  /** Sweeping twice gives the statuses sweeping once gives. */
  lemma SweepIdempotent(s: Status, selected: set<Status>, at: DateTime, now: Instant)
    ensures SweptStatus(SweptStatus(s, selected, at, now), selected, at, now) == SweptStatus(s, selected, at, now)
  {
  }

  /**
   * The loop `for appt in <list>: appt.refresh_if_expired()` that the
   * pending list runs over pending bookings and the approved list over
   * approved and claimed ones.  Only statuses change.
   */
  method SweepExpired(store: seq<Appointment>, selected: set<Status>, now: Instant)
    requires Distinct(store)
    modifies store
    ensures forall i :: 0 <= i < |store| ==>
      store[i].status == SweptStatus(old(store[i].status), selected, DateTime(old(store[i].date), old(store[i].time)), now)
    ensures forall i :: 0 <= i < |store| ==>
      store[i].date == old(store[i].date) && store[i].time == old(store[i].time)
      && store[i].purpose == old(store[i].purpose) && store[i].resident == old(store[i].resident)
      && store[i].certificateType == old(store[i].certificateType)
      && store[i].cancellationReason == old(store[i].cancellationReason)
      && store[i].rescheduleReason == old(store[i].rescheduleReason)
      && store[i].rescheduledAt == old(store[i].rescheduledAt)
  {
    var i := 0;
    while i < |store|
      invariant 0 <= i <= |store|
      invariant forall j :: 0 <= j < i ==>
        store[j].status == SweptStatus(old(store[j].status), selected, DateTime(old(store[j].date), old(store[j].time)), now)
      invariant forall j :: i <= j < |store| ==> store[j].status == old(store[j].status)
      invariant forall j :: 0 <= j < |store| ==>
        store[j].date == old(store[j].date) && store[j].time == old(store[j].time)
        && store[j].purpose == old(store[j].purpose) && store[j].resident == old(store[j].resident)
        && store[j].certificateType == old(store[j].certificateType)
        && store[j].cancellationReason == old(store[j].cancellationReason)
        && store[j].rescheduleReason == old(store[j].rescheduleReason)
        && store[j].rescheduledAt == old(store[j].rescheduledAt)
    {
      if store[i].status in selected {
        store[i].RefreshIfExpired(now);
      }
      i := i + 1;
    }
  }

  /** The result of a booking attempt in `create_appointment`. */
  datatype BookingOutcome =
    | Booked(appointment: Appointment)
    | Full(suggestion: Option<SlotSearch.Slot>)

  /**
   * `create_appointment` after the form validated: run save's capacity
   * check; on success insert the booking, auto-approved; on SlotFull leave
   * the table as it was and offer the nearest free slot (never booked
   * automatically).  Check and insert are one atomic step here.
   */
  method Book(store: seq<Appointment>, draft: AppointmentForms.Draft, id: nat, resident: nat, now: Instant)
    returns (newStore: seq<Appointment>, outcome: BookingOutcome)
    requires forall i :: 0 <= i < |store| ==> store[i].id != id
    ensures outcome.Booked? ==> FindById(newStore, id) == Some(outcome.appointment)
    ensures AppointmentForms.Save(store, draft, None).Ok? ==>
      outcome.Booked? && fresh(outcome.appointment) && newStore == store + [outcome.appointment]
      && outcome.appointment.id == id && outcome.appointment.resident == resident
      && outcome.appointment.date == draft.date && outcome.appointment.time == draft.time
      && outcome.appointment.certificateType == draft.certificateType
      && outcome.appointment.purpose == draft.purpose
      && outcome.appointment.status == Approved && outcome.appointment.createdAt == now
    ensures AppointmentForms.Save(store, draft, None).Err? ==>
      newStore == store
      && outcome == Full(SlotSearch.NearestSlot(store, draft.date, draft.time,
                                                SlotSearch.DefaultBuffer, SlotSearch.DefaultMaxDays))
  {
    var saved := AppointmentForms.Save(store, draft, None);
    if saved.Ok? {
      var a := new Appointment(id, resident, draft.certificateType, draft.date, draft.time, draft.purpose, now);
      a.status := Approved;
      newStore := store + [a];
      outcome := Booked(a);
      FindByIdAppend(store, a);
    } else {
      var suggestion := SlotSearch.FindNearestAvailableSlot(store, draft.date, draft.time,
                                                            SlotSearch.DefaultBuffer, SlotSearch.DefaultMaxDays);
      newStore := store;
      outcome := Full(suggestion);
    }
  }

  /** The form and the reschedule view refuse the same dates: today and earlier. */
  lemma DateChecksAgree(date: int, today: int)
    ensures AppointmentForms.CleanPreferredDate(Some(date), today).Err? <==>
      RescheduleCheck([], 0, date, RescheduleOpen, today) == Some(PastDate)
  {
  }

  /**
   * Cancelling one booking in place (its date and time untouched, every
   * other row unchanged) frees one seat in every query that skips
   * cancelled rows and selected it, the search's windows and the date
   * availability, and leaves every query that counts cancelled rows, such
   * as save's and the month availability's, where it was.
   */
  twostate lemma CancellingOneBooking(store: seq<Appointment>, a: Appointment, q: Query)
    requires Distinct(store)
    requires forall i :: 0 <= i < |store| && store[i] != a ==> unchanged(store[i])
    requires a.date == old(a.date) && a.time == old(a.time)
    requires old(a.status) != Cancelled && a.status == Cancelled
    ensures a in store && q.skipCancelled && Matches(a, q.(skipCancelled := false)) ==>
      Count(store, q) + 1 == old(Count(store, q))
    ensures !(a in store && q.skipCancelled && Matches(a, q.(skipCancelled := false))) ==>
      Count(store, q) == old(Count(store, q))
  {
    var freed := q.skipCancelled && Matches(a, q.(skipCancelled := false));
    var i := 0;
    while i < |store|
      invariant 0 <= i <= |store|
      invariant Count(store[..i], q) + (if a in store[..i] && freed then 1 else 0) == old(Count(store[..i], q))
    {
      var prefix := store[..i];
      assert store[..i + 1][..i] == prefix;
      assert store[i] == a ==> a !in prefix;
      assert a in store[..i + 1] <==> a in prefix || store[i] == a;
      i := i + 1;
    }
    assert store[..|store|] == store;
  }

  /**
   * The per-window check does not protect the neighbouring windows: with
   * five live bookings at 11:00, save admits a sixth at 10:00 (its window
   * [09:30, 10:30] is empty), after which the window save checks for 10:30,
   * [10:00, 11:00], holds six and refuses.
   */
  lemma NeighbourWindowOverfills(store: seq<Appointment>, b: Appointment, d: int,
                                 ct: CertificateType, purpose: string)
    requires |store| == Capacity
    requires forall i :: 0 <= i < |store| ==> store[i].date == d && store[i].time == 660
    requires b.date == d && b.time == 600
    ensures AppointmentForms.Save(store, AppointmentForms.Draft(ct, d, 600, purpose), None).Ok?
    ensures Count(store + [b], AppointmentForms.SaveQuery(d, 630, None)) == Capacity + 1
    ensures AppointmentForms.Save(store + [b], AppointmentForms.Draft(ct, d, 630, purpose), None).Err?
  {
    var q0 := AppointmentForms.SaveQuery(d, 600, None);
    assert q0 == Query(d, 570, 630, false, None);
    CountNoneSelected(store, q0);
    AppointmentForms.SaveAdmitsBelowCapacity(store, AppointmentForms.Draft(ct, d, 600, purpose), None);
    var q1 := AppointmentForms.SaveQuery(d, 630, None);
    assert q1 == Query(d, 600, 660, false, None);
    CountAllSelected(store + [b], q1);
    AppointmentForms.SaveRefusesFullWindow(store + [b], AppointmentForms.Draft(ct, d, 630, purpose), None);
  }
}
