/**
 * The two JSON availability endpoints of appointments/views.py:
 * `api_date_availability` (live bookings of one date, 30 seats per
 * session) and `api_month_availability` (every booking of every status,
 * 20 seats per session, one entry per day of the month).  A session is
 * the morning before 12:00 or the afternoon from 12:00 on.
 */
module AvailabilityApi {
  import opened Clock
  import opened Wrappers
  import opened AppointmentModels

  const Noon: Minute := 720
  /** `TOTAL_SLOTS` of the date endpoint, per session. */
  const DateSessionSeats: nat := 30
  /** `TOTAL_AM_SLOTS` and `TOTAL_PM_SLOTS` of the month endpoint. */
  const MonthSessionSeats: nat := 20

  /** `max(total - booked, 0)`. */
  function SeatsLeft(total: nat, booked: nat): (n: nat)
    ensures n <= total
    ensures booked <= total ==> n + booked == total
    ensures booked >= total ==> n == 0
  {
    if booked >= total then 0 else total - booked
  }

  /** The bookings of a date before noon, and from noon on; `live` drops cancelled ones. */
  function MorningQuery(date: int, live: bool): Query { Query(date, 0, Noon - 1, live, None) }
  function AfternoonQuery(date: int, live: bool): Query { Query(date, Noon, MinutesPerDay - 1, live, None) }
  /** Every booking of a date. */
  function DayQuery(date: int, live: bool): Query { Query(date, 0, MinutesPerDay - 1, live, None) }

  /** The `date` query parameter: missing or empty, not `YYYY-MM-DD`, or a day. */
  datatype DateParam = Absent | Unparsable | Day(day: int)

  datatype ApiError = DateParameterRequired | InvalidDateFormat

  datatype DateReport = DateReport(date: int, amAvailable: nat, pmAvailable: nat, amBooked: nat, pmBooked: nat)

  /**
   * `api_date_availability`: the two 400 errors, otherwise the live
   * bookings of each session and the seats left of 30.
   */
  function DateAvailability(store: seq<Appointment>, param: DateParam): (r: Result<DateReport, ApiError>)
    reads store
    ensures param == Absent <==> r == Err(DateParameterRequired)
    ensures param == Unparsable <==> r == Err(InvalidDateFormat)
    ensures r.Ok? ==>
      && param.Day? && r.value.date == param.day
      && r.value.amBooked == Count(store, MorningQuery(param.day, true))
      && r.value.pmBooked == Count(store, AfternoonQuery(param.day, true))
      && r.value.amBooked + r.value.pmBooked == Count(store, DayQuery(param.day, true))
      && r.value.amAvailable == SeatsLeft(DateSessionSeats, r.value.amBooked)
      && r.value.pmAvailable == SeatsLeft(DateSessionSeats, r.value.pmBooked)
  {
    match param
    case Absent => Err(DateParameterRequired)
    case Unparsable => Err(InvalidDateFormat)
    case Day(d) =>
      var am := Count(store, MorningQuery(d, true));
      var pm := Count(store, AfternoonQuery(d, true));
      CountSplitRange(store, DayQuery(d, true), Noon);
      Ok(DateReport(d, SeatsLeft(DateSessionSeats, am), SeatsLeft(DateSessionSeats, pm), am, pm))
  }

  /** The per-date `{"am": ..., "pm": ...}` tallies of the month endpoint. */
  datatype SessionCounts = SessionCounts(am: nat, pm: nat)

  /** What the tally holds for a date: every booking on it, by session, cancelled ones included. */
  function Tally(store: seq<Appointment>, date: int): (t: SessionCounts)
    reads store
    ensures t.am + t.pm == Count(store, DayQuery(date, false))
  {
    CountSplitRange(store, DayQuery(date, false), Noon);
    SessionCounts(Count(store, MorningQuery(date, false)), Count(store, AfternoonQuery(date, false)))
  }

  lemma TallyOfPrefix(store: seq<Appointment>, i: nat, date: int)
    requires i < |store|
    ensures Tally(store[..i + 1], date) ==
      if store[i].date != date then Tally(store[..i], date)
      else if store[i].time < Noon then SessionCounts(Tally(store[..i], date).am + 1, Tally(store[..i], date).pm)
      else SessionCounts(Tally(store[..i], date).am, Tally(store[..i], date).pm + 1)
  {
    assert store[..i + 1] == store[..i] + [store[i]];
    CountAppend(store[..i], store[i], MorningQuery(date, false));
    CountAppend(store[..i], store[i], AfternoonQuery(date, false));
  }

  /**
   * The tally loop of `api_month_availability` over `Appointment.objects.all()`:
   * a key for every date that has a booking, holding that date's tally.
   */
  method TallyByDate(store: seq<Appointment>) returns (booked: map<int, SessionCounts>)
    ensures forall d :: d in booked <==> exists i :: 0 <= i < |store| && store[i].date == d
    ensures forall d :: d in booked ==> booked[d] == Tally(store, d)
    ensures forall d :: d !in booked ==> Tally(store, d) == SessionCounts(0, 0)
  {
    booked := map[];
    var i := 0;
    while i < |store|
      invariant 0 <= i <= |store|
      invariant forall d :: d in booked <==> exists j :: 0 <= j < i && store[j].date == d
      invariant forall d :: d in booked ==> booked[d] == Tally(store[..i], d)
      invariant forall d :: d !in booked ==> Tally(store[..i], d) == SessionCounts(0, 0)
    {
      var appt := store[i];
      var counts := if appt.date in booked then booked[appt.date] else SessionCounts(0, 0);
      if appt.time < Noon {
        counts := counts.(am := counts.am + 1);
      } else {
        counts := counts.(pm := counts.pm + 1);
      }
      forall d ensures Tally(store[..i + 1], d) == (if d == appt.date then counts else Tally(store[..i], d)) {
        TallyOfPrefix(store, i, d);
      }
      booked := booked[appt.date := counts];
      i := i + 1;
    }
    assert store[..|store|] == store;
  }

  datatype DayEntry = DayEntry(date: int, am: nat, pm: nat)

  /** The entry the month endpoint reports for a date. */
  function MonthEntry(store: seq<Appointment>, date: int): (e: DayEntry)
    reads store
    ensures e.date == date
    ensures e.am + SeatsUsed(MonthSessionSeats, Count(store, MorningQuery(date, false))) == MonthSessionSeats
    ensures e.pm + SeatsUsed(MonthSessionSeats, Count(store, AfternoonQuery(date, false))) == MonthSessionSeats
  {
    DayEntry(date, SeatsLeft(MonthSessionSeats, Tally(store, date).am), SeatsLeft(MonthSessionSeats, Tally(store, date).pm))
  }

  /** The seats a tally takes, capped at the session size. */
  function SeatsUsed(total: nat, booked: nat): nat {
    if booked >= total then total else booked
  }

  /**
   * `api_month_availability` for the month whose first day is `firstDay`
   * and which has `daysInMonth` days (how they follow from today's date is
   * calendar arithmetic outside this model): one entry per day, in order.
   */
  method MonthAvailability(store: seq<Appointment>, firstDay: int, daysInMonth: nat) returns (response: seq<DayEntry>)
    ensures |response| == daysInMonth
    ensures forall i :: 0 <= i < daysInMonth ==> response[i] == MonthEntry(store, firstDay + i)
  {
    var booked := TallyByDate(store);
    response := [];
    var i := 0;
    while i < daysInMonth
      invariant 0 <= i <= daysInMonth
      invariant |response| == i
      invariant forall j :: 0 <= j < i ==> response[j] == MonthEntry(store, firstDay + j)
    {
      var d := firstDay + i;
      var counts := if d in booked then booked[d] else SessionCounts(0, 0);
      response := response + [DayEntry(d, SeatsLeft(MonthSessionSeats, counts.am), SeatsLeft(MonthSessionSeats, counts.pm))];
      i := i + 1;
    }
  }

  /**
   * The month view never shows more room than the date view: it counts
   * cancelled bookings too and has 20 seats per session against 30.
   */
  lemma MonthShowsNoMoreRoomThanDate(store: seq<Appointment>, date: int)
    ensures var r := DateAvailability(store, Day(date));
      MonthEntry(store, date).am <= r.value.amAvailable && MonthEntry(store, date).pm <= r.value.pmAvailable
  {
    SkippingCancelledCountsFewer(store, MorningQuery(date, false));
    SkippingCancelledCountsFewer(store, AfternoonQuery(date, false));
  }

  /**
   * Twenty cancelled morning bookings leave the month view no morning seat
   * while the date view still offers all thirty.
   */
  lemma CancelledBookingsFillMonthView(store: seq<Appointment>, date: int)
    requires |store| >= MonthSessionSeats
    requires forall i :: 0 <= i < |store| ==>
      store[i].date == date && store[i].time < Noon && store[i].status == Cancelled
    ensures MonthEntry(store, date).am == 0
    ensures DateAvailability(store, Day(date)).value.amAvailable == DateSessionSeats
  {
    CountAllSelected(store, MorningQuery(date, false));
    CountNoneSelected(store, MorningQuery(date, true));
  }
}
