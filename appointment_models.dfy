/**
 * The Appointment record of appointments/models.py, its status domain,
 * `refresh_if_expired`, and the one ORM query shape every capacity check
 * and counter is built from: appointments on a date whose time lies in a
 * closed range, optionally skipping cancelled ones and one excluded id.
 */
module AppointmentModels {
  import opened Wrappers
  import opened Clock

  datatype CertificateType =
    | BarangayClearance
    | CertificateOfIndigency
    | CommunityTaxCertificate
    | SoloParentCertificate

  /**
   * The statuses the code writes.  Claimed is written by the staff views
   * although the model's declared choices list only the other four.
   */
  datatype Status = Pending | Approved | Claimed | Completed | Cancelled

  /** The statuses listed in the model's STATUS_CHOICES. */
  predicate IsDeclaredStatus(s: Status) {
    s != Claimed
  }

  /** A new appointment starts pending. */
  const DefaultStatus: Status := Pending


  /**
   * The status `refresh_if_expired` leaves behind: a booking whose date and
   * time lie before now is cancelled unless it is already completed or
   * cancelled; anything else keeps its status.
   */
  function AfterExpiry(s: Status, at: DateTime, now: Instant): (r: Status)
    ensures r == s || r == Cancelled
    ensures !Before(at, now) ==> r == s
    ensures s == Completed || s == Cancelled ==> r == s
    ensures Before(at, now) && s != Completed ==> r == Cancelled
  {
    if Before(at, now) && s != Completed && s != Cancelled then Cancelled else s
  }

  /**
   * New records start in a declared status and the expiry check never
   * leaves the declared choices: the undeclared Claimed only arises from
   * the staff's claim action (AppointmentViews.OnlyClaimLeavesDeclaredChoices).
   */
  lemma ExpiryKeepsDeclaredStatus(s: Status, at: DateTime, now: Instant)
    ensures IsDeclaredStatus(DefaultStatus)
    ensures IsDeclaredStatus(s) ==> IsDeclaredStatus(AfterExpiry(s, at, now))
    ensures !IsDeclaredStatus(AfterExpiry(s, at, now)) ==> s == Claimed && !Before(at, now)
  {
  }

  /** Running the expiry check a second time changes nothing. */
  lemma AfterExpiryIdempotent(s: Status, at: DateTime, now: Instant)
    ensures AfterExpiry(AfterExpiry(s, at, now), at, now) == AfterExpiry(s, at, now)
  {
  }

  class Appointment {
    const id: nat
    var resident: nat
    var certificateType: CertificateType
    var date: int
    var time: Minute
    var purpose: string
    var status: Status
    /** Set by the cancel views; not a column of the model in this revision. */
    var cancellationReason: Option<string>
    /** Set by the reschedule view; not a column of the model in this revision. */
    var rescheduleReason: Option<string>
    var rescheduledAt: Option<Instant>
    /** `auto_now_add`: set once when the record is created. */
    const createdAt: Instant

    constructor (id: nat, resident: nat, certificateType: CertificateType, date: int,
                 time: Minute, purpose: string, createdAt: Instant)
      ensures this.id == id && this.resident == resident
      ensures this.certificateType == certificateType && this.purpose == purpose
      ensures this.date == date && this.time == time && this.createdAt == createdAt
      ensures status == DefaultStatus
      ensures cancellationReason.None? && rescheduleReason.None? && rescheduledAt.None?
    {
      this.id := id;
      this.resident := resident;
      this.certificateType := certificateType;
      this.date := date;
      this.time := time;
      this.purpose := purpose;
      this.createdAt := createdAt;
      status := DefaultStatus;
      cancellationReason := None;
      rescheduleReason := None;
      rescheduledAt := None;
    }

    /** The booked moment, `datetime.combine(preferred_date, preferred_time)`. */
    function BookedAt(): DateTime
      reads this
    {
      DateTime(date, time)
    }

    /**
     * Cancels a past-due appointment that is not completed or cancelled.
     * Only the status field is written.
     */
    method RefreshIfExpired(now: Instant)
      modifies this`status
      ensures status == AfterExpiry(old(status), BookedAt(), now)
    {
      if Before(DateTime(date, time), now) && status != Completed && status != Cancelled {
        status := Cancelled;
      }
    }
  }

  /**
   * A filter over the appointment table:
   * `filter(preferred_date=date, preferred_time__range=(lo, hi))`, with
   * `.exclude(status='cancelled')` when skipCancelled holds and
   * `.exclude(id=...)` when an id is given.  The range is SQL BETWEEN, so
   * it is closed at both ends and empty when lo > hi.
   */
  datatype Query = Query(date: int, lo: Minute, hi: Minute, skipCancelled: bool, excludedId: Option<nat>)

  predicate Matches(a: Appointment, q: Query)
    reads a
  {
    && a.date == q.date
    && q.lo <= a.time <= q.hi
    && !(q.skipCancelled && a.status == Cancelled)
    && !(q.excludedId.Some? && a.id == q.excludedId.value)
  }

  /** `.count()` of the query over the table. */
  function Count(store: seq<Appointment>, q: Query): (n: nat)
    reads store
    ensures n <= |store|
    decreases |store|
  {
    if store == [] then 0
    else Count(store[..|store| - 1], q) + (if Matches(store[|store| - 1], q) then 1 else 0)
  }

  /** The indices of the rows the query selects. */
  ghost function Selected(store: seq<Appointment>, q: Query): set<nat>
    reads store
  {
    set i: nat | i < |store| && Matches(store[i], q)
  }

  /** The count is the number of selected rows. */
  lemma {:induction false} CountIsNumberSelected(store: seq<Appointment>, q: Query)
    ensures Count(store, q) == |Selected(store, q)|
    decreases |store|
  {
    if store != [] {
      var n := |store| - 1;
      var init := store[..n];
      CountIsNumberSelected(init, q);
      var before := Selected(init, q);
      assert forall i: nat :: i < n ==> init[i] == store[i];
      if Matches(store[n], q) {
        assert Selected(store, q) == before + {n};
        assert n !in before;
      } else {
        assert Selected(store, q) == before;
      }
    }
  }

  /** Adding a row adds one to every count that selects it. */
  lemma CountAppend(store: seq<Appointment>, a: Appointment, q: Query)
    ensures Count(store + [a], q) == Count(store, q) + (if Matches(a, q) then 1 else 0)
  {
    assert (store + [a])[..|store|] == store;
  }

  /** Counting is additive over a split table. */
  lemma {:induction false} CountConcat(s: seq<Appointment>, t: seq<Appointment>, q: Query)
    ensures Count(s + t, q) == Count(s, q) + Count(t, q)
    decreases |t|
  {
    if t == [] {
      assert s + t == s;
    } else {
      var n := |t| - 1;
      assert s + t == (s + t[..n]) + [t[n]];
      CountAppend(s + t[..n], t[n], q);
      CountConcat(s, t[..n], q);
    }
  }

  /** An empty range (lo > hi) selects nothing. */
  lemma {:induction false} CountEmptyRange(store: seq<Appointment>, q: Query)
    requires q.lo > q.hi
    ensures Count(store, q) == 0
    decreases |store|
  {
    if store != [] {
      CountEmptyRange(store[..|store| - 1], q);
    }
  }

  /** A query that every row matches counts the whole table. */
  lemma {:induction false} CountAllSelected(store: seq<Appointment>, q: Query)
    requires forall i :: 0 <= i < |store| ==> Matches(store[i], q)
    ensures Count(store, q) == |store|
    decreases |store|
  {
    if store != [] {
      CountAllSelected(store[..|store| - 1], q);
    }
  }

  /** A query that no row matches counts zero. */
  lemma {:induction false} CountNoneSelected(store: seq<Appointment>, q: Query)
    requires forall i :: 0 <= i < |store| ==> !Matches(store[i], q)
    ensures Count(store, q) == 0
    decreases |store|
  {
    if store != [] {
      CountNoneSelected(store[..|store| - 1], q);
    }
  }

  /** Skipping cancelled rows never raises a count. */
  lemma {:induction false} SkippingCancelledCountsFewer(store: seq<Appointment>, q: Query)
    ensures Count(store, q.(skipCancelled := true)) <= Count(store, q.(skipCancelled := false))
    decreases |store|
  {
    if store != [] {
      SkippingCancelledCountsFewer(store[..|store| - 1], q);
    }
  }

  /**
   * A closed range splits at any point m into [lo, m - 1] and [m, hi]:
   * the two parts together count what the whole range counts.
   */
  lemma {:induction false} CountSplitRange(store: seq<Appointment>, q: Query, m: Minute)
    requires q.lo < m <= q.hi
    ensures Count(store, q) == Count(store, q.(hi := m - 1)) + Count(store, q.(lo := m))
    decreases |store|
  {
    if store != [] {
      CountSplitRange(store[..|store| - 1], q, m);
    }
  }

  /** The first row with the given id: `get_object_or_404` in the views. */
  function FindById(store: seq<Appointment>, id: nat): (r: Option<Appointment>)
    reads store
    ensures r.Some? ==> r.value in store && r.value.id == id
    ensures r.None? <==> forall i :: 0 <= i < |store| ==> store[i].id != id
    decreases |store|
  {
    if store == [] then None
    else if store[0].id == id then Some(store[0])
    else FindById(store[1..], id)
  }

  /** A row appended under an id no other row has is the row that id finds. */
  lemma {:induction false} FindByIdAppend(store: seq<Appointment>, a: Appointment)
    requires forall i :: 0 <= i < |store| ==> store[i].id != a.id
    ensures FindById(store + [a], a.id) == Some(a)
    decreases |store|
  {
    if store == [] {
      assert store + [a] == [a];
    } else {
      assert (store + [a])[1..] == store[1..] + [a];
      FindByIdAppend(store[1..], a);
    }
  }

  /** No object occurs twice in the sequence (a query returns each row once). */
  predicate Distinct(store: seq<Appointment>) {
    forall i, j :: 0 <= i < j < |store| ==> store[i] != store[j]
  }
}
