# Barangay appointment engine, modelled in Dafny

This project models the appointment-slot engine of a Django web application
that books certificate appointments for a barangay office, together with the
small validators around it:

- the time grid, date and time checks and the five-per-window capacity check
  of the booking form;
- the nearest-free-slot search offered when a booking is refused;
- the staff state machine: approve, claim, cancel and reschedule with its
  own capacity check;
- the resident's own actions: cancelling a booking, and confirming a
  claimed one as completed;
- the expiry check that cancels past-due appointments, and the sweeps the
  staff pages run before they list appointments;
- the two availability endpoints: per-date seats of 30 per session, and the
  month view with 20 per session;
- the account forms' uniqueness, capitalisation and phone checks, and the
  roles their `save` methods assign;
- the two browser scripts: phone digit filtering and capitalisation hints in
  the registration page, and the `HH:MM` time guard of the booking page;
- the template filter that composes a staff member's display name.

Representation:

- A time of day is a number of minutes since midnight (`Clock.Minute`).
- A date is an integer day number.
- "Now" and "today" are parameters.
- An `Appointment` is a class, because the views and `refresh_if_expired`
  update its fields in place.
- The appointment table is a `seq<Appointment>`. Every ORM filter the core
  uses is one `Query` value: date, closed time range, whether cancelled rows
  are skipped, and an optional excluded id. Every `.count()` is
  `AppointmentModels.Count`.
- Each method with a loop is proved against a specification function
  (`SlotSearch.NearestSlot`, `AvailabilityApi.Tally`,
  `AppointmentForms.ChoiceValues`, and the others listed below).
- The facts the source promises are lemmas about those functions.
- A Python exception is an `Err` of a `Result`. This includes the
  `ValueError` that `int()` raises on a malformed time and the
  `IntegrityError` raised by `save`. A JavaScript `null` is `None`.

Files, one module each: `wrappers.dfy`, `strings.dfy`, `clock.dfy`,
`appointment_models.dfy`, `appointment_forms.dfy`, `slot_search.dfy`,
`appointment_views.dfy`, `availability.dfy`, `account_forms.dfy`, `dom.dfy`
(the input element the scripts write to), `register_script.dfy`,
`time_restriction_script.dfy` and `staff_tags.dfy`.

### Inconsistencies in the code that the model reproduces

- **Search opening time.** The slot search opens at 08:00
  (appointments/views.py:24), while the booking form opens at 09:00. A
  suggestion can therefore be a time the form refuses
  (`SlotSearch.SuggestionCanFallBeforeFormHours`).
- **Closed windows.** The conflict windows are SQL `BETWEEN` ranges, closed
  at both ends. With five live bookings at 10:00, a request for 10:00
  skips the 10:30 candidate, whose window [10:00, 11:00] includes them, and
  the search suggests 11:00
  (`SlotSearch.FiveAtTenSuggestsEleven`).
- **Late preferred times.** On the preferred date the first candidate is
  `preferred_time + 30` minutes. For a preferred time of 23:30 or later, that
  candidate falls on the next day's early morning, but it is still counted
  and reported against the preferred date
  (`SlotSearch.LatePreferredTimeWrapsToEarlyMorning`).
- **Cancelled rows in `save`.** The booking form's `save` counts cancelled
  bookings and does not clamp its window at midnight
  (appointments/forms.py:91-97). The slot search, the date availability
  count and the reschedule check skip cancelled bookings.
  - Near midnight the unclamped window wraps, and `save` admits anything
    there (`AppointmentForms.SaveAdmitsWrappedWindow`).
  - Cancelling a booking frees a seat only for the counts that skip
    cancelled rows (`AppointmentViews.CancellingOneBooking`).
- **Neighbouring windows.** The capacity rule looks only at the window of
  the new booking. Adding a booking can therefore put six bookings into a
  neighbouring window (`AppointmentViews.NeighbourWindowOverfills`).
- **Month view.** The month view counts cancelled bookings, with a cap of 20
  per session (appointments/views.py:17-18, 416-437). The date view skips
  cancelled bookings and has 30 seats per session
  (`AvailabilityApi.MonthShowsNoMoreRoomThanDate`,
  `AvailabilityApi.CancelledBookingsFillMonthView`).
- **The claimed status.** `'claimed'` is written by the staff views but is
  not among the status choices of appointments/models.py:20-25
  (`AppointmentViews.OnlyClaimLeavesDeclaredChoices`).
  `refresh_if_expired` spares only completed and cancelled appointments, so
  a past-due claimed appointment is cancelled too.
- **The page's time window.** The booking page's script accepts times up to
  17:00, while the form stops at 16:30
  (`TimeRestrictionScript.SeventeenHundredPassesOnlyThePage`). A value whose
  pieces `Number` reads as NaN passes the page
  (`TimeRestrictionScript.GarbagePassesThePage`).
- **Missing forms.** appointments/views.py:10 imports `CancellationReasonForm`
  and `RescheduleForm` from appointments/forms.py, which defines only
  `AppointmentForm` (appointments/forms.py:8). As written, the views module
  therefore fails with an `ImportError` when it is loaded. The model takes the
  views as they were meant to run. The `reason: Option<string>` and
  `form: Option<RescheduleRequest>` arguments stand for the validation those
  two forms were meant to do, and None stands for an invalid form.
- **Display-name collision.** A staff member named "Barangay Staff" is
  displayed exactly like a user without a staff record
  (`StaffTags.BarangayStaffLooksLikeDefault`).
- **Capitalisation and digit checks.** The server's `isupper`/`isdigit`
  checks are wider than the registration page's `[A-Z]` and `\D` tests. An
  accented capital passes the server but is flagged by the page, and
  superscript digits pass `isdigit`
  (`RegisterScript.AccentedCapitalFlaggedButAccepted`,
  `AccountForms.SuperscriptDigitsPass`).

## Model

| member | source | states |
|---|---|---|
| Strings.Split | appointments/forms.py:57 | `str.split` on one separator character always yields at least one piece |
| Strings.SplitPieceCount | appointments/static/appointments/js/time_restriction.js:17-18 | a value splits into two or more pieces exactly when it contains the separator |
| Strings.JoinSplit | appointments/forms.py:57 | joining the pieces again with the separator gives back the original string |
| Clock.AddMinutes | appointments/forms.py:91-92 | adding a timedelta of n minutes moves the datetime by exactly n minutes and carries into the date across midnight |
| Clock.AddMinutesWithinDay | appointments/views.py:226-227 | when no midnight is crossed, only the time of day moves |
| Clock.FormatHHMM | appointments/forms.py:16 | `strftime('%H:%M')` gives five characters: two digits, a colon, two digits |
| Clock.ParseHHMM | appointments/forms.py:57-58 | `time(*map(int, s.split(':')))`, None standing for the ValueError: a result needs exactly two colon-separated pieces; that it reads back every printed time is Clock.FormatThenParse |
| Clock.FormatThenParse | appointments/forms.py:56-58 | parsing a printed choice value with `map(int, split(':'))` gives back the same time |
| Clock.FormatInjective | appointments/forms.py:16-18 | distinct times print as distinct choice values |
| AppointmentModels.ExpiryKeepsDeclaredStatus | appointments/models.py:20-36 | new records start in a declared status, and the expiry check never turns a declared status into an undeclared one; an undeclared result means a claimed booking not yet due |
| AppointmentModels.AfterExpiry | appointments/models.py:34-35 | past-due appointments become cancelled unless completed or cancelled; appointments not yet due, and completed or cancelled ones, keep their status |
| AppointmentModels.AfterExpiryIdempotent | appointments/models.py:34-36 | a second expiry check changes nothing |
| AppointmentModels.Appointment.constructor | appointments/models.py:5-28 | a new record holds the given fields and starts pending, with created_at fixed |
| AppointmentModels.Appointment.RefreshIfExpired | appointments/models.py:30-36 | writes only the status, which becomes the expiry status of the booked moment |
| AppointmentModels.Count | appointments/views.py:53-59 | a count never exceeds the number of rows |
| AppointmentModels.CountIsNumberSelected | appointments/forms.py:94-103 | the count is the number of rows the filter selects |
| AppointmentModels.CountAppend | appointments/views.py:87 | inserting a row raises exactly the counts that select it, by one |
| AppointmentModels.CountConcat | appointments/views.py:416-418 | counting is additive over a split table |
| AppointmentModels.CountEmptyRange | appointments/forms.py:96 | a time range whose start lies after its end selects nothing |
| AppointmentModels.CountAllSelected | appointments/forms.py:103 | a filter every row matches counts the whole table |
| AppointmentModels.CountNoneSelected | appointments/views.py:56 | a filter no row matches counts zero |
| AppointmentModels.SkippingCancelledCountsFewer | appointments/views.py:56 | excluding cancelled rows never raises a count |
| AppointmentModels.CountSplitRange | appointments/views.py:461-462 | a closed time range splits at any minute into two parts whose counts add up to the whole |
| AppointmentModels.FindById | appointments/views.py:144 | the record found has the id and is in the table; none is found exactly when no row has the id |
| AppointmentModels.FindByIdAppend | appointments/views.py:87 | a row inserted under an id no other row has is the row a lookup of that id finds |
| AppointmentForms.ChoiceValues | appointments/forms.py:10-28 | sixteen values, entry i being the printed time 09:00 + 30·i |
| AppointmentForms.TimeChoices | appointments/forms.py:14-28 | the loop builds exactly those sixteen values, each of which parses back to 09:00 + 30·i |
| AppointmentForms.ChoiceGridEnds | appointments/forms.py:11-12 | the grid starts at "09:00", ends at "16:30" and rises by 30 minutes |
| AppointmentForms.CleanPreferredDate | appointments/forms.py:44-50 | refuses exactly the given dates that are not after today, and returns the date unchanged otherwise |
| AppointmentForms.CleanPreferredTime | appointments/forms.py:52-68 | accepts exactly the parsable times in [09:00, 16:30] and returns the original string; an unparsable value is the ValueError case |
| AppointmentForms.CleanPreferredTimeWindow | appointments/forms.py:62-66 | a printed time passes exactly when it lies in [09:00, 16:30], both ends included |
| AppointmentForms.TimeChoicesPassCleanTime | appointments/forms.py:30-34 | every value the choice field admits passes the time check unchanged |
| AppointmentForms.Save | appointments/forms.py:70-106 | either hands back the unsaved draft unchanged or raises the capacity error; it writes nothing |
| AppointmentForms.SaveRefusesFullWindow | appointments/forms.py:85-104 | for times 30 minutes or more from midnight, refuses exactly when five or more bookings are on the date in [T − 30, T + 30], of any status, the edited row excluded |
| AppointmentForms.SaveAdmitsWrappedWindow | appointments/forms.py:91-97 | within 30 minutes of midnight the window wraps and the booking is always admitted |
| AppointmentForms.SixthBookingRefused | appointments/forms.py:102-104 | after five bookings inside a window, a sixth attempt there is refused |
| AppointmentForms.SaveAdmitsBelowCapacity | appointments/forms.py:103-106 | fewer than five conflicts admit the booking |
| SlotSearch.FirstFreeIsFirst | appointments/views.py:59-63 | the first free candidate is free and every earlier one is full; there is none exactly when all are full |
| SlotSearch.DayCandidatesGrid | appointments/views.py:40-65 | a day's candidates run from the start time in 30-minute steps up to 16:30, and no further |
| SlotSearch.CandidatesPlaced | appointments/views.py:33-40 | every candidate lies in the horizon and not after 16:30. On the preferred date it is at least 30 minutes after the preferred time, on the step grid; on later days it is on the grid from 08:00 |
| SlotSearch.ReachableCandidates | appointments/views.py:41-50 | for a preferred time before 23:30, every candidate lies on its own date, on the preferred date at least 30 minutes later, between 00:30 and 16:30; its window is never clamped, so it selects the live bookings of that date in [t − 30, t + 30] |
| SlotSearch.WindowQuery | appointments/views.py:41-56 | the conflict query of a candidate: live bookings on the scanned date between the window's ends, an end that falls on another day clamped to 08:00 or 16:30; no contract of its own, its meaning is stated by SlotSearch.ReachableCandidates |
| SlotSearch.NearestSlot | appointments/views.py:22-67 | the specification of the search: the first free candidate in scan order; no contract of its own, its meaning is stated by SlotSearch.NearestSlotIsFirstFree and SlotSearch.NearestSlotPlacement |
| SlotSearch.NearestSlotIsFirstFree | appointments/views.py:53-67 | the answer is None exactly when every candidate in the horizon is full; otherwise it is the first free candidate in scan order |
| SlotSearch.NearestSlotPlacement | appointments/views.py:33-40 | an answer lies within max_days of the preferred date and not after 16:30. On the preferred date, for a preferred time before 23:30, it is at least 30 minutes later; on a later day it is on the grid from 08:00 |
| SlotSearch.ScanDay | appointments/views.py:40-65 | the inner loop returns the first free candidate of the day |
| SlotSearch.ScanOffset | appointments/views.py:34-38 | scanning one day offset finds the horizon's answer, or hands it on to the next offset |
| SlotSearch.FindNearestAvailableSlot | appointments/views.py:22-67 | the nested loops return exactly the nearest free slot of the specification |
| SlotSearch.FiveAtTenSuggestsEleven | appointments/views.py:53-65 | with five or more live bookings at 10:00, a request for 10:00 is pointed to 11:00 on the same day |
| SlotSearch.LatePreferredTimeWrapsToEarlyMorning | appointments/views.py:35-50 | with an empty table and a preferred time of 23:45, the suggestion is 00:15, reported on the preferred date |
| SlotSearch.SuggestionCanFallBeforeFormHours | appointments/views.py:24 | with an empty table and a preferred time of 16:30, the suggestion is 08:00 the next day, which the booking form refuses |
| AppointmentViews.StaffStep | appointments/views.py:273-289 | a staff action changes a status only pending→approved, approved→claimed or pending→cancelled; completed, cancelled and claimed records are never changed |
| AppointmentViews.StaffActionsNeverComplete | appointments/views.py:188-301 | no sequence of staff list actions completes an appointment; claimed and cancelled ones stay as they are |
| AppointmentViews.Approve | appointments/views.py:273-279 | approves a pending appointment and reports anything else as already handled |
| AppointmentViews.OnlyClaimLeavesDeclaredChoices | appointments/views.py:193-196 | from a declared status, a run of staff actions reaches the undeclared claimed status only through a claim action, and a single step does so only from approved |
| AppointmentViews.StaffCancel | appointments/views.py:280-301 | with a valid reason, cancels a pending appointment and sets the reason on the object; an invalid form or a non-pending appointment changes nothing |
| AppointmentViews.PendingAppointmentsPost | appointments/views.py:268-301 | approve reports done exactly for a pending appointment, which it approves. Cancel reports already handled for a non-pending appointment, an invalid form for a missing reason, and done otherwise, cancelling only when done. Any other action is ignored and changes nothing |
| AppointmentViews.Claim | appointments/views.py:193-199 | marks an approved appointment claimed and reports anything else as already claimed |
| AppointmentViews.RescheduleCheck | appointments/views.py:216-235 | refuses, in this order: a date not after today, a time outside [09:00, 16:30], five or more live other bookings in [T − 30, T + 30] |
| AppointmentViews.Reschedule | appointments/views.py:215-243 | a refused request changes nothing and reports the first failed check; an accepted one sets only date, time, reason and rescheduled_at on the object, leaving the status alone |
| AppointmentViews.ApprovedAppointmentsPost | appointments/views.py:188-245 | claimed claims (done exactly from approved). A valid reschedule form is refused or accepted exactly as the reschedule checks decide; an invalid form and an unknown action are reported. Date, time, reason and stamp change only on an accepted reschedule, and the status only on claimed |
| AppointmentViews.ConfirmClaimed | appointments/views.py:141-150 | the "claimed" action completes the appointment, whatever its status; any other action changes nothing |
| AppointmentViews.ResidentCancel | appointments/views.py:341-345 | a POST cancels and sets the fixed resident reason on the object; a GET changes nothing |
| AppointmentViews.SweptStatus | appointments/views.py:177-180 | a sweep applies the expiry check only to the statuses it lists |
| AppointmentViews.SweepIdempotent | appointments/views.py:263-264 | sweeping a second time changes nothing |
| AppointmentViews.SweepExpired | appointments/views.py:177-180 | each row's status becomes its swept status, so only rows with a listed status can be cancelled; dates, times and the other fields are untouched |
| AppointmentViews.Book | appointments/views.py:74-97 | when save admits, a fresh auto-approved appointment is appended, and a lookup of its new id finds it. When save refuses, the table is unchanged and the nearest slot is only suggested |
| AppointmentViews.DateChecksAgree | appointments/views.py:216-217 | the reschedule date check and the booking form's date check refuse the same dates |
| AppointmentViews.CancellingOneBooking | appointments/views.py:342-345 | cancelling one live booking lowers by one every count that skips cancelled rows and selects it; every other count is unchanged |
| AppointmentViews.NeighbourWindowOverfills | appointments/forms.py:91-104 | five bookings at 11:00 plus an admitted one at 10:00 leave six in the 10:30 window, which then refuses |
| AvailabilityApi.SeatsLeft | appointments/views.py:469-470 | `max(total − booked, 0)`: never negative, and the seats left plus those booked make up the total while not overbooked |
| AvailabilityApi.DateAvailability | appointments/views.py:443-475 | the two 400 errors for a missing or unparsable date. Otherwise: live morning and afternoon counts that add up to the day's live bookings, and the seats left of 30 |
| AvailabilityApi.Tally | appointments/views.py:414-418 | a date's morning and afternoon tallies add up to all its bookings, cancelled ones included |
| AvailabilityApi.TallyOfPrefix | appointments/views.py:416-418 | each booking adds one to its date's morning tally if before 12:00, else to the afternoon tally |
| AvailabilityApi.TallyByDate | appointments/views.py:414-418 | the tally map has a key exactly for each booked date, holding that date's session counts, cancelled bookings included |
| AvailabilityApi.MonthEntry | appointments/views.py:432-437 | a day's entry is 20 minus the session's bookings, floored at zero |
| AvailabilityApi.MonthAvailability | appointments/views.py:430-440 | one entry per day of the month, in order |
| AvailabilityApi.MonthShowsNoMoreRoomThanDate | appointments/views.py:17-18 | the month view never shows more room than the date view |
| AvailabilityApi.CancelledBookingsFillMonthView | appointments/views.py:416-418 | twenty cancelled morning bookings fill the month view's morning while the date view still offers 30 |
| AccountForms.CleanEmail | accounts/forms.py:49-53 | refuses exactly the registered emails and returns the email unchanged otherwise |
| AccountForms.CleanCapitalised | accounts/forms.py:120-261 | the name checks of the staff form (lines 120-136) and the resident form's first, middle and last name and citizenship checks (lines 239-261) share one rule: a non-empty value whose first character is not upper-case is refused; anything else, the empty value included, passes unchanged |
| AccountForms.CleanPhoneNumber | accounts/forms.py:229-237 | empty passes. Anything else must be 11 digits, or the format error is raised; an 11-digit number already in use gets the in-use error |
| AccountForms.SuperscriptDigitsPass | accounts/forms.py:233 | `isdigit` admits superscript digits, so such a number passes |
| AccountForms.Emails | accounts/forms.py:51 | the registered emails are exactly those of the stored users |
| AccountForms.ResidentSave | accounts/forms.py:56-61 | the user gets the resident role and is stored only on commit |
| AccountForms.StaffSave | accounts/forms.py:138-153 | the user gets the staff role and, on commit only, is stored with a staff record holding the three names |
| AccountForms.CommittedEmailIsTaken | accounts/forms.py:49-61 | once saved, an email is refused by both forms' email checks |
| AccountForms.SignUpDecidesStaffAccess | accounts/forms.py:56-61 | a user stored by the resident form fails the staff pages' role test; one stored by the staff form passes it, together with a staff record for that same user |
| RegisterScript.CapitalisationMessage | accounts/static/accounts/js/register.js:45-52 | the message is set exactly when the value is non-empty and does not start with A–Z |
| RegisterScript.CheckCapitalisation | accounts/static/accounts/js/register.js:45-52 | sets the field's validity message to that message |
| RegisterScript.ServerRefusalIsFlagged | accounts/static/accounts/js/register.js:47 | every name the server refuses is also flagged by the page |
| RegisterScript.AccentedCapitalFlaggedButAccepted | accounts/static/accounts/js/register.js:47 | "Élan" is flagged by the page but accepted by the server |
| RegisterScript.PhoneFilter | accounts/static/accounts/js/register.js:55-58 | the field is left with digits only, at most eleven of them, and a value of eleven digits or fewer keeps all its digits |
| RegisterScript.DigitsOnly | accounts/static/accounts/js/register.js:55 | `replace(/\D/g, '')` leaves only ASCII digits and never lengthens the value |
| RegisterScript.NonDigitDropped | accounts/static/accounts/js/register.js:55 | `\D` matches every character that is not an ASCII digit, so a single such character is removed and a single digit is kept; with RegisterScript.DigitsOnlyConcat this fixes the filter on every string |
| RegisterScript.DigitsOnlyOfDigits | accounts/static/accounts/js/register.js:55 | a digit string is left as it is |
| RegisterScript.DigitsOnlyConcat | accounts/static/accounts/js/register.js:55 | filtering distributes over concatenation |
| RegisterScript.ValidatePhoneNumber | accounts/static/accounts/js/register.js:54-59 | the value becomes the filtered, truncated phone number |
| RegisterScript.PhoneFilterShape | accounts/static/accounts/js/register.js:55-58 | the result is all digits: the first min(11, digit count) digits of the input |
| RegisterScript.PhoneFilterIdempotent | accounts/static/accounts/js/register.js:55-58 | filtering a filtered value changes nothing |
| RegisterScript.FilteredPhoneFormat | accounts/static/accounts/js/register.js:54-59 | a filtered value avoids the server's format error exactly when it is empty or 11 long |
| RegisterScript.KeypressPrevented | accounts/static/accounts/js/register.js:76-88 | a digit key is blocked exactly at 11 or more characters; any other key is blocked exactly when it is not an editing key |
| TimeRestrictionScript.ParseTime | appointments/static/appointments/js/time_restriction.js:15-20 | `parseTime`; no contract of its own, its meaning is stated by TimeRestrictionScript.NullExactlyWithoutColon and TimeRestrictionScript.ParseFormatted |
| TimeRestrictionScript.NoColonIsNull | appointments/static/appointments/js/time_restriction.js:17-18 | a value without a colon parses to null |
| TimeRestrictionScript.NullExactlyWithoutColon | appointments/static/appointments/js/time_restriction.js:15-18 | `parseTime` is null exactly for the empty value and for values without a colon |
| TimeRestrictionScript.ParseFormatted | appointments/static/appointments/js/time_restriction.js:19 | "HH:MM" parses to HH·60 + MM |
| TimeRestrictionScript.BoundsParsed | appointments/static/appointments/js/time_restriction.js:2-3 | the bounds parse to 540 and 1020 |
| TimeRestrictionScript.TimeAccepted | appointments/static/appointments/js/time_restriction.js:24-39 | what `validateTime` returns; no contract of its own, its meaning is stated by TimeRestrictionScript.TimeAcceptedRange |
| TimeRestrictionScript.TimeValidity | appointments/static/appointments/js/time_restriction.js:24-39 | the validity message `validateTime` leaves; no contract of its own, its meaning is stated by TimeRestrictionScript.ValidityAgreesWithResult |
| TimeRestrictionScript.ValidityAgreesWithResult | appointments/static/appointments/js/time_restriction.js:32-38 | the range message is set exactly when validation fails |
| TimeRestrictionScript.TimeAcceptedRange | appointments/static/appointments/js/time_restriction.js:27-39 | a numeric value passes exactly in [540, 1020]; null and NaN always pass |
| TimeRestrictionScript.ValidateTime | appointments/static/appointments/js/time_restriction.js:22-40 | returns whether the value passes, and leaves the validity message untouched, the range message, or empty |
| TimeRestrictionScript.AcceptedUpToMeans | appointments/static/appointments/js/time_restriction.js:48-49 | the running flag holds exactly when every field so far passed |
| TimeRestrictionScript.ValiditiesUpTo | appointments/static/appointments/js/time_restriction.js:49 | one message per field validated so far |
| TimeRestrictionScript.ValiditiesUpToMeans | appointments/static/appointments/js/time_restriction.js:49 | each field's message is the one validateTime gives for its own value |
| TimeRestrictionScript.GuardField | appointments/static/appointments/js/time_restriction.js:49 | one turn of the loop validates field i and folds its verdict into the flag |
| TimeRestrictionScript.SubmitGuard | appointments/static/appointments/js/time_restriction.js:45-52 | the submission proceeds exactly when every time field passes; each field gets validateTime's message and no value changes |
| TimeRestrictionScript.ServerAcceptedIsClientAccepted | appointments/static/appointments/js/time_restriction.js:27-39 | every time the booking form accepts also passes the page |
| TimeRestrictionScript.SeventeenHundredPassesOnlyThePage | appointments/static/appointments/js/time_restriction.js:3 | "17:00" passes the page but the form refuses it |
| TimeRestrictionScript.GarbagePassesThePage | appointments/static/appointments/js/time_restriction.js:17-19 | "ab:00" parses to NaN and passes |
| StaffTags.GetStaffName | accounts/templatetags/staff_tags.py:6-22 | no record, or a missing first or last name, gives "Barangay Staff"; otherwise the names joined by single spaces, the middle one only when present |
| StaffTags.NameSplitsIntoParts | accounts/templatetags/staff_tags.py:13-17 | when no name contains a space, splitting the composed name at spaces gives back the first, middle (if any) and last names |
| StaffTags.NameSpaces | accounts/templatetags/staff_tags.py:15-17 | the spaces sit right after the first name and right after the middle name |
| StaffTags.DefaultNameMeans | accounts/templatetags/staff_tags.py:13-22 | the default name means either no usable record or a staff member named exactly "Barangay Staff" |
| StaffTags.BarangayStaffLooksLikeDefault | accounts/templatetags/staff_tags.py:22 | a staff member named "Barangay Staff" is indistinguishable from the default |
| StaffTags.CreatedStaffIsNamed | accounts/templatetags/staff_tags.py:13-17 | the staff record just created by the staff form is displayed by its names |

## Left out

- Request and response plumbing is left out: rendering, redirects, flash messages, `JsonResponse`, `@login_required` and the role checks. The `Outcome` values stand in for the messages.
- Read-only views with no decision logic are left out: the appointment, cancelled and completed lists, the calendar, the detail and confirmation pages, `api_appointments_list` and the `claimed_count` display.
- AppointmentViews.StaffCancel: the cancellation reason is set on the in-memory object only. appointments/models.py:5-28 declares no `cancellation_reason` column, so `save()` at appointments/views.py:289 does not store it.
- AppointmentViews.ResidentCancel: likewise, the resident's fixed reason is set on the object and not stored by `save()` at appointments/views.py:345.
- AppointmentViews.Reschedule: likewise, `reschedule_reason` and `rescheduled_at` live only on the object; `save()` at appointments/views.py:242 stores the new date and time only.
- Locking is not modelled (`transaction.atomic`, `select_for_update`). `AppointmentViews.Book` performs the check and the insert as one sequential step.
- Clocks and time zones are parameters: `timezone.now`, `date.today` and `make_aware` are not modelled. `refresh_if_expired` calls a `make_aware` that `datetime.timezone` does not have; the model performs the comparison that call was meant to feed.
- Calendar arithmetic is left out. Dates are day numbers. The month's first day and length are inputs of `AvailabilityApi.MonthAvailability`. `strptime('%Y-%m-%d')` is abstracted to `AvailabilityApi.DateParam`.
- The views' string-to-time conversions are not modelled (appointments/views.py:29-31, 83-85, 209-213). Times reach them already as minutes. Their `ValueError` is modelled once, in `AppointmentForms.CleanPreferredTime`.
- `RescheduleForm` and `CancellationReasonForm` are not defined anywhere in the repository (see "Missing forms" above). Their validity is an `Option` argument, where None means an invalid form. The same holds for the models of `accounts/models.py`: the model keeps only a user's email and role, and the three names of a staff record.
- Presentation is left out: the `'%I:%M %p'` label, `get_certificate_type_display` and `__str__`.
- `Clock.ParseHHMM`: accepts only plain ASCII digit strings. Python's `int()` also accepts surrounding whitespace, signs, underscores and other Unicode digits.
- `TimeRestrictionScript.ToNumber`: reads only digit strings, and anything else as NaN. JavaScript's `Number` also reads whitespace, signs, decimals, exponents and hexadecimal, and loses precision beyond 2^53.
- `AccountForms.IsUpperChar` and `AccountForms.IsDigitChar`: cover Latin-1 capitals and the ASCII and superscript digits. The rest of Unicode's upper-case letters and digits is not modelled.
- `reportValidity` is left out, as are the `change` listener of `setConstraints`, the event wiring on `DOMContentLoaded`, and the modal and file-upload handlers of the registration page. The fields are given as a sequence; the keypress handler receives the key code and the field's length.
- `get_staff_name`'s catch-all `except Exception` is not modelled: the lookup's outcome is an `Option` argument.
- `AppointmentViews.SweepExpired`: each row is swept on its own. The queryset's ordering and its re-evaluation after the sweep are not modelled.
- Passwords are left out: the password fields and `UserCreationForm`'s own checks (matching passwords, password strength) are not modelled.
- Document uploads are left out: the resident form's address-document upload and its storage calls are not modelled.
