/**
 * The booking page's client check in
 * appointments/static/appointments/js/time_restriction.js: `parseTime`
 * turns "HH:MM" into minutes with JavaScript's `Number`, `validateTime`
 * accepts 09:00 to 17:00 inclusive (and anything it cannot read), and the
 * submit guard blocks the form when any time field fails.
 */
module TimeRestrictionScript {
  import opened Wrappers
  import opened Strings
  import opened Clock
  import opened Dom
  import AppointmentForms

  const MinTime: string := "09:00"
  const MaxTime: string := "17:00"
  const RangeMessage: string := "Please select a time between 09:00 and 17:00."

  /** A JavaScript number as far as these scripts use one: an integer or NaN. */
  datatype JsNumber = Num(n: int) | NaN

  /**
   * `Number(piece)` for the pieces a time value splits into: the empty
   * string is 0, a string of ASCII digits its decimal value, anything else NaN.
   */
  function ToNumber(s: string): JsNumber {
    if AllDigits(s) then Num(DecimalValue(s)) else NaN
  }

  /** `h * 60 + m`, NaN when either operand is. */
  function MinutesOf(h: JsNumber, m: JsNumber): JsNumber {
    if h.Num? && m.Num? then Num(h.n * 60 + m.n) else NaN
  }

  /** `parseTime(val)`; None is `null`. */
  function ParseTime(val: string): Option<JsNumber> {
    if val == [] then None
    else
      var parts := Split(val, ':');
      if |parts| < 2 then None
      else Some(MinutesOf(ToNumber(parts[0]), ToNumber(parts[1])))
  }

  /** A value without a colon is `null` to `parseTime`. */
  lemma NoColonIsNull(val: string)
    requires ':' !in val
    ensures ParseTime(val).None?
  {
    SplitWithoutSeparator(val, ':');
  }

  /** `parseTime` gives null exactly for the empty value and for a value without a colon. */
  lemma NullExactlyWithoutColon(val: string)
    ensures ParseTime(val).None? <==> val == [] || ':' !in val
  {
    SplitPieceCount(val, ':');
  }

  /** A two-digit-colon-two-digit time parses to its minute of the day. */
  lemma ParseFormatted(t: Minute)
    ensures ParseTime(FormatHHMM(t)) == Some(Num(t))
  {
    var h, m := Pad2(t / 60), Pad2(t % 60);
    assert FormatHHMM(t) == h + [':'] + m;
    assert ':' !in h by {
      assert forall i :: 0 <= i < |h| ==> IsAsciiDigit(h[i]);
    }
    assert ':' !in m by {
      assert forall i :: 0 <= i < |m| ==> IsAsciiDigit(m[i]);
    }
    SplitAfterPrefix(h, m, ':');
    SplitWithoutSeparator(m, ':');
  }

  /** The bounds `parseTime(MIN)` and `parseTime(MAX)`: 540 and 1020. */
  lemma BoundsParsed()
    ensures ParseTime(MinTime) == Some(Num(540))
    ensures ParseTime(MaxTime) == Some(Num(1020))
  {
    assert FormatHHMM(540) == MinTime;
    assert FormatHHMM(1020) == MaxTime;
    ParseFormatted(540);
    ParseFormatted(1020);
  }

  /** The comparison `v < min || v > max`, false for NaN. */
  predicate OutOfRange(v: JsNumber) {
    v.Num? && (v.n < 540 || v.n > 1020)
  }

  /** What `validateTime` returns for a value. */
  predicate TimeAccepted(value: string) {
    value == [] || ParseTime(value).None? || !OutOfRange(ParseTime(value).value)
  }

  /**
   * The validity message after `validateTime`: untouched for an empty or
   * null value, the range message when out of range, "" otherwise.
   */
  function TimeValidity(value: string, previous: string): string {
    if value == [] || ParseTime(value).None? then previous
    else if OutOfRange(ParseTime(value).value) then RangeMessage
    else ""
  }

  /** Accepted exactly when the message is not the range message. */
  lemma ValidityAgreesWithResult(value: string, previous: string)
    requires previous != RangeMessage
    ensures TimeAccepted(value) <==> TimeValidity(value, previous) != RangeMessage
  {
  }

  /**
   * For a value that reads as a number of minutes, acceptance is the range
   * [540, 1020]; a value that reads as null or NaN is always accepted.
   */
  lemma TimeAcceptedRange(value: string)
    ensures ParseTime(value).Some? && ParseTime(value).value.Num? ==>
      (TimeAccepted(value) <==> 540 <= ParseTime(value).value.n <= 1020)
    ensures ParseTime(value).None? || ParseTime(value) == Some(NaN) ==> TimeAccepted(value)
  {
  }

  /** `validateTime(input)`; reporting the validity to the user is left out. */
  method ValidateTime(input: InputField) returns (ok: bool)
    modifies input`customValidity
    ensures ok == TimeAccepted(input.value)
    ensures input.customValidity == TimeValidity(input.value, old(input.customValidity))
  {
    var value := input.value;
    if value == [] {
      return true;
    }
    var v := ParseTime(value);
    var min := ParseTime(MinTime);
    var max := ParseTime(MaxTime);
    BoundsParsed();
    if v.None? {
      return true;
    }
    if v.value.Num? && (v.value.n < min.value.n || v.value.n > max.value.n) {
      input.customValidity := RangeMessage;
      return false;
    } else {
      input.customValidity := "";
      return true;
    }
  }

  /** Whether the first n values all pass `validateTime`. */
  predicate AcceptedUpTo(values: seq<string>, n: nat)
    requires n <= |values|
  {
    n == 0 || (AcceptedUpTo(values, n - 1) && TimeAccepted(values[n - 1]))
  }

  /** The first n values pass exactly when each of them does. */
  lemma {:induction false} AcceptedUpToMeans(values: seq<string>, n: nat)
    requires n <= |values|
    ensures AcceptedUpTo(values, n) <==> forall j :: 0 <= j < n ==> TimeAccepted(values[j])
  {
    if n > 0 {
      AcceptedUpToMeans(values, n - 1);
    }
  }

  /** The validity messages the first n fields are left with. */
  function ValiditiesUpTo(values: seq<string>, previous: seq<string>, n: nat): (r: seq<string>)
    requires n <= |values| && n <= |previous|
    ensures |r| == n
  {
    if n == 0 then [] else ValiditiesUpTo(values, previous, n - 1) + [TimeValidity(values[n - 1], previous[n - 1])]
  }

  /** Field j ends with the message validateTime gives for its own value and message. */
  lemma {:induction false} ValiditiesUpToMeans(values: seq<string>, previous: seq<string>, n: nat)
    requires n <= |values| && n <= |previous|
    ensures forall j :: 0 <= j < n ==>
      ValiditiesUpTo(values, previous, n)[j] == TimeValidity(values[j], previous[j])
  {
    if n > 0 {
      ValiditiesUpToMeans(values, previous, n - 1);
    }
  }

  /**
   * One turn of the submit handler's loop: validate field i and fold its
   * verdict into the running result, given that fields before i are done
   * and fields from i on are untouched.
   */
  method GuardField(fields: seq<InputField>, i: nat, ok: bool, ghost values: seq<string>,
                    ghost previous: seq<string>, ghost messages: seq<string>)
    returns (ok': bool, ghost messages': seq<string>)
    requires forall p, q :: 0 <= p < q < |fields| ==> fields[p] != fields[q]
    requires i < |fields| == |values| == |previous| && |messages| == i
    requires forall j :: 0 <= j < |fields| ==> fields[j].value == values[j]
    requires forall j :: i <= j < |fields| ==> fields[j].customValidity == previous[j]
    requires forall j :: 0 <= j < i ==> fields[j].customValidity == messages[j]
    requires messages == ValiditiesUpTo(values, previous, i)
    requires ok == AcceptedUpTo(values, i)
    modifies fields[i..i + 1]`customValidity
    ensures |messages'| == i + 1
    ensures forall j :: i + 1 <= j < |fields| ==> fields[j].customValidity == previous[j]
    ensures forall j :: 0 <= j < i + 1 ==> fields[j].customValidity == messages'[j]
    ensures messages' == ValiditiesUpTo(values, previous, i + 1)
    ensures ok' == AcceptedUpTo(values, i + 1)
  {
    var valid := ValidateTime(fields[i]);
    messages' := messages + [fields[i].customValidity];
    ok' := ok && valid;
  }

  /**
   * The submit handler of `attachFormGuards`: validate every time field of
   * the form; the submission goes ahead only when all pass.
   */
  method SubmitGuard(fields: seq<InputField>) returns (ok: bool)
    requires forall i, j :: 0 <= i < j < |fields| ==> fields[i] != fields[j]
    modifies fields`customValidity
    ensures ok <==> forall i :: 0 <= i < |fields| ==> TimeAccepted(fields[i].value)
    ensures forall i :: 0 <= i < |fields| ==>
      fields[i].value == old(fields[i].value)
      && fields[i].customValidity == TimeValidity(fields[i].value, old(fields[i].customValidity))
  {
    ghost var values: seq<string> := [];
    ghost var previous: seq<string> := [];
    ghost var k := 0;
    while k < |fields|
      invariant 0 <= k <= |fields| && |values| == k && |previous| == k
      invariant forall j :: 0 <= j < k ==>
        values[j] == fields[j].value && previous[j] == fields[j].customValidity
    {
      values := values + [fields[k].value];
      previous := previous + [fields[k].customValidity];
      k := k + 1;
    }
    ghost var messages: seq<string> := [];
    ok := true;
    var i := 0;
    while i < |fields|
      invariant 0 <= i <= |fields| && |messages| == i
      invariant forall j :: 0 <= j < |fields| ==> fields[j].value == values[j]
      invariant forall j :: i <= j < |fields| ==> fields[j].customValidity == previous[j]
      invariant forall j :: 0 <= j < i ==> fields[j].customValidity == messages[j]
      invariant messages == ValiditiesUpTo(values, previous, i)
      invariant ok == AcceptedUpTo(values, i)
    {
      ok, messages := GuardField(fields, i, ok, values, previous, messages);
      i := i + 1;
    }
    AcceptedUpToMeans(values, |fields|);
    ValiditiesUpToMeans(values, previous, |fields|);
  }

  /** A time the booking form accepts is never blocked by the page. */
  lemma ServerAcceptedIsClientAccepted(value: string)
    requires AppointmentForms.CleanPreferredTime(value).Ok?
    ensures TimeAccepted(value)
  {
    var parts := Split(value, ':');
    assert ParseHHMM(value).Some?;
    assert |parts| == 2 && IsDecimal(parts[0]) && IsDecimal(parts[1]);
    assert ParseTime(value) == Some(Num(DecimalValue(parts[0]) * 60 + DecimalValue(parts[1])));
  }

  /** The page's window ends at 17:00, the form's at 16:30: 17:00 passes the page only. */
  lemma SeventeenHundredPassesOnlyThePage()
    ensures TimeAccepted(MaxTime)
    ensures AppointmentForms.CleanPreferredTime(MaxTime).Err?
  {
    BoundsParsed();
    assert FormatHHMM(1020) == MaxTime;
    AppointmentForms.CleanPreferredTimeWindow(1020);
  }

  /** A piece JavaScript reads as NaN makes the value pass the page: "ab:00" is accepted. */
  lemma GarbagePassesThePage()
    ensures ParseTime("ab:00") == Some(NaN)
    ensures TimeAccepted("ab:00")
  {
    SplitAfterPrefix("ab", "00", ':');
    SplitWithoutSeparator("00", ':');
    assert "ab:00" == "ab" + [':'] + "00";
    assert !AllDigits("ab");
  }
}
