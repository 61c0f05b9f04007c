/**
 * The sign-up page's client checks in accounts/static/accounts/js/register.js:
 * `checkCapitalization` on the name and citizenship inputs,
 * `validatePhoneNumber` on every input event of the phone field, and the
 * phone field's keypress filter.
 */
module RegisterScript {
  import opened Wrappers
  import opened Strings
  import opened Dom
  import AccountForms

  const CapitalMessage: string := "This field must start with a capital letter."
  const PhoneLength: nat := 11

  /** `/[A-Z]/` on one character. */
  predicate IsAsciiUpper(c: char) {
    'A' <= c <= 'Z'
  }

  /** The validity message `checkCapitalization` leaves on a field with this value. */
  function CapitalisationMessage(value: string): (m: string)
    ensures m != "" <==> value != [] && !IsAsciiUpper(value[0])
    ensures m != "" ==> m == CapitalMessage
  {
    if |value| > 0 && !IsAsciiUpper(value[0]) then CapitalMessage else ""
  }

  /** `checkCapitalization(input)`. */
  method CheckCapitalisation(input: InputField)
    modifies input`customValidity
    ensures input.customValidity == CapitalisationMessage(input.value)
  {
    var value := input.value;
    if |value| > 0 && !IsAsciiUpper(value[0]) {
      input.customValidity := CapitalMessage;
    } else {
      input.customValidity := "";
    }
  }

  /** Whatever the server refuses as not capitalised, the page has already flagged. */
  lemma ServerRefusalIsFlagged(field: AccountForms.NameField, value: string)
    requires AccountForms.CleanCapitalised(field, value).Err?
    ensures CapitalisationMessage(value) != ""
  {
  }

  /** The page is stricter than the server: a capital with an accent is flagged but accepted. */
  lemma AccentedCapitalFlaggedButAccepted()
    ensures CapitalisationMessage("Élan") == CapitalMessage
    ensures AccountForms.CleanCapitalised(AccountForms.FirstName, "Élan") == Ok("Élan")
  {
  }

  /** `value.replace(/\D/g, '')`: the ASCII digits of the value, in order. */
  function DigitsOnly(s: string): (d: string)
    ensures AllDigits(d) && |d| <= |s|
    decreases |s|
  {
    if s == [] then []
    else (if IsAsciiDigit(s[0]) then [s[0]] else []) + DigitsOnly(s[1..])
  }

  /** The filter drops a single non-digit and keeps a single digit. */
  lemma NonDigitDropped(c: char)
    ensures !IsAsciiDigit(c) ==> DigitsOnly([c]) == []
    ensures IsAsciiDigit(c) ==> DigitsOnly([c]) == [c]
  {
  }

  lemma {:induction false} DigitsOnlyOfDigits(s: string)
    requires AllDigits(s)
    ensures DigitsOnly(s) == s
    decreases |s|
  {
    if s != [] {
      DigitsOnlyOfDigits(s[1..]);
      assert s == [s[0]] + s[1..];
    }
  }

  /** Filtering distributes over concatenation: text typed or pasted later is filtered on its own. */
  lemma {:induction false} DigitsOnlyConcat(a: string, b: string)
    ensures DigitsOnly(a + b) == DigitsOnly(a) + DigitsOnly(b)
    decreases |a|
  {
    if a != [] {
      var head := if IsAsciiDigit(a[0]) then [a[0]] else [];
      assert (a + b)[0] == a[0] && (a + b)[1..] == a[1..] + b;
      assert DigitsOnly(a + b) == head + DigitsOnly(a[1..] + b);
      DigitsOnlyConcat(a[1..], b);
      assert DigitsOnly(a) == head + DigitsOnly(a[1..]);
    } else {
      assert a + b == b;
    }
  }

  /** The phone field's value after `validatePhoneNumber`. */
  function PhoneFilter(s: string): (p: string)
    ensures AllDigits(p) && |p| <= PhoneLength
    ensures |DigitsOnly(s)| <= PhoneLength ==> p == DigitsOnly(s)
  {
    var d := DigitsOnly(s);
    if |d| > PhoneLength then d[..PhoneLength] else d
  }

  /** `validatePhoneNumber(input)`: keep the digits, then cut to eleven. */
  method ValidatePhoneNumber(input: InputField)
    modifies input`value
    ensures input.value == PhoneFilter(old(input.value))
  {
    input.value := DigitsOnly(input.value);
    if |input.value| > PhoneLength {
      input.value := input.value[..PhoneLength];
    }
  }

  /**
   * The filtered value is the first eleven digits of the input (all of
   * them when there are fewer), nothing else.
   */
  lemma PhoneFilterShape(s: string)
    ensures AllDigits(PhoneFilter(s))
    ensures |PhoneFilter(s)| == if |DigitsOnly(s)| > PhoneLength then PhoneLength else |DigitsOnly(s)|
    ensures PhoneFilter(s) == DigitsOnly(s)[..|PhoneFilter(s)|]
  {
  }

  /** A second pass changes nothing. */
  lemma PhoneFilterIdempotent(s: string)
    ensures PhoneFilter(PhoneFilter(s)) == PhoneFilter(s)
  {
    DigitsOnlyOfDigits(PhoneFilter(s));
  }

  /**
   * After the filter the server's format rule holds exactly when the field
   * is empty or has reached eleven digits.
   */
  lemma FilteredPhoneFormat(s: string, inUse: set<string>)
    ensures AccountForms.CleanPhoneNumber(PhoneFilter(s), inUse) != Err(AccountForms.PhoneFormat)
      <==> |PhoneFilter(s)| == 0 || |PhoneFilter(s)| == PhoneLength
  {
    var p := PhoneFilter(s);
    if p != [] {
      assert AccountForms.IsDigitString(p) by {
        forall i | 0 <= i < |p| ensures AccountForms.IsDigitChar(p[i]) {
          assert IsAsciiDigit(p[i]);
        }
      }
    }
  }

  predicate IsDigitKey(which: int) {
    48 <= which <= 57
  }

  /** Backspace, tab, the arrow keys, delete (46) and DEL (127). */
  predicate IsEditingKey(which: int) {
    which == 8 || which == 9 || which == 46 || which == 37 || which == 38 || which == 39 || which == 40
    || which == 127
  }

  /**
   * The keypress handler's `preventDefault` decision for a key code and
   * the field's current length.
   */
  function KeypressPrevented(length: nat, which: int): (blocked: bool)
    ensures IsDigitKey(which) ==> (blocked <==> length >= PhoneLength)
    ensures !IsDigitKey(which) ==> (blocked <==> !IsEditingKey(which))
  {
    var blockedAsNonDigit :=
      (which < 48 || which > 57)
      && which != 8 && which != 9 && which != 46
      && which != 37 && which != 38 && which != 39 && which != 40
      && (which < 127 || which > 127);
    var blockedAsTooLong := length >= PhoneLength && (which >= 48 && which <= 57);
    blockedAsNonDigit || blockedAsTooLong
  }
}
