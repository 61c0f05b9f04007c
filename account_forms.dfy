/**
 * The field checks and the role assignment of accounts/forms.py: email
 * uniqueness (both sign-up forms), the first-letter-uppercase rule of the
 * name and citizenship fields, the 11-digit phone rule with its
 * uniqueness test, and `save` setting the role (and, for staff, creating
 * the staff record).
 */
module AccountForms {
  import opened Wrappers
  import opened Strings

  datatype NameField = FirstName | MiddleName | LastName | Citizenship

  datatype AccountError =
    | EmailTaken               // "This email address is already registered."
    | NotCapitalised(field: NameField)  // "... must start with a capital letter."
    | PhoneFormat              // "Phone number must be exactly 11 digits."
    | PhoneInUse               // "This phone number is already in use."

  /**
   * Python's `str.isupper` on one character, over Latin-1: A-Z and the
   * uppercase letters U+00C0-U+00D6 and U+00D8-U+00DE.
   */
  predicate IsUpperChar(c: char) {
    ('A' <= c <= 'Z') || ('À' <= c <= 'Ö') || ('Ø' <= c <= 'Þ')
  }

  /** Python's `str.isdigit` on one character, over Latin-1: 0-9, ¹, ² and ³. */
  predicate IsDigitChar(c: char) {
    IsAsciiDigit(c) || c == '¹' || c == '²' || c == '³'
  }

  /** `s.isdigit()`: non-empty and every character a digit. */
  predicate IsDigitString(s: string) {
    s != [] && forall i :: 0 <= i < |s| ==> IsDigitChar(s[i])
  }

  /** `clean_email` of both sign-up forms. */
  function CleanEmail(email: string, registered: set<string>): (r: Result<string, AccountError>)
    ensures r.Err? <==> email in registered
    ensures r.Err? ==> r.error == EmailTaken
    ensures r.Ok? ==> r.value == email
  {
    if email in registered then Err(EmailTaken) else Ok(email)
  }

  /**
   * `clean_first_name`, `clean_middle_name`, `clean_last_name` and
   * `clean_citizenship`: an empty value passes; otherwise the first
   * character must be uppercase.  The value is returned unchanged.
   */
  function CleanCapitalised(field: NameField, value: string): (r: Result<string, AccountError>)
    ensures r.Err? <==> value != [] && !IsUpperChar(value[0])
    ensures r.Err? ==> r.error == NotCapitalised(field)
    ensures r.Ok? ==> r.value == value
  {
    if value != [] && !IsUpperChar(value[0]) then Err(NotCapitalised(field)) else Ok(value)
  }

  /**
   * `clean_phone_number`: an empty value passes; otherwise it must be
   * eleven digits, then not already in use.  The value is returned
   * unchanged.
   */
  function CleanPhoneNumber(phone: string, inUse: set<string>): (r: Result<string, AccountError>)
    ensures phone == [] ==> r == Ok(phone)
    ensures phone != [] ==>
      (r == Err(PhoneFormat) <==> !(IsDigitString(phone) && |phone| == 11))
    ensures phone != [] && IsDigitString(phone) && |phone| == 11 ==>
      (r == Err(PhoneInUse) <==> phone in inUse)
    ensures r.Ok? ==> r.value == phone && (phone == [] || phone !in inUse)
  {
    if phone == [] then Ok(phone)
    else if !IsDigitString(phone) || |phone| != 11 then Err(PhoneFormat)
    else if phone in inUse then Err(PhoneInUse)
    else Ok(phone)
  }

  /**
   * Python's `isdigit` is wider than 0-9: eleven characters starting with
   * ² pass the server's format check.
   */
  lemma SuperscriptDigitsPass()
    ensures CleanPhoneNumber("²0000000000", {}) == Ok("²0000000000")
  {
    var s := "²0000000000";
    assert |s| == 11;
    assert forall i :: 0 <= i < |s| ==> IsDigitChar(s[i]);
  }

  datatype Role = ResidentRole | StaffRole

  /** The account row: e-mail and role. */
  datatype User = User(email: string, role: Role)

  /** The BarangayStaff row: the three name columns (a missing column is None). */
  datatype StaffRecord = StaffRecord(user: User, firstName: Option<string>, middleName: Option<string>,
                                     lastName: Option<string>)

  function Emails(users: seq<User>): (es: set<string>)
    ensures forall u :: u in users ==> u.email in es
    ensures forall e :: e in es ==> exists u :: u in users && u.email == e
  {
    set u | u in users :: u.email
  }

  /** `CustomUserCreationForm.save`: the new user is a resident; `commit` stores it. */
  function ResidentSave(users: seq<User>, email: string, commit: bool): (r: (User, seq<User>))
    ensures r.0 == User(email, ResidentRole)
    ensures commit ==> r.1 == users + [r.0]
    ensures !commit ==> r.1 == users
  {
    var user := User(email, ResidentRole);
    (user, if commit then users + [user] else users)
  }

  /**
   * `StaffCreationForm.save`: the new user is staff; `commit` stores it and
   * a staff record with the three cleaned names; without `commit` nothing
   * is stored.
   */
  function StaffSave(users: seq<User>, staff: seq<StaffRecord>, email: string,
                     first: string, middle: string, last: string, commit: bool)
    : (r: (User, seq<User>, seq<StaffRecord>))
    ensures r.0 == User(email, StaffRole)
    ensures commit ==> r.1 == users + [r.0] && r.2 == staff + [StaffRecord(r.0, Some(first), Some(middle), Some(last))]
    ensures !commit ==> r.1 == users && r.2 == staff
  {
    var user := User(email, StaffRole);
    if commit then (user, users + [user], staff + [StaffRecord(user, Some(first), Some(middle), Some(last))])
    else (user, users, staff)
  }

  /** Once a sign-up is committed its e-mail is registered, so the same sign-up is refused next time. */
  lemma CommittedEmailIsTaken(users: seq<User>, staff: seq<StaffRecord>, email: string,
                              first: string, middle: string, last: string)
    ensures CleanEmail(email, Emails(ResidentSave(users, email, true).1)) == Err(EmailTaken)
    ensures CleanEmail(email, Emails(StaffSave(users, staff, email, first, middle, last, true).1)) == Err(EmailTaken)
  {
    assert ResidentSave(users, email, true).1[|users|] == User(email, ResidentRole);
    assert StaffSave(users, staff, email, first, middle, last, true).1[|users|] == User(email, StaffRole);
  }

  /** The role test the staff pages make before anything else: `request.user.role != 'staff'` refuses. */
  predicate MaySeeStaffPages(u: User) {
    u.role == StaffRole
  }

  /**
   * Which sign-up form stored a user decides access to the staff pages: a
   * user stored by the resident form is refused them, one stored by the
   * staff form is let in, and the staff record stored with it belongs to it.
   */
  lemma SignUpDecidesStaffAccess(users: seq<User>, staff: seq<StaffRecord>, email: string,
                                 first: string, middle: string, last: string)
    ensures var stored := ResidentSave(users, email, true).1;
      |stored| == |users| + 1 && !MaySeeStaffPages(stored[|users|])
    ensures var r := StaffSave(users, staff, email, first, middle, last, true);
      |r.1| == |users| + 1 && MaySeeStaffPages(r.1[|users|])
      && |r.2| == |staff| + 1 && r.2[|staff|].user == r.1[|users|]
  {
  }
}
