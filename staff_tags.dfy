/**
 * The `get_staff_name` template filter of
 * accounts/templatetags/staff_tags.py: the staff member's full name from
 * their BarangayStaff record, or "Barangay Staff".  The record lookup is
 * an optional record: None stands for a missing record and for any other
 * error the filter swallows.
 */
module StaffTags {
  import opened Wrappers
  import opened Strings
  import opened AccountForms

  const DefaultName: string := "Barangay Staff"

  /** Python truthiness of a text column: present and non-empty. */
  predicate Truthy(s: Option<string>) {
    s.Some? && s.value != ""
  }

  function GetStaffName(staff: Option<StaffRecord>): (name: string)
    ensures staff.None? ==> name == DefaultName
    ensures staff.Some? && !(Truthy(staff.value.firstName) && Truthy(staff.value.lastName)) ==> name == DefaultName
    ensures staff.Some? && Truthy(staff.value.firstName) && Truthy(staff.value.lastName) ==>
      name == staff.value.firstName.value + " "
              + (if Truthy(staff.value.middleName) then staff.value.middleName.value + " " else "")
              + staff.value.lastName.value
  {
    match staff
    case None => DefaultName
    case Some(s) =>
      if Truthy(s.firstName) && Truthy(s.lastName) then
        if Truthy(s.middleName) then s.firstName.value + " " + s.middleName.value + " " + s.lastName.value
        else s.firstName.value + " " + s.lastName.value
      else DefaultName
  }

  /**
   * When no name contains a space, splitting the displayed name on spaces
   * gives back exactly the names shown: first and last, with the middle
   * name between them when there is one.
   */
  lemma NameSplitsIntoParts(r: StaffRecord)
    requires Truthy(r.firstName) && Truthy(r.lastName)
    requires ' ' !in r.firstName.value && ' ' !in r.lastName.value
    requires r.middleName.Some? ==> ' ' !in r.middleName.value
    ensures Split(GetStaffName(Some(r)), ' ') ==
      if Truthy(r.middleName) then [r.firstName.value, r.middleName.value, r.lastName.value]
      else [r.firstName.value, r.lastName.value]
  {
    var f, l := r.firstName.value, r.lastName.value;
    SplitWithoutSeparator(l, ' ');
    if Truthy(r.middleName) {
      var m := r.middleName.value;
      assert GetStaffName(Some(r)) == f + [' '] + (m + [' '] + l);
      SplitAfterPrefix(m, l, ' ');
      SplitAfterPrefix(f, m + [' '] + l, ' ');
    } else {
      assert GetStaffName(Some(r)) == f + [' '] + l;
      SplitAfterPrefix(f, l, ' ');
    }
  }

  /** The name is the default only for a missing record, a missing name, or a staff member named Barangay Staff. */
  lemma DefaultNameMeans(staff: Option<StaffRecord>)
    requires GetStaffName(staff) == DefaultName
    ensures staff.None? || !(Truthy(staff.value.firstName) && Truthy(staff.value.lastName))
      || (staff.value.firstName == Some("Barangay") && !Truthy(staff.value.middleName)
          && staff.value.lastName == Some("Staff"))
  {
    if staff.Some? && Truthy(staff.value.firstName) && Truthy(staff.value.lastName) {
      var r := staff.value;
      var f, l := r.firstName.value, r.lastName.value;
      var name := GetStaffName(staff);
      NameSpaces(r);
      assert |DefaultName| == 14 && DefaultName[8] == ' ';
      assert forall k :: 0 <= k < |DefaultName| && k != 8 ==> DefaultName[k] != ' ';
      assert |f| == 8;
      if Truthy(r.middleName) {
        assert false;  // a second space, after the middle name
      } else {
        assert f == name[..8] == "Barangay";
        assert l == name[9..] == "Staff";
      }
    }
  }

  /** Where the displayed name has spaces: after the first name, and after the middle name if shown. */
  lemma NameSpaces(r: StaffRecord)
    requires Truthy(r.firstName) && Truthy(r.lastName)
    ensures var name := GetStaffName(Some(r));
      && |name| > |r.firstName.value| && name[|r.firstName.value|] == ' '
      && (Truthy(r.middleName) ==>
            |name| > |r.firstName.value| + 1 + |r.middleName.value|
            && name[|r.firstName.value| + 1 + |r.middleName.value|] == ' ')
      && (!Truthy(r.middleName) ==> name == r.firstName.value + " " + r.lastName.value)
  {
  }

  /** A staff member named Barangay Staff is displayed as the default. */
  lemma BarangayStaffLooksLikeDefault(u: User)
    ensures GetStaffName(Some(StaffRecord(u, Some("Barangay"), None, Some("Staff")))) == DefaultName
  {
  }

  /**
   * A staff account created with first, middle and last names (the first
   * and last required, so non-empty) is displayed with those names.
   */
  lemma CreatedStaffIsNamed(users: seq<User>, staff: seq<StaffRecord>, email: string,
                            first: string, middle: string, last: string)
    requires first != "" && last != ""
    ensures var r := StaffSave(users, staff, email, first, middle, last, true).2[|staff|];
      GetStaffName(Some(r)) == first + " " + (if middle != "" then middle + " " else "") + last
  {
  }
}
