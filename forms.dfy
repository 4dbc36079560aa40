/** The profile and registration forms (sleep_tracing_app/forms.py): which
    submitted values are accepted, stated over the values after each field's own
    parsing (a missing or unparseable value is `None`). */
module Forms {
  import opened Wrappers
  import opened Models
  import Text

  datatype Field = DateOfBirth | Weight | Gender | Height | Email

  /** The submitted profile: the date of birth as a day number, weight and
      height as whole numbers, the gender as the raw choice string. */
  datatype ProfileInput = ProfileInput(dateOfBirth: Option<int>, weight: Option<int>, gender: string, height: Option<int>, active: bool)

  const MinAgeDays := 5 * 365
  const MinWeight := 10
  const MinHeight := 40
  const MaxHeight := 270

  /** `TypedChoiceField(coerce=int)` over the choices 1 and 0. */
  function GenderChoice(raw: string): (r: Option<int>)
    ensures r.Some? ==> ValidGender(r.value)
    ensures r == Some(1) <==> raw == "1"
    ensures r == Some(0) <==> raw == "0"
  {
    if raw == "1" then Some(1) else if raw == "0" then Some(0) else None
  }

  /** `clean_date_of_birth`: at most today minus 5 * 365 days. */
  predicate DateOfBirthOk(dob: Option<int>, today: int) {
    dob.Some? && dob.value <= today - MinAgeDays
  }

  predicate WeightOk(weight: Option<int>) {
    weight.Some? && weight.value >= MinWeight
  }

  predicate HeightOk(height: Option<int>) {
    height.Some? && MinHeight <= height.value <= MaxHeight
  }

  /** Every field of the profile form is acceptable. */
  predicate ProfileOk(input: ProfileInput, today: int) {
    DateOfBirthOk(input.dateOfBirth, today) && WeightOk(input.weight) &&
    GenderChoice(input.gender).Some? && HeightOk(input.height)
  }

  /** The fields the profile form reports an error for. */
  function ProfileErrors(input: ProfileInput, today: int): (r: set<Field>)
    ensures r <= {DateOfBirth, Weight, Gender, Height}
    ensures r == {} <==> ProfileOk(input, today)
  {
    (if DateOfBirthOk(input.dateOfBirth, today) then {} else {DateOfBirth}) +
    (if WeightOk(input.weight) then {} else {Weight}) +
    (if GenderChoice(input.gender).Some? then {} else {Gender}) +
    (if HeightOk(input.height) then {} else {Height})
  }

  /** `UserDataForm` bound to a user: the profile it saves, or the fields in error. */
  datatype FormResult<T> = Accepted(value: T) | Rejected(errors: set<Field>)

  function CleanProfile(input: ProfileInput, today: int, user: nat): (r: FormResult<UserData>)
    ensures r.Rejected? ==> r.errors != {}
  {
    var errors := ProfileErrors(input, today);
    if errors != {} then Rejected(errors)
    else Accepted(UserData(user, input.dateOfBirth.value, input.weight.value as real,
      GenderChoice(input.gender).value, input.height.value, input.active))
  }

  /** A saved profile meets the model's validators and the form's tighter bounds,
      and its owner is at least 5 * 365 days old. */
  lemma AcceptedProfileIsValid(input: ProfileInput, today: int, user: nat)
    requires CleanProfile(input, today, user).Accepted?
    ensures ValidProfile(CleanProfile(input, today, user).value)
    ensures MinHeight <= CleanProfile(input, today, user).value.height <= MaxHeight
    ensures today - CleanProfile(input, today, user).value.dateOfBirth >= MinAgeDays
  {
  }

  /** A profile accepted today is accepted on every later day. */
  lemma AcceptanceLasts(input: ProfileInput, today: int, later: int, user: nat)
    requires today <= later
    requires CleanProfile(input, today, user).Accepted?
    ensures CleanProfile(input, later, user).Accepted?
  {
    assert ProfileErrors(input, today) == {};
  }

  /** The bounds the form tests probe: height 39 and 272 and weight 0 are
      rejected, as are a date of birth tomorrow or three years back. */
  lemma ProfileBoundaryExamples(today: int)
    ensures var ok := ProfileInput(Some(today - 20 * 365), Some(70), "1", Some(175), false);
      ProfileErrors(ok, today) == {} &&
      ProfileErrors(ok.(height := Some(39)), today) == {Height} &&
      ProfileErrors(ok.(height := Some(272)), today) == {Height} &&
      ProfileErrors(ok.(height := Some(270)), today) == {} &&
      ProfileErrors(ok.(weight := Some(0)), today) == {Weight} &&
      ProfileErrors(ok.(dateOfBirth := Some(today + 1)), today) == {DateOfBirth} &&
      ProfileErrors(ok.(dateOfBirth := Some(today - 3 * 365)), today) == {DateOfBirth} &&
      ProfileErrors(ok.(dateOfBirth := Some(today - 5 * 365)), today) == {} &&
      ProfileErrors(ok.(gender := "2"), today) == {Gender}
  {
  }

  /** `clean_email`: refused when any existing user already has the address.
      The address has passed the field's own cleaning, so it is a string; a blank
      one is the empty string and is compared like any other, so it is refused
      as soon as one user has no address. */
  function CleanEmail(email: string, existing: seq<string>): (r: FormResult<string>)
    ensures r.Accepted? <==> email !in existing
    ensures r.Accepted? ==> r.value == email
    ensures r.Rejected? ==> r.errors == {Email}
  {
    if email in existing then Rejected({Email}) else Accepted(email)
  }

  /** Registering only with accepted addresses keeps every address held by at most one user. */
  lemma RegistrationKeepsEmailsUnique(existing: seq<string>, email: string)
    requires Text.Distinct(existing)
    requires CleanEmail(email, existing).Accepted?
    ensures Text.Distinct(existing + [email])
  {
    var all := existing + [email];
    forall i, j | 0 <= i < j < |all| ensures all[i] != all[j] {
      if j == |existing| {
        assert all[i] in existing;
      }
    }
  }
}
