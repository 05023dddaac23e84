// The submission checks of validateBookingForm and validateQueryForm in
// script.js. Each check runs in order and the first one that fails decides
// the message shown; "today" is a day number supplied by the caller.

module Validation {
  import opened Records

  /** One value per error message the two validators can show. */
  datatype FormError =
    | InvalidName
    | InvalidMobile
    | InvalidSource
    | InvalidDestination
    | MissingTravelDate
    | PastTravelDate
    | InvalidMembers
    | ShortMessage

  datatype Verdict = Accepted | Rejected(error: FormError)

  predicate IsDigit(c: char) {
    '0' <= c <= '9'
  }

  function AllDigits(s: string): (b: bool)
    ensures b <==> forall i :: 0 <= i < |s| ==> IsDigit(s[i])
  {
    if |s| == 0 then true else IsDigit(s[0]) && AllDigits(s[1..])
  }

  /** `/^[0-9]{10}$/.test(mobile)` (an empty field fails it too). */
  predicate IsMobileNumber(s: string) {
    |s| == 10 && AllDigits(s)
  }

  /** `!field || field.length < 2` rejects the field. */
  predicate HasTwoChars(s: string) {
    |s| >= 2
  }

  /** The travel date is present. */
  predicate DatePresent(d: DateInput) {
    !d.Blank?
  }

  /** `new Date(travelDate) < today` is false: a parsed day that is not
      before today, or text that does not parse (NaN compares false). */
  predicate NotInPast(d: DateInput, today: int) {
    match d
    case Blank => true
    case OnDay(day) => day >= today
    case Unparsable => true
  }

  /** `!members || parseInt(members) < 1` is false: a number of at least 1,
      or text parseInt reads as NaN. */
  predicate MembersOk(m: MembersInput) {
    match m
    case NoMembers => false
    case Parsed(n) => n >= 1
    case NotANumber => true
  }

  function ValidateQuery(q: Query): (v: Verdict)
    ensures v == Accepted <==> HasTwoChars(q.name) && IsMobileNumber(q.mobile) && |q.message| >= 10
    ensures v == Rejected(InvalidName) <==> !HasTwoChars(q.name)
    ensures v == Rejected(InvalidMobile) <==> HasTwoChars(q.name) && !IsMobileNumber(q.mobile)
    ensures v == Rejected(ShortMessage) <==> HasTwoChars(q.name) && IsMobileNumber(q.mobile) && |q.message| < 10
  {
    if !HasTwoChars(q.name) then Rejected(InvalidName)
    else if !IsMobileNumber(q.mobile) then Rejected(InvalidMobile)
    else if |q.message| < 10 then Rejected(ShortMessage)
    else Accepted
  }

  function ValidateBooking(b: Booking, today: int): (v: Verdict)
    ensures v == Accepted <==>
      HasTwoChars(b.name) && IsMobileNumber(b.mobile) && HasTwoChars(b.source)
      && HasTwoChars(b.destination) && DatePresent(b.travelDate)
      && NotInPast(b.travelDate, today) && MembersOk(b.members)
    ensures v == Rejected(InvalidName) <==> !HasTwoChars(b.name)
    ensures v == Rejected(InvalidMobile) <==> HasTwoChars(b.name) && !IsMobileNumber(b.mobile)
    ensures v == Rejected(InvalidSource) <==>
      HasTwoChars(b.name) && IsMobileNumber(b.mobile) && !HasTwoChars(b.source)
    ensures v == Rejected(InvalidDestination) <==>
      HasTwoChars(b.name) && IsMobileNumber(b.mobile) && HasTwoChars(b.source)
      && !HasTwoChars(b.destination)
    ensures v == Rejected(MissingTravelDate) <==>
      HasTwoChars(b.name) && IsMobileNumber(b.mobile) && HasTwoChars(b.source)
      && HasTwoChars(b.destination) && !DatePresent(b.travelDate)
    ensures v == Rejected(PastTravelDate) <==>
      HasTwoChars(b.name) && IsMobileNumber(b.mobile) && HasTwoChars(b.source)
      && HasTwoChars(b.destination) && DatePresent(b.travelDate)
      && !NotInPast(b.travelDate, today)
    ensures v == Rejected(InvalidMembers) <==>
      HasTwoChars(b.name) && IsMobileNumber(b.mobile) && HasTwoChars(b.source)
      && HasTwoChars(b.destination) && DatePresent(b.travelDate)
      && NotInPast(b.travelDate, today) && !MembersOk(b.members)
    ensures v != Rejected(ShortMessage)
  {
    if !HasTwoChars(b.name) then Rejected(InvalidName)
    else if !IsMobileNumber(b.mobile) then Rejected(InvalidMobile)
    else if !HasTwoChars(b.source) then Rejected(InvalidSource)
    else if !HasTwoChars(b.destination) then Rejected(InvalidDestination)
    else if b.travelDate.Blank? then Rejected(MissingTravelDate)
    else if b.travelDate.OnDay? && b.travelDate.day < today then Rejected(PastTravelDate)
    else if !MembersOk(b.members) then Rejected(InvalidMembers)
    else Accepted
  }

  /** What an accepted booking guarantees, field by field, in plain terms:
      a mobile of ten ASCII digits, a day not before today when the date
      parses, and at least one member when the count parses. */
  lemma AcceptedBookingFields(b: Booking, today: int)
    requires ValidateBooking(b, today) == Accepted
    ensures |b.name| >= 2 && |b.source| >= 2 && |b.destination| >= 2
    ensures |b.mobile| == 10 && forall i :: 0 <= i < 10 ==> '0' <= b.mobile[i] <= '9'
    ensures b.travelDate != Blank
    ensures b.travelDate.OnDay? ==> b.travelDate.day >= today
    ensures b.members != NoMembers
    ensures b.members.Parsed? ==> b.members.count >= 1
  {
    assert IsMobileNumber(b.mobile);
    assert forall i :: 0 <= i < 10 ==> IsDigit(b.mobile[i]);
  }

  /** The two forms share their name and mobile checks: a booking and a
      query with the same contact details fail on the same first contact
      error. */
  lemma ContactChecksAgree(b: Booking, today: int, message: string)
    ensures var qv := ValidateQuery(Query(b.name, b.mobile, message));
      var bv := ValidateBooking(b, today);
      (bv == Rejected(InvalidName) <==> qv == Rejected(InvalidName))
      && (bv == Rejected(InvalidMobile) <==> qv == Rejected(InvalidMobile))
  {
  }

  /** A five-digit mobile is refused before any later check. */
  lemma ShortMobileRejected(b: Booking, today: int)
    requires |b.name| >= 2 && b.mobile == "12345"
    ensures ValidateBooking(b, today) == Rejected(InvalidMobile)
  {
  }
}
