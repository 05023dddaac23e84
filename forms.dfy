// The submit handlers of the two contact forms (handleBookTripSubmit and
// handleGeneralQuerySubmit in script.js): validate, then append the
// submission to its key. The id, the submission time and today's day
// number are inputs; the form fields arrive already trimmed.

module Forms {
  import opened Records
  import opened Validation
  import opened Storage

  const BookingsKey := "bookings"
  const QueriesKey := "queries"

  /** A rejected booking writes nothing; an accepted one is appended, unread,
      to "bookings". */
  method SubmitBooking(store: LocalStore, b: Booking, id: string, now: int, today: int) returns (v: Verdict)
    modifies store
    ensures v == ValidateBooking(b, today)
    ensures v.Rejected? ==> store.slots == old(store.slots)
    ensures v.Accepted? ==>
      store.slots == Appended(old(store.slots), store.quota, BookingsKey, Record(id, now, false, BookingContent(b)))
  {
    v := ValidateBooking(b, today);
    if v.Rejected? {
      return;
    }
    store.SaveSubmission(BookingsKey, Record(id, now, false, BookingContent(b)));
  }

  /** A rejected query writes nothing; an accepted one is appended, unread,
      to "queries". */
  method SubmitQuery(store: LocalStore, q: Query, id: string, now: int) returns (v: Verdict)
    modifies store
    ensures v == ValidateQuery(q)
    ensures v.Rejected? ==> store.slots == old(store.slots)
    ensures v.Accepted? ==>
      store.slots == Appended(old(store.slots), store.quota, QueriesKey, Record(id, now, false, QueryContent(q)))
  {
    v := ValidateQuery(q);
    if v.Rejected? {
      return;
    }
    store.SaveSubmission(QueriesKey, Record(id, now, false, QueryContent(q)));
  }

  /** A booking with a five-digit mobile is refused and leaves the bookings
      exactly as they were. */
  method RejectShortMobile(store: LocalStore, b: Booking, id: string, now: int, today: int)
    requires |b.name| >= 2 && b.mobile == "12345"
    modifies store
    ensures store.Items(BookingsKey) == old(store.Items(BookingsKey))
  {
    var v := SubmitBooking(store, b, id, now, today);
    ShortMobileRejected(b, today);
  }
}
