// The records the site keeps in browser storage: bookings, queries and
// service cards, as the JSON objects script.js builds and saves.

module Records {

  datatype Option<T> = None | Some(value: T)

  /** A travel-date field: empty, a calendar day (as a day number), or text
      that does not parse as a date. */
  datatype DateInput = Blank | OnDay(day: int) | Unparsable

  /** A members field: empty, text `parseInt` reads as a number, or text it
      reads as NaN. */
  datatype MembersInput = NoMembers | Parsed(count: int) | NotANumber

  datatype Booking = Booking(
    name: string,
    mobile: string,
    source: string,
    destination: string,
    travelDate: DateInput,
    members: MembersInput)

  datatype Query = Query(name: string, mobile: string, message: string)

  /** A service card of the home-page carousel; `image` is a data URL. */
  datatype Card = Card(icon: string, image: string, description: string)

  datatype Content =
    | BookingContent(booking: Booking)
    | QueryContent(query: Query)
    | CardContent(card: Card)

  /** One stored object. Timestamps are milliseconds since the epoch. A
      service card has no `read` property in storage; an absent property is
      falsy, so it is modelled as `read == false`. */
  datatype Record = Record(id: string, timestamp: int, read: bool, content: Content)

  /** `items.find(x => x.id === id)` / `items.findIndex(...)`: the position
      of the first record with that id, if any. */
  function FirstIndexOf(items: seq<Record>, id: string): (r: Option<nat>)
    ensures r.Some? ==> r.value < |items| && items[r.value].id == id
    ensures r.Some? ==> forall j :: 0 <= j < r.value ==> items[j].id != id
    ensures r.None? <==> forall j :: 0 <= j < |items| ==> items[j].id != id
  {
    if |items| == 0 then None
    else if items[0].id == id then Some(0)
    else
      match FirstIndexOf(items[1..], id)
      case None => None
      case Some(k) => Some(k + 1)
  }

  /** No two records of one kind share an id. */
  ghost predicate IdsUnique(items: seq<Record>) {
    forall i, j :: 0 <= i < |items| && 0 <= j < |items| && i != j ==> items[i].id != items[j].id
  }

  /** The id is not yet used by any record of the kind. */
  ghost predicate FreshId(items: seq<Record>, id: string) {
    forall j :: 0 <= j < |items| ==> items[j].id != id
  }

  /** When ids are unique, the record found by id is the only one with it. */
  lemma FoundIsOnly(items: seq<Record>, id: string, j: nat)
    requires IdsUnique(items)
    requires j < |items| && items[j].id == id
    ensures FirstIndexOf(items, id) == Some(j)
  {
    match FirstIndexOf(items, id)
    case None =>
    case Some(k) =>
  }
}
