// The admin dashboard over bookings and queries: the unread/read split and
// newest-first order of displayBookings and displayQueries, the counts of
// updateStats, and markAsRead. The same routines serve both kinds.

module Dashboard {
  import opened Records
  import opened Storage

  /** `items.filter(x => !x.read)`. */
  function UnreadOf(items: seq<Record>): (u: seq<Record>)
    ensures forall r :: r in u ==> !r.read && r in items
    ensures |u| <= |items|
  {
    if |items| == 0 then []
    else if !items[0].read then [items[0]] + UnreadOf(items[1..])
    else UnreadOf(items[1..])
  }

  /** `items.filter(x => x.read)`. */
  function ReadOf(items: seq<Record>): (d: seq<Record>)
    ensures forall r :: r in d ==> r.read && r in items
    ensures |d| <= |items|
  {
    if |items| == 0 then []
    else if items[0].read then [items[0]] + ReadOf(items[1..])
    else ReadOf(items[1..])
  }

  /** Every record lands in exactly one of the two lists. */
  lemma {:induction false} SplitIsPartition(items: seq<Record>)
    ensures multiset(UnreadOf(items)) + multiset(ReadOf(items)) == multiset(items)
    ensures |UnreadOf(items)| + |ReadOf(items)| == |items|
  {
    if |items| > 0 {
      SplitIsPartition(items[1..]);
      assert items == [items[0]] + items[1..];
    }
  }

  ghost predicate NewestFirst(s: seq<Record>) {
    forall i, j :: 0 <= i < j < |s| ==> s[i].timestamp >= s[j].timestamp
  }

  /** No record of s is newer than t. */
  ghost predicate AllAtMost(s: seq<Record>, t: int) {
    forall j :: 0 <= j < |s| ==> s[j].timestamp <= t
  }

  lemma BoundCarriesOver(a: seq<Record>, b: seq<Record>, t: int)
    requires multiset(a) == multiset(b) && AllAtMost(b, t)
    ensures AllAtMost(a, t)
  {
    forall j | 0 <= j < |a| ensures a[j].timestamp <= t {
      assert a[j] in multiset(b);
      var k :| 0 <= k < |b| && b[k] == a[j];
    }
  }

  lemma ConsNewestFirst(x: Record, s: seq<Record>)
    requires NewestFirst(s) && AllAtMost(s, x.timestamp)
    ensures NewestFirst([x] + s)
  {
    var t := [x] + s;
    forall i, j | 0 <= i < j < |t| ensures t[i].timestamp >= t[j].timestamp {
      assert t[j] == s[j - 1];
      if i > 0 {
        assert t[i] == s[i - 1];
      }
    }
  }

  /** Places r before the first record that is not newer than it. */
  function InsertNewest(r: Record, s: seq<Record>): (t: seq<Record>)
    requires NewestFirst(s)
    ensures NewestFirst(t)
    ensures multiset(t) == multiset(s) + multiset{r}
    ensures |t| == |s| + 1
  {
    if |s| == 0 || s[0].timestamp <= r.timestamp then
      ConsNewestFirst(r, s);
      [r] + s
    else
      assert s == [s[0]] + s[1..];
      var rest := InsertNewest(r, s[1..]);
      BoundCarriesOver(rest, s[1..] + [r], s[0].timestamp);
      ConsNewestFirst(s[0], rest);
      [s[0]] + rest
  }

  /** `list.sort((a, b) => b.timestamp - a.timestamp)`. */
  function SortNewestFirst(s: seq<Record>): (t: seq<Record>)
    ensures NewestFirst(t)
    ensures multiset(t) == multiset(s)
    ensures |t| == |s|
  {
    if |s| == 0 then []
    else
      assert s == [s[0]] + s[1..];
      InsertNewest(s[0], SortNewestFirst(s[1..]))
  }

  /** What one dashboard panel shows: the unread list and the read list. */
  datatype Listing = Listing(unread: seq<Record>, read: seq<Record>)

  /** displayBookings / displayQueries: split by the read flag, each list
      newest first. */
  function ListingOf(items: seq<Record>): (l: Listing)
    ensures NewestFirst(l.unread) && NewestFirst(l.read)
    ensures forall r :: r in l.unread ==> !r.read
    ensures forall r :: r in l.read ==> r.read
    ensures forall r :: r in l.unread ==> r !in l.read
    ensures multiset(l.unread) + multiset(l.read) == multiset(items)
    ensures |l.unread| + |l.read| == |items|
  {
    SplitIsPartition(items);
    var l := Listing(SortNewestFirst(UnreadOf(items)), SortNewestFirst(ReadOf(items)));
    assert forall r :: r in l.unread ==> r in multiset(UnreadOf(items));
    assert forall r :: r in l.read ==> r in multiset(ReadOf(items));
    l
  }

  /** The numbers of one kind on the dashboard. */
  datatype Counts = Counts(total: nat, unread: nat, read: int)

  /** updateStats for one kind: `length`, the unread filter's length, and
      their difference. */
  function CountsOf(items: seq<Record>): (c: Counts)
    ensures c.total == |items|
    ensures c.unread == |ListingOf(items).unread|
    ensures c.read == |ListingOf(items).read| && c.read >= 0
  {
    SplitIsPartition(items);
    var u := |UnreadOf(items)|;
    Counts(|items|, u, |items| - u)
  }

  datatype Stats = Stats(bookings: Counts, queries: Counts)

  /** updateStats(bookings, queries). */
  function UpdateStats(bookings: seq<Record>, queries: seq<Record>): (s: Stats)
    ensures s.bookings.total == |bookings| && s.queries.total == |queries|
    ensures s.bookings.unread == |UnreadOf(bookings)| && s.queries.unread == |UnreadOf(queries)|
    ensures s.bookings.unread == |ListingOf(bookings).unread| && s.queries.unread == |ListingOf(queries).unread|
    ensures s.bookings.read == |ListingOf(bookings).read| && s.queries.read == |ListingOf(queries).read|
    ensures s.bookings.unread + s.bookings.read == |bookings|
    ensures s.queries.unread + s.queries.read == |queries|
  {
    Stats(CountsOf(bookings), CountsOf(queries))
  }

  /** The key markAsRead works on: "booking" selects bookings, any other
      type selects queries. */
  function KeyFor(kind: string): string {
    if kind == "booking" then "bookings" else "queries"
  }

  /** The records after `items.find(x => x.id === id).read = true`. */
  function MarkedRead(items: seq<Record>, id: string): (r: seq<Record>)
    ensures |r| == |items|
    ensures forall j :: 0 <= j < |items| ==> r[j].id == items[j].id
    ensures FirstIndexOf(items, id).Some? ==> r[FirstIndexOf(items, id).value].read
  {
    match FirstIndexOf(items, id)
    case None => items
    case Some(i) => items[i := items[i].(read := true)]
  }

  /** Only the first record with the id changes, and only its read flag,
      which becomes true; with no such record nothing changes. */
  lemma MarkedReadChangesOnlyFirst(items: seq<Record>, id: string)
    ensures var r := MarkedRead(items, id);
      |r| == |items|
      && (FirstIndexOf(items, id).None? ==> r == items)
      && (FirstIndexOf(items, id).Some? ==>
            var i := FirstIndexOf(items, id).value;
            r[i] == items[i].(read := true)
            && forall j :: 0 <= j < |items| && j != i ==> r[j] == items[j])
  {
  }

  /** Marking twice is marking once. */
  lemma MarkedReadIdempotent(items: seq<Record>, id: string)
    ensures MarkedRead(MarkedRead(items, id), id) == MarkedRead(items, id)
  {
    match FirstIndexOf(items, id)
    case None =>
    case Some(i) =>
      var once := MarkedRead(items, id);
      assert forall j :: 0 <= j < |once| ==> once[j].id == items[j].id;
      assert FirstIndexOf(once, id) == Some(i);
  }

  /** Read flags only go from false to true; ids, timestamps and contents
      stay. */
  lemma MarkedReadMonotone(items: seq<Record>, id: string)
    ensures var r := MarkedRead(items, id);
      |r| == |items|
      && forall j :: 0 <= j < |items| ==>
           (items[j].read ==> r[j].read) && r[j].id == items[j].id
           && r[j].timestamp == items[j].timestamp && r[j].content == items[j].content
  {
  }

  /** The unread count after replacing one record. */
  lemma {:induction false} UnreadAfterUpdate(items: seq<Record>, i: nat, x: Record)
    requires i < |items|
    ensures |UnreadOf(items[i := x])| ==
      |UnreadOf(items)| - (if items[i].read then 0 else 1) + (if x.read then 0 else 1)
  {
    if i > 0 {
      UnreadAfterUpdate(items[1..], i - 1, x);
      assert items[i := x][1..] == items[1..][i - 1 := x];
    } else {
      assert items[i := x][1..] == items[1..];
    }
  }

  /** Marking an unread record read moves exactly one record from the
      unread count to the read count. */
  lemma MarkReadMovesOneCount(items: seq<Record>, id: string)
    requires FirstIndexOf(items, id).Some?
    requires !items[FirstIndexOf(items, id).value].read
    ensures CountsOf(MarkedRead(items, id)).unread == CountsOf(items).unread - 1
    ensures CountsOf(MarkedRead(items, id)).read == CountsOf(items).read + 1
  {
    var i := FirstIndexOf(items, id).value;
    UnreadAfterUpdate(items, i, items[i].(read := true));
  }

  /** Marking keeps ids unique. */
  lemma MarkedReadKeepsIdsUnique(items: seq<Record>, id: string)
    requires IdsUnique(items)
    ensures IdsUnique(MarkedRead(items, id))
  {
    MarkedReadMonotone(items, id);
  }

  /** The whole effect of markAsRead(kind, id) on storage: when a record has
      the id, the marked array is saved (the write may be refused); when
      none has it, nothing is written. */
  function MarkAsReadOn(slots: Slots, quota: Quota, kind: string, id: string): (r: Slots)
    ensures FirstIndexOf(Load(slots, KeyFor(kind)), id).None? ==> r == slots
  {
    var key := KeyFor(kind);
    var items := Load(slots, key);
    if FirstIndexOf(items, id).None? then slots
    else Written(slots, quota, key, MarkedRead(items, id))
  }

  /** Clicking "Mark as Read" twice leaves storage as one click does. */
  lemma MarkAsReadTwice(slots: Slots, quota: Quota, kind: string, id: string)
    ensures MarkAsReadOn(MarkAsReadOn(slots, quota, kind, id), quota, kind, id)
         == MarkAsReadOn(slots, quota, kind, id)
  {
    var key := KeyFor(kind);
    var items := Load(slots, key);
    var once := MarkAsReadOn(slots, quota, kind, id);
    if FirstIndexOf(items, id).Some? && quota(slots, key, MarkedRead(items, id)) {
      MarkedReadIdempotent(items, id);
      MarkedReadMonotone(items, id);
      var marked := MarkedRead(items, id);
      assert Load(once, key) == marked;
      assert FirstIndexOf(marked, id).Some? by {
        var i := FirstIndexOf(items, id).value;
        assert marked[i].id == id;
      }
      assert once[key] == Saved(marked);
      assert once[key := Saved(marked)] == once;
    }
  }

  /** window.markAsRead(type, id): find the record in a fresh copy of the
      stored array, set its flag in place and save the array. */
  method MarkAsRead(store: LocalStore, kind: string, id: string)
    modifies store
    ensures store.slots == MarkAsReadOn(old(store.slots), store.quota, kind, id)
  {
    var key := KeyFor(kind);
    var items := store.Items(key);
    var a := new Record[|items|](j requires 0 <= j < |items| => items[j]);
    match FirstIndexOf(items, id) {
      case None =>
      case Some(i) =>
        a[i] := a[i].(read := true);
        assert a[..] == MarkedRead(items, id);
        store.Save(key, a[..]);
    }
  }
}
