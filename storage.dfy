// The browser's local storage as script.js uses it: one JSON array per key
// ("bookings", "queries", "serviceCards"), read by getFromLocalStorage,
// written by saveToLocalStorage and appended to by saveFormToLocalStorage.

module Storage {
  import opened Records

  /** What a key holds: text that is not a JSON array, or a parsed array. */
  datatype Slot = Malformed | Saved(items: seq<Record>)

  type Slots = map<string, Slot>

  /** Whether the browser accepts writing `items` under a key in the given
      storage; `setItem` throws (quota exceeded, storage disabled) when it
      does not. */
  type Quota = (Slots, string, seq<Record>) -> bool

  /** getFromLocalStorage: a missing key reads as `'[]'`, malformed text is
      logged and read as the empty array. */
  function Load(slots: Slots, key: string): (r: seq<Record>)
    ensures key !in slots ==> r == []
    ensures key in slots && slots[key].Malformed? ==> r == []
    ensures key in slots && slots[key].Saved? ==> r == slots[key].items
  {
    if key in slots && slots[key].Saved? then slots[key].items else []
  }

  /** A successful `setItem(key, JSON.stringify(items))`: reading the key
      gives the items back, and every other key is untouched. */
  function Put(slots: Slots, key: string, items: seq<Record>): (r: Slots)
    ensures Load(r, key) == items
    ensures key in r
    ensures forall k :: k != key ==> (k in r <==> k in slots)
    ensures forall k :: k != key && k in slots ==> r[k] == slots[k]
  {
    slots[key := Saved(items)]
  }

  /** saveToLocalStorage: the write, or no change when it is refused (the
      error is only logged). */
  function Written(slots: Slots, quota: Quota, key: string, items: seq<Record>): (r: Slots)
    ensures quota(slots, key, items) ==> Load(r, key) == items && key in r
    ensures !quota(slots, key, items) ==> r == slots
    ensures forall k :: k != key ==> (k in r <==> k in slots)
    ensures forall k :: k != key && k in slots ==> r[k] == slots[k]
  {
    if quota(slots, key, items) then Put(slots, key, items) else slots
  }

  /** The record a submission is stored as: `data.read = false`. */
  function AsSubmitted(data: Record): Record {
    data.(read := false)
  }

  /** saveFormToLocalStorage: push onto the parsed array and write it back;
      when parsing or that write throws, write a one-record array instead
      (and when that write throws too, nothing changes). */
  function Appended(slots: Slots, quota: Quota, key: string, data: Record): (r: Slots)
    ensures r == slots
         || Load(r, key) == Load(slots, key) + [AsSubmitted(data)]
         || Load(r, key) == [AsSubmitted(data)]
    ensures forall k :: k != key ==> (k in r <==> k in slots)
  {
    var pushed := Load(slots, key) + [AsSubmitted(data)];
    if (key !in slots || slots[key].Saved?) && quota(slots, key, pushed) then Put(slots, key, pushed)
    else Written(slots, quota, key, [AsSubmitted(data)])
  }

  /** Round trip: writing then reading a key gives back what was written. */
  lemma WriteThenLoad(slots: Slots, quota: Quota, key: string, items: seq<Record>)
    requires quota(slots, key, items)
    ensures Load(Written(slots, quota, key, items), key) == items
  {
  }

  /** An append on readable storage whose write is accepted adds exactly one
      unread record at the end and keeps every earlier record. */
  lemma AppendAddsOneUnread(slots: Slots, quota: Quota, key: string, data: Record)
    requires key !in slots || slots[key].Saved?
    requires quota(slots, key, Load(slots, key) + [AsSubmitted(data)])
    ensures var after := Load(Appended(slots, quota, key, data), key);
      |after| == |Load(slots, key)| + 1
      && after[..|after| - 1] == Load(slots, key)
      && after[|after| - 1] == data.(read := false)
      && !after[|after| - 1].read
  {
    var after := Load(Appended(slots, quota, key, data), key);
    assert after == Load(slots, key) + [AsSubmitted(data)];
  }

  /** When the stored text does not parse, the append replaces it with the
      one-element array (if that write is accepted). */
  lemma AppendOnMalformed(slots: Slots, quota: Quota, key: string, data: Record)
    requires key in slots && slots[key].Malformed?
    requires quota(slots, key, [AsSubmitted(data)])
    ensures Load(Appended(slots, quota, key, data), key) == [data.(read := false)]
  {
  }

  /** When the longer array is refused but the one-record array fits, the
      append replaces every earlier submission under the key with the new
      one. */
  lemma AppendFallbackDropsHistory(slots: Slots, quota: Quota, key: string, data: Record)
    requires key in slots && slots[key].Saved?
    requires !quota(slots, key, slots[key].items + [AsSubmitted(data)])
    requires quota(slots, key, [AsSubmitted(data)])
    ensures Load(Appended(slots, quota, key, data), key) == [data.(read := false)]
  {
  }

  /** Whatever happens, an append writes only its own key. */
  lemma AppendTouchesOnlyItsKey(slots: Slots, quota: Quota, key: string, data: Record, other: string)
    requires other != key
    ensures var r := Appended(slots, quota, key, data);
      (other in r <==> other in slots) && (other in slots ==> r[other] == slots[other])
  {
  }

  class LocalStore {
    var slots: Slots
    const quota: Quota

    constructor (slots: Slots, quota: Quota)
      ensures this.slots == slots && this.quota == quota
    {
      this.slots := slots;
      this.quota := quota;
    }

    /** getFromLocalStorage(key). */
    function Items(key: string): seq<Record>
      reads this
    {
      Load(slots, key)
    }

    /** saveToLocalStorage(key, items). */
    method Save(key: string, items: seq<Record>)
      modifies this
      ensures slots == Written(old(slots), quota, key, items)
    {
      if quota(slots, key, items) {
        slots := Put(slots, key, items);
      }
    }

    /** saveFormToLocalStorage(key, data). */
    method SaveSubmission(key: string, data: Record)
      modifies this
      ensures slots == Appended(old(slots), quota, key, data)
    {
      var entry := data.(read := false);
      if key in slots && slots[key].Malformed? {
        // JSON.parse threw: fall back to a fresh one-record array.
        Save(key, [entry]);
        return;
      }
      var existing := Items(key);
      var pushed := existing + [entry];
      if quota(slots, key, pushed) {
        slots := Put(slots, key, pushed);
      } else {
        // setItem threw: the same fallback.
        Save(key, [entry]);
      }
    }
  }
}
