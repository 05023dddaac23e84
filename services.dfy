// The admin editor for the carousel's service cards: handleServiceSubmit,
// processServiceCard, deleteService and moveService in script.js, all
// read-modify-write on the "serviceCards" key. The decoded image, the id
// generateId would produce and the current time are inputs.

module ServiceEditor {
  import opened Records
  import opened Storage

  const CardsKey := "serviceCards"

  /** Applied: the cards array was saved. The other two are the alerts
      "Please fill in all fields" and "Please upload an image". */
  datatype EditResult = Applied | MissingFields | MissingImage

  /** JavaScript truthiness of the image payload: null and "" are falsy. */
  predicate HasImage(image: Option<string>) {
    image.Some? && image.value != ""
  }

  function NewCard(id: string, icon: string, image: string, description: string, now: int): Record {
    Record(id, now, false, CardContent(Card(icon, image, description)))
  }

  /** The three field assignments on `serviceCards[index]`. */
  function Edited(r: Record, icon: string, image: string, description: string): Record {
    r.(content := CardContent(Card(icon, image, description)))
  }

  /** The cards array processServiceCard saves once it has an image: an
      edit of the first card with the id, or a new card at the end when the
      id is empty. */
  function Processed(cards: seq<Record>, serviceId: string, icon: string, image: string,
                     description: string, newId: string, now: int): (r: seq<Record>)
    ensures |r| == |cards| + (if serviceId == "" then 1 else 0)
    ensures forall j :: 0 <= j < |cards| ==> r[j].id == cards[j].id && r[j].timestamp == cards[j].timestamp
  {
    if serviceId != "" then
      match FirstIndexOf(cards, serviceId)
      case None => cards
      case Some(i) => cards[i := Edited(cards[i], icon, image, description)]
    else cards + [NewCard(newId, icon, image, description, now)]
  }

  /** An edit changes only the target card's icon, image and description;
      its id, timestamp and position stay, and so does every other card. An
      unknown id changes nothing. */
  lemma ProcessedEditsOnlyTarget(cards: seq<Record>, serviceId: string, icon: string, image: string,
                                 description: string, newId: string, now: int)
    requires serviceId != ""
    ensures var r := Processed(cards, serviceId, icon, image, description, newId, now);
      |r| == |cards|
      && (FirstIndexOf(cards, serviceId).None? ==> r == cards)
      && (FirstIndexOf(cards, serviceId).Some? ==>
            var i := FirstIndexOf(cards, serviceId).value;
            r[i].id == cards[i].id == serviceId && r[i].timestamp == cards[i].timestamp
            && r[i].content == CardContent(Card(icon, image, description))
            && forall j :: 0 <= j < |cards| && j != i ==> r[j] == cards[j])
  {
  }

  /** A new card goes last, after all existing cards, and carries the new
      id; with a fresh id, it is the only card with that id. */
  lemma ProcessedAppendsNewCard(cards: seq<Record>, icon: string, image: string,
                                description: string, newId: string, now: int)
    requires FreshId(cards, newId)
    ensures var r := Processed(cards, "", icon, image, description, newId, now);
      |r| == |cards| + 1 && r[..|cards|] == cards
      && r[|cards|] == NewCard(newId, icon, image, description, now)
      && FirstIndexOf(r, newId) == Some(|cards|)
  {
    var r := Processed(cards, "", icon, image, description, newId, now);
    assert r[..|cards|] == cards;
    assert forall j :: 0 <= j < |cards| ==> r[j].id != newId;
  }

  /** Edits and additions with a fresh id keep card ids unique. */
  lemma ProcessedKeepsIdsUnique(cards: seq<Record>, serviceId: string, icon: string, image: string,
                                description: string, newId: string, now: int)
    requires IdsUnique(cards)
    requires serviceId == "" ==> FreshId(cards, newId)
    ensures IdsUnique(Processed(cards, serviceId, icon, image, description, newId, now))
  {
    var r := Processed(cards, serviceId, icon, image, description, newId, now);
    if serviceId != "" {
      ProcessedEditsOnlyTarget(cards, serviceId, icon, image, description, newId, now);
      assert forall j :: 0 <= j < |r| ==> r[j].id == cards[j].id;
    } else {
      assert forall j :: 0 <= j < |cards| ==> r[j] == cards[j];
    }
  }

  /** `cards.filter(s => s.id !== serviceId)`. */
  function Deleted(cards: seq<Record>, id: string): (r: seq<Record>)
    ensures forall x :: x in r ==> x.id != id && x in cards
    ensures |r| <= |cards|
  {
    if |cards| == 0 then []
    else if cards[0].id != id then [cards[0]] + Deleted(cards[1..], id)
    else Deleted(cards[1..], id)
  }

  /** Delete removes every copy of the cards with the id and keeps every
      other card as often as it occurred. */
  lemma {:induction false} DeletedCounts(cards: seq<Record>, id: string, x: Record)
    ensures multiset(Deleted(cards, id))[x] == if x.id == id then 0 else multiset(cards)[x]
  {
    if |cards| > 0 {
      DeletedCounts(cards[1..], id, x);
      assert cards == [cards[0]] + cards[1..];
    }
  }

  /** Delete works piece by piece, so the cards that stay keep their
      relative order. */
  lemma {:induction false} DeletedKeepsOrder(a: seq<Record>, b: seq<Record>, id: string)
    ensures Deleted(a + b, id) == Deleted(a, id) + Deleted(b, id)
  {
    if |a| > 0 {
      DeletedKeepsOrder(a[1..], b, id);
      assert (a + b)[1..] == a[1..] + b;
    } else {
      assert a + b == b;
    }
  }

  /** Deleting twice is deleting once. */
  lemma {:induction false} DeletedIdempotent(cards: seq<Record>, id: string)
    ensures Deleted(Deleted(cards, id), id) == Deleted(cards, id)
  {
    if |cards| > 0 {
      DeletedIdempotent(cards[1..], id);
    }
  }

  /** A card that stays keeps its id, so ids stay unique. */
  lemma {:induction false} DeletedKeepsIdsUnique(cards: seq<Record>, id: string)
    requires IdsUnique(cards)
    ensures IdsUnique(Deleted(cards, id))
  {
    if |cards| > 0 {
      var tail := cards[1..];
      assert IdsUnique(tail) by {
        forall i, j | 0 <= i < |tail| && 0 <= j < |tail| && i != j
          ensures tail[i].id != tail[j].id
        {
          assert tail[i] == cards[i + 1] && tail[j] == cards[j + 1];
        }
      }
      DeletedKeepsIdsUnique(tail, id);
      if cards[0].id != id {
        var rest := Deleted(tail, id);
        assert forall x :: x in tail ==> x.id != cards[0].id by {
          forall x | x in tail ensures x.id != cards[0].id {
            var k :| 0 <= k < |tail| && tail[k] == x;
            assert cards[k + 1] == x;
          }
        }
        var r := [cards[0]] + rest;
        forall i, j | 0 <= i < |r| && 0 <= j < |r| && i != j
          ensures r[i].id != r[j].id
        {
          if i > 0 && j > 0 {
            assert r[i] == rest[i - 1] && r[j] == rest[j - 1];
          } else if i == 0 {
            assert r[j] == rest[j - 1] && r[j] in tail;
          } else {
            assert r[i] == rest[i - 1] && r[i] in tail;
          }
        }
      }
    }
  }

  /** Exchanges two positions. */
  function Swap(s: seq<Record>, i: nat, j: nat): (t: seq<Record>)
    requires i < |s| && j < |s|
    ensures |t| == |s| && t[i] == s[j] && t[j] == s[i]
    ensures forall k :: 0 <= k < |s| && k != i && k != j ==> t[k] == s[k]
    ensures multiset(t) == multiset(s)
  {
    s[i := s[j]][j := s[i]]
  }

  /** moveService's array: None when no card has the id (nothing is
      saved); otherwise the card exchanged with its neighbour in the given
      direction, or the array unchanged at either end or for any other
      direction. */
  function Moved(cards: seq<Record>, id: string, direction: string): (r: Option<seq<Record>>)
    ensures r.None? <==> FirstIndexOf(cards, id).None?
    ensures r.Some? ==> |r.value| == |cards| && multiset(r.value) == multiset(cards)
  {
    match FirstIndexOf(cards, id)
    case None => None
    case Some(i) =>
      if direction == "up" && i > 0 then Some(Swap(cards, i, i - 1))
      else if direction == "down" && i < |cards| - 1 then Some(Swap(cards, i, i + 1))
      else Some(cards)
  }

  /** "up" at position i > 0 exchanges positions i-1 and i, "down" at
      i < n-1 exchanges i and i+1, and every other position is untouched;
      at a boundary the array comes back unchanged. */
  lemma MovedSwapsNeighbours(cards: seq<Record>, id: string, direction: string)
    requires FirstIndexOf(cards, id).Some?
    ensures var i := FirstIndexOf(cards, id).value;
      var t := Moved(cards, id, direction).value;
      (direction == "up" && i > 0 ==>
         t[i - 1] == cards[i] && t[i] == cards[i - 1]
         && forall k :: 0 <= k < |cards| && k != i && k != i - 1 ==> t[k] == cards[k])
      && (direction == "down" && i < |cards| - 1 ==>
         t[i + 1] == cards[i] && t[i] == cards[i + 1]
         && forall k :: 0 <= k < |cards| && k != i && k != i + 1 ==> t[k] == cards[k])
      && (direction == "up" && i == 0 ==> t == cards)
      && (direction == "down" && i == |cards| - 1 ==> t == cards)
  {
  }

  /** Exchanging two positions keeps ids unique. */
  lemma SwapKeepsIdsUnique(s: seq<Record>, i: nat, j: nat)
    requires IdsUnique(s) && i < |s| && j < |s|
    ensures IdsUnique(Swap(s, i, j))
  {
    var t := Swap(s, i, j);
    forall a, b | 0 <= a < |t| && 0 <= b < |t| && a != b ensures t[a].id != t[b].id {
      var fa := if a == i then j else if a == j then i else a;
      var fb := if b == i then j else if b == j then i else b;
      assert t[a] == s[fa] && t[b] == s[fb] && fa != fb;
    }
  }

  /** Moving keeps ids unique. */
  lemma MovedKeepsIdsUnique(cards: seq<Record>, id: string, direction: string)
    requires IdsUnique(cards) && FirstIndexOf(cards, id).Some?
    ensures IdsUnique(Moved(cards, id, direction).value)
  {
    var i := FirstIndexOf(cards, id).value;
    if direction == "up" && i > 0 {
      SwapKeepsIdsUnique(cards, i, i - 1);
    } else if direction == "down" && i < |cards| - 1 {
      SwapKeepsIdsUnique(cards, i, i + 1);
    }
  }

  lemma SwapTwice(s: seq<Record>, i: nat, j: nat)
    requires i < |s| && j < |s|
    ensures Swap(Swap(s, i, j), j, i) == s
  {
    var back := Swap(Swap(s, i, j), j, i);
    assert forall k :: 0 <= k < |s| ==> back[k] == s[k];
  }

  lemma MovedDownAt(cards: seq<Record>, id: string, k: nat)
    requires FirstIndexOf(cards, id) == Some(k) && k + 1 < |cards|
    ensures Moved(cards, id, "down") == Some(Swap(cards, k, k + 1))
  {
    assert "down" != "up" by {
      assert "down"[0] != "up"[0];
    }
  }

  /** With unique ids, moving a card up and then down again restores the
      original order. */
  lemma UpThenDownRestores(cards: seq<Record>, id: string)
    requires IdsUnique(cards)
    requires FirstIndexOf(cards, id).Some? && FirstIndexOf(cards, id).value > 0
    ensures Moved(cards, id, "up").Some?
    ensures Moved(Moved(cards, id, "up").value, id, "down") == Some(cards)
  {
    var i := FirstIndexOf(cards, id).value;
    var t := Swap(cards, i, i - 1);
    assert Moved(cards, id, "up") == Some(t);
    SwapKeepsIdsUnique(cards, i, i - 1);
    FoundIsOnly(t, id, i - 1);
    MovedDownAt(t, id, i - 1);
    SwapTwice(cards, i, i - 1);
  }

  /** The upfront checks of handleServiceSubmit: both text fields are
      required, and a new card (empty id) needs an uploaded file. */
  function SubmitCheck(serviceId: string, icon: string, upload: Option<string>, description: string): (r: Option<EditResult>)
    ensures r == Some(MissingFields) <==> icon == "" || description == ""
    ensures r == Some(MissingImage) <==> icon != "" && description != "" && serviceId == "" && upload.None?
    ensures r.None? <==> icon != "" && description != "" && (serviceId != "" || upload.Some?)
  {
    if icon == "" || description == "" then Some(MissingFields)
    else if serviceId == "" && upload.None? then Some(MissingImage)
    else None
  }

  /** The image processServiceCard receives: the uploaded file's data, else
      the stored image of the card being edited, else nothing. */
  function ImageFor(cards: seq<Record>, serviceId: string, upload: Option<string>): (image: Option<string>)
    ensures upload.Some? ==> image == upload
    ensures upload.None? && FirstIndexOf(cards, serviceId).None? ==> image.None?
    ensures upload.None? && FirstIndexOf(cards, serviceId).Some?
              && cards[FirstIndexOf(cards, serviceId).value].content.CardContent? ==>
              image == Some(cards[FirstIndexOf(cards, serviceId).value].content.card.image)
  {
    if upload.Some? then upload
    else
      match FirstIndexOf(cards, serviceId)
      case None => None
      case Some(i) => if cards[i].content.CardContent? then Some(cards[i].content.card.image) else None
  }

  /** An edit without an upload keeps the card's stored image: the card is
      rewritten with the image it already had, while its icon and
      description are replaced. */
  lemma EditWithoutUploadKeepsImage(cards: seq<Record>, serviceId: string, icon: string,
                                    description: string, newId: string, now: int)
    requires serviceId != ""
    requires FirstIndexOf(cards, serviceId).Some?
    requires cards[FirstIndexOf(cards, serviceId).value].content.CardContent?
    ensures ImageFor(cards, serviceId, None).Some?
    ensures var i := FirstIndexOf(cards, serviceId).value;
      var r := Processed(cards, serviceId, icon, ImageFor(cards, serviceId, None).value, description, newId, now);
      r[i].content == CardContent(Card(icon, cards[i].content.card.image, description))
      && r[i].id == serviceId
      && forall j :: 0 <= j < |cards| && j != i ==> r[j] == cards[j]
  {
    var image := ImageFor(cards, serviceId, None).value;
    ProcessedEditsOnlyTarget(cards, serviceId, icon, image, description, newId, now);
  }

  /** processServiceCard(serviceId, icon, imageData, description, cards). */
  method ProcessServiceCard(store: LocalStore, serviceId: string, icon: string, imageData: Option<string>,
                            description: string, cards: seq<Record>, newId: string, now: int)
    returns (res: EditResult)
    modifies store
    ensures res == (if HasImage(imageData) then Applied else MissingImage)
    ensures !HasImage(imageData) ==> store.slots == old(store.slots)
    ensures HasImage(imageData) ==>
      store.slots == Written(old(store.slots), store.quota, CardsKey,
                             Processed(cards, serviceId, icon, imageData.value, description, newId, now))
  {
    if !HasImage(imageData) {
      return MissingImage;
    }
    var image := imageData.value;
    if serviceId != "" {
      var a := new Record[|cards|](j requires 0 <= j < |cards| => cards[j]);
      match FirstIndexOf(cards, serviceId) {
        case None =>
        case Some(index) =>
          a[index] := a[index].(content := CardContent(Card(icon, image, description)));
      }
      assert a[..] == Processed(cards, serviceId, icon, image, description, newId, now);
      store.Save(CardsKey, a[..]);
    } else {
      var pushed := cards + [NewCard(newId, icon, image, description, now)];
      store.Save(CardsKey, pushed);
    }
    res := Applied;
  }

  /** handleServiceSubmit: the upfront checks, then processServiceCard on
      the cards read at submit time. */
  method HandleServiceSubmit(store: LocalStore, serviceId: string, icon: string, upload: Option<string>,
                             description: string, newId: string, now: int)
    returns (res: EditResult)
    modifies store
    ensures SubmitCheck(serviceId, icon, upload, description).Some? ==>
      res == SubmitCheck(serviceId, icon, upload, description).value && store.slots == old(store.slots)
    ensures SubmitCheck(serviceId, icon, upload, description).None? ==>
      var cards := Load(old(store.slots), CardsKey);
      var image := ImageFor(cards, serviceId, upload);
      res == (if HasImage(image) then Applied else MissingImage)
      && store.slots == if HasImage(image)
           then Written(old(store.slots), store.quota, CardsKey,
                        Processed(cards, serviceId, icon, image.value, description, newId, now))
           else old(store.slots)
  {
    var check := SubmitCheck(serviceId, icon, upload, description);
    if check.Some? {
      return check.value;
    }
    var cards := store.Items(CardsKey);
    var image := ImageFor(cards, serviceId, upload);
    res := ProcessServiceCard(store, serviceId, icon, image, description, cards, newId, now);
  }

  /** window.deleteService(serviceId), with the answer to confirm(). */
  method DeleteService(store: LocalStore, serviceId: string, confirmed: bool)
    modifies store
    ensures !confirmed ==> store.slots == old(store.slots)
    ensures confirmed ==>
      store.slots == Written(old(store.slots), store.quota, CardsKey,
                             Deleted(Load(old(store.slots), CardsKey), serviceId))
  {
    if !confirmed {
      return;
    }
    var cards := store.Items(CardsKey);
    cards := Deleted(cards, serviceId);
    store.Save(CardsKey, cards);
  }

  /** window.moveService(serviceId, direction): exchange in place on a
      fresh copy of the stored array, then save it. */
  method MoveService(store: LocalStore, serviceId: string, direction: string)
    modifies store
    ensures Moved(Load(old(store.slots), CardsKey), serviceId, direction).None? ==>
      store.slots == old(store.slots)
    ensures Moved(Load(old(store.slots), CardsKey), serviceId, direction).Some? ==>
      store.slots == Written(old(store.slots), store.quota, CardsKey,
                             Moved(Load(old(store.slots), CardsKey), serviceId, direction).value)
  {
    var cards := store.Items(CardsKey);
    match FirstIndexOf(cards, serviceId) {
      case None =>
        return;
      case Some(index) =>
        var a := new Record[|cards|](j requires 0 <= j < |cards| => cards[j]);
        if direction == "up" && index > 0 {
          a[index], a[index - 1] := a[index - 1], a[index];
        } else if direction == "down" && index < a.Length - 1 {
          a[index], a[index + 1] := a[index + 1], a[index];
        }
        assert a[..] == Moved(cards, serviceId, direction).value;
        store.Save(CardsKey, a[..]);
    }
  }
}
