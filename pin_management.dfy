/** The pin state controller (src/hooks/usePinManagement.ts): the ordered
    list of pins the page shows and the add-pin mode flag. Every operation
    calls the pin store first and changes the list only when that call
    succeeds; a failure is logged and leaves the state as it was. */
module PinManagement {
  import opened Wrappers
  import opened PinTypes
  import opened PinService
  import JsString

  /** `prev.map(pin => pin.id === pinId ? updatedPin : pin)`. */
  function ReplaceById(pins: seq<Pin>, id: string, updated: Pin): (r: seq<Pin>)
    ensures |r| == |pins|
    ensures forall i :: 0 <= i < |pins| ==> r[i] == (if pins[i].id == id then updated else pins[i])
  {
    if pins == [] then []
    else [if pins[0].id == id then updated else pins[0]] + ReplaceById(pins[1..], id, updated)
  }

  /** `prev.filter(pin => pin.id !== pinId)`. */
  function RemoveById(pins: seq<Pin>, id: string): (r: seq<Pin>)
    ensures |r| <= |pins|
  {
    if pins == [] then []
    else (if pins[0].id == id then [] else [pins[0]]) + RemoveById(pins[1..], id)
  }

  /** The entries kept are exactly those whose id differs. */
  lemma {:induction false} RemoveByIdMembers(pins: seq<Pin>, id: string)
    ensures forall p :: p in RemoveById(pins, id) <==> p in pins && p.id != id
  {
    if pins != [] {
      RemoveByIdMembers(pins[1..], id);
      assert pins == [pins[0]] + pins[1..];
    }
  }

  /** Removing distributes over concatenation: the entries kept stay in their
      original order. */
  lemma {:induction false} RemoveByIdAppend(a: seq<Pin>, b: seq<Pin>, id: string)
    ensures RemoveById(a + b, id) == RemoveById(a, id) + RemoveById(b, id)
  {
    if a != [] {
      assert (a + b)[1..] == a[1..] + b;
      RemoveByIdAppend(a[1..], b, id);
    } else {
      assert a + b == b;
    }
  }

  /** A list without that id is kept as it is. */
  lemma {:induction false} RemoveByIdAbsent(pins: seq<Pin>, id: string)
    requires forall i :: 0 <= i < |pins| ==> pins[i].id != id
    ensures RemoveById(pins, id) == pins
  {
    if pins != [] {
      RemoveByIdAbsent(pins[1..], id);
    }
  }

  /** With distinct ids, deleting the id of entry `k` removes exactly that
      entry and keeps the others in order. */
  lemma RemoveByIdUnique(pins: seq<Pin>, k: int)
    requires DistinctIds(pins) && 0 <= k < |pins|
    ensures RemoveById(pins, pins[k].id) == pins[..k] + pins[k + 1..]
  {
    var id := pins[k].id;
    var front, rest, back := pins[..k], pins[k..], pins[k + 1..];
    assert pins == front + rest;
    assert rest[0] == pins[k] && rest[1..] == back;
    forall i | 0 <= i < |front| ensures front[i].id != id {
      assert front[i] == pins[i];
    }
    forall i | 0 <= i < |back| ensures back[i].id != id {
      assert back[i] == pins[k + 1 + i];
    }
    RemoveByIdAbsent(front, id);
    RemoveByIdAbsent(back, id);
    RemoveByIdAppend(front, rest, id);
    assert RemoveById(rest, id) == RemoveById(back, id);
  }

  /** Removing an id takes exactly that id out of the id set and keeps the
      ids distinct. */
  lemma {:induction false} RemoveByIdIds(pins: seq<Pin>, id: string)
    requires DistinctIds(pins)
    ensures Ids(RemoveById(pins, id)) == Ids(pins) - {id}
    ensures DistinctIds(RemoveById(pins, id))
  {
    if pins != [] {
      var p, rest := pins[0], pins[1..];
      assert pins == [p] + rest;
      IdsCons(p, rest);
      RemoveByIdIds(rest, id);
      if p.id != id {
        IdsCons(p, RemoveById(rest, id));
      } else {
        assert RemoveById(pins, id) == RemoveById(rest, id);
      }
    }
  }

  /** Replacing with a pin carrying the same id keeps the id set and the
      distinctness of ids. */
  lemma ReplaceByIdIds(pins: seq<Pin>, id: string, updated: Pin)
    requires updated.id == id
    ensures Ids(ReplaceById(pins, id, updated)) == Ids(pins)
    ensures DistinctIds(pins) ==> DistinctIds(ReplaceById(pins, id, updated))
  {
    var r := ReplaceById(pins, id, updated);
    assert forall i :: 0 <= i < |pins| ==> r[i].id == pins[i].id;
    assert Ids(r) == Ids(pins) by {
      forall x | x in Ids(pins) ensures x in Ids(r) {
        var i :| 0 <= i < |pins| && pins[i].id == x;
        assert r[i].id == x;
      }
    }
  }

  /** A list without that id is not changed by an update. */
  lemma ReplaceByIdAbsent(pins: seq<Pin>, id: string, updated: Pin)
    requires id !in Ids(pins)
    ensures ReplaceById(pins, id, updated) == pins
  {
    assert forall i :: 0 <= i < |pins| ==> pins[i].id in Ids(pins);
  }

  /** The changes `updatePin` sends: the trimmed title and both lists,
      never coordinates. */
  function EditChanges(newTitle: string, assignees: seq<string>, targetFamilies: seq<string>): PinChanges {
    PinChanges(Some(JsString.Trim(newTitle)), None, None, Some(assignees), Some(targetFamilies))
  }

  /** The effect of `updatePin` on the list (`pins0` to `pins1`) and on the
      table (`table0` to `table1`): when the store has the row and answers,
      the row is patched and every entry with that id becomes the returned
      pin; otherwise neither changes. */
  ghost predicate Updated(pins0: seq<Pin>, table0: map<string, Row>, pins1: seq<Pin>, table1: map<string, Row>,
                          pinId: string, newTitle: string, assignees: seq<string>,
                          targetFamilies: seq<string>, failure: Option<string>) {
    if failure.None? && pinId in table0 then
      var row := Patch(table0[pinId], UpdatePayload(EditChanges(newTitle, assignees, targetFamilies)));
      && table1 == table0[pinId := row]
      && pins1 == ReplaceById(pins0, pinId, ToPin(row))
    else
      pins1 == pins0 && table1 == table0
  }

  /** The effect of `addPin`: when the insert succeeds with a fresh id the
      new pin, carrying the trimmed title, is appended to the list, the
      table gains its row and add mode ends; otherwise nothing changes. */
  ghost predicate Added(pins0: seq<Pin>, table0: map<string, Row>, clock0: nat, adding0: bool,
                        pins1: seq<Pin>, table1: map<string, Row>, adding1: bool,
                        lng: real, lat: real, title: string, assignees: seq<string>,
                        targetFamilies: seq<string>, newId: string, failure: Option<string>) {
    var draft := PinDraft(JsString.Trim(title), lng, lat, assignees, targetFamilies);
    if failure.None? && newId !in table0 then
      && pins1 == pins0 + [WithId(draft, newId)]
      && !adding1
      && table1 == table0[newId := Stored(InsertPayload(draft), newId, clock0)]
    else
      pins1 == pins0 && adding1 == adding0 && table1 == table0
  }

  /** The effect of `deletePin`: on success every entry with the id leaves
      the list and its row leaves the table; otherwise nothing changes. */
  ghost predicate Deleted(pins0: seq<Pin>, table0: map<string, Row>, pins1: seq<Pin>, table1: map<string, Row>,
                          pinId: string, failure: Option<string>) {
    if failure.None? then
      pins1 == RemoveById(pins0, pinId) && table1 == table0 - {pinId}
    else
      pins1 == pins0 && table1 == table0
  }

  /** The hook's state together with the store it calls. */
  class PinController {
    /** `userPins`, in display order. */
    var pins: seq<Pin>
    /** `isAddingPin`. */
    var adding: bool
    /** The pin store the hook calls. */
    const store: PinStore

    ghost predicate Valid()
      reads this, store
    {
      store.Valid()
    }

    /** The local list holds each row of the table exactly once. */
    ghost predicate InSync()
      reads this, store
    {
      Ids(pins) == store.table.Keys && DistinctIds(pins)
    }

    /** The hook's initial state: no pins, add mode off. */
    constructor (store: PinStore)
      requires store.Valid()
      ensures Valid() && this.store == store
      ensures pins == [] && !adding
    {
      this.store := store;
      pins := [];
      adding := false;
    }

    /** `loadPins`: on success the list becomes what `getAllPins` read. */
    method LoadPins(failure: Option<string>)
      requires Valid()
      modifies this
      ensures Valid() && adding == old(adding)
      ensures failure.Some? ==> pins == old(pins)
      ensures failure.None? ==> Listing(store.table, pins) && InSync()
    {
      var r := store.GetAllPins(failure);
      if r.Ok? {
        pins := r.value;
      }
    }

    /** `addPin`: create a pin with the trimmed title; on success append it
        and leave add mode. `newId` is the id the store generates. */
    method AddPin(lng: real, lat: real, title: string, assignees: seq<string>,
                  targetFamilies: seq<string>, newId: string, failure: Option<string>)
      requires Valid()
      modifies this, store
      ensures Valid()
      ensures Added(old(pins), old(store.table), old(store.clock), old(adding), pins, store.table, adding,
                    lng, lat, title, assignees, targetFamilies, newId, failure)
      ensures old(InSync()) ==> InSync()
    {
      var draft := PinDraft(JsString.Trim(title), lng, lat, assignees, targetFamilies);
      var r := store.CreatePin(draft, newId, failure);
      if r.Ok? {
        IdsSnoc(pins, r.value);
        pins := pins + [r.value];
        adding := false;
      }
    }

    /** `updatePin`: send the trimmed title and both lists; on success put
        the returned pin in place of every entry with that id. */
    method UpdatePin(pinId: string, newTitle: string, assignees: seq<string>,
                     targetFamilies: seq<string>, failure: Option<string>)
      requires Valid()
      modifies this, store
      ensures Valid() && adding == old(adding)
      ensures Updated(old(pins), old(store.table), pins, store.table, pinId, newTitle, assignees, targetFamilies, failure)
      ensures old(InSync()) ==> InSync()
    {
      var r := store.UpdatePin(pinId, EditChanges(newTitle, assignees, targetFamilies), failure);
      if r.Ok? {
        ReplaceByIdIds(pins, pinId, r.value);
        pins := ReplaceById(pins, pinId, r.value);
      }
    }

    /** `deletePin`: on success drop every entry with that id. */
    method DeletePin(pinId: string, failure: Option<string>)
      requires Valid()
      modifies this, store
      ensures Valid() && adding == old(adding)
      ensures Deleted(old(pins), old(store.table), pins, store.table, pinId, failure)
      ensures old(InSync()) ==> InSync()
    {
      var r := store.DeletePin(pinId, failure);
      if r.Pass? {
        if DistinctIds(pins) {
          RemoveByIdIds(pins, pinId);
        }
        pins := RemoveById(pins, pinId);
      }
    }

    /** `clearAllPins`: on success the list is empty; the table keeps at
        most the sentinel row. */
    method ClearAllPins(failure: Option<string>)
      requires Valid()
      modifies this, store
      ensures Valid() && adding == old(adding)
      ensures failure.None? ==> pins == [] && store.table.Keys == old(store.table).Keys * {SentinelId}
      ensures failure.Some? ==> pins == old(pins) && store.table == old(store.table)
      ensures failure.None? && SentinelId !in old(store.table) ==> InSync()
    {
      var r := store.DeleteAllPins(failure);
      if r.Pass? {
        pins := [];
      }
    }

    /** `toggleAddPin`: flip add mode; the list is untouched. */
    method ToggleAddPin()
      modifies this
      ensures adding == !old(adding) && pins == old(pins)
    {
      adding := !adding;
    }
  }
}
