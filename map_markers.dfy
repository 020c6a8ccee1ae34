/** The marker registry of the map component and the effect that keeps it
    in step with the pin list (src/components/MalolosMap.tsx:205-298). */
module MarkerSync {
  import opened Wrappers
  import opened PinTypes
  import PinPopup
  import JsString

  /** A marker on the map: `handle` stands for the identity of the Mapbox
      marker object, so a refreshed marker keeps its handle and a new one
      gets a fresh handle. */
  datatype Marker = Marker(handle: nat, position: LngLat, popupHtml: string)

  /** One feature of the `pin-labels` GeoJSON source: a point at
      `[lng, lat]` with properties `{id, title}`. */
  datatype Label = Label(position: LngLat, id: string, title: string)

  function Position(pin: Pin): LngLat {
    LngLat(pin.lng, pin.lat)
  }

  /** The label features of a pin list: one per pin, in pin order. */
  function PinLabels(pins: seq<Pin>): (r: seq<Label>)
    ensures |r| == |pins|
    ensures forall i :: 0 <= i < |pins| ==>
      r[i].position == LngLat(pins[i].lng, pins[i].lat) && r[i].id == pins[i].id && r[i].title == pins[i].title
  {
    if pins == [] then []
    else PinLabels(pins[..|pins| - 1]) + [Label(Position(pins[|pins| - 1]), pins[|pins| - 1].id, pins[|pins| - 1].title)]
  }

  /** The last pin with the given id: `forEach` writes the registry entry
      once per pin, so with repeated ids the last one wins. */
  function Latest(pins: seq<Pin>, id: string): (r: Option<Pin>)
    ensures r.Some? <==> id in Ids(pins)
    ensures r.Some? ==> r.value in pins && r.value.id == id
  {
    if pins == [] then None
    else if pins[|pins| - 1].id == id then Some(pins[|pins| - 1])
    else
      var r := Latest(pins[..|pins| - 1], id);
      assert Ids(pins) == Ids(pins[..|pins| - 1]) + {pins[|pins| - 1].id};
      r
  }

  /** With distinct ids the latest pin with an id is the only one. */
  lemma {:induction false} LatestOfDistinct(pins: seq<Pin>, k: int)
    requires DistinctIds(pins) && 0 <= k < |pins|
    ensures Latest(pins, pins[k].id) == Some(pins[k])
  {
    if k < |pins| - 1 {
      assert pins[..|pins| - 1][k] == pins[k];
      LatestOfDistinct(pins[..|pins| - 1], k);
    }
  }

  /** The marker the effect leaves for `pin`; `handle` is the identity of
      the marker object it reuses or creates and `render` makes the popup
      content. */
  function Rendered(pin: Pin, handle: nat, render: Pin -> string): Marker {
    Marker(handle, Position(pin), render(pin))
  }

  /** The popup renderer the map uses: `getPinPopupHtml`, with `fixed5`
      formatting a coordinate as `toFixed(5)` does. */
  function PopupRenderer(fixed5: real -> string): Pin -> string {
    pin => PinPopup.PopupHtml(pin, fixed5)
  }

  /** Every marker shows the popup of the latest pin with its id. */
  ghost predicate Reflects(markers: map<string, Marker>, pins: seq<Pin>, render: Pin -> string) {
    forall id :: id in markers ==>
      Latest(pins, id).Some? && markers[id] == Rendered(Latest(pins, id).value, markers[id].handle, render)
  }

  /** A reflected marker's popup carries the ids its handlers look up. */
  lemma ReflectedPopupHasButtons(markers: map<string, Marker>, pins: seq<Pin>, fixed5: real -> string, id: string)
    requires Reflects(markers, pins, PopupRenderer(fixed5)) && id in markers
    ensures JsString.Includes(markers[id].popupHtml, PinPopup.IdAttribute(PinPopup.RenameButtonId(id)))
    ensures JsString.Includes(markers[id].popupHtml, PinPopup.IdAttribute(PinPopup.DeleteButtonId(id)))
    ensures JsString.Includes(markers[id].popupHtml, PinPopup.IdAttribute(PinPopup.RootId(id)))
  {
    PinPopup.PopupShows(Latest(pins, id).value, fixed5);
  }

  /** `renderedMarkersRef` and the `pin-labels` source of the map. */
  class MarkerLayer {
    /** The registry: pin id to marker. */
    var markers: map<string, Marker>
    /** The next unused marker identity. */
    var nextHandle: nat
    /** The data of the `pin-labels` source; `None` until it is added. */
    var labels: Option<seq<Label>>

    /** Distinct entries hold distinct marker objects, all already made. */
    ghost predicate Valid()
      reads this
    {
      && (forall id :: id in markers ==> markers[id].handle < nextHandle)
      && (forall a, b :: a in markers && b in markers && a != b ==> markers[a].handle != markers[b].handle)
    }

    constructor ()
      ensures Valid() && markers == map[] && labels == None
    {
      markers := map[];
      nextHandle := 0;
      labels := None;
    }

    /** The sync effect. Without a map it does nothing. Otherwise it
        removes the markers of vanished pins, creates a marker for each new
        id, refreshes the position and popup of each existing one, and
        replaces the label data. `render` is the popup renderer,
        `PopupRenderer(fixed5)` on the map. */
    method Sync(mapReady: bool, pins: seq<Pin>, render: Pin -> string)
      requires Valid()
      modifies this
      ensures Valid()
      ensures !mapReady ==> markers == old(markers) && nextHandle == old(nextHandle) && labels == old(labels)
      ensures mapReady ==> markers.Keys == Ids(pins)
      ensures mapReady ==> Reflects(markers, pins, render)
      ensures mapReady ==> forall id :: id in markers && id in old(markers) ==> markers[id].handle == old(markers[id].handle)
      ensures mapReady ==> forall id :: id in markers && id !in old(markers) ==> markers[id].handle >= old(nextHandle)
      ensures mapReady ==> labels == Some(PinLabels(pins))
    {
      if !mapReady {
        return;
      }
      RemoveStale(Ids(pins));
      ghost var kept := markers;
      AddOrRefresh(pins, render);
      PlacedAfterRemoval(markers, kept, old(markers), old(nextHandle), pins, render);
      labels := Some(PinLabels(pins));
    }

    /** The first loop: drop every entry whose id is not a pin id. */
    method RemoveStale(stateIds: set<string>)
      requires Valid()
      modifies this
      ensures Valid() && nextHandle == old(nextHandle) && labels == old(labels)
      ensures markers.Keys == old(markers).Keys * stateIds
      ensures forall id :: id in markers ==> markers[id] == old(markers)[id]
    {
      var keys := markers.Keys;
      while keys != {}
        invariant Valid() && nextHandle == old(nextHandle) && labels == old(labels)
        invariant keys <= old(markers).Keys
        invariant markers.Keys <= old(markers).Keys
        invariant forall id :: id in markers ==> markers[id] == old(markers)[id]
        invariant forall id :: id in old(markers) ==> (id in markers <==> id in keys || id in stateIds)
        decreases keys
      {
        var id :| id in keys;
        if id !in stateIds {
          markers := markers - {id};
        }
        keys := keys - {id};
      }
    }

    /** One step of the second loop: a new marker for an unseen id, or the
        existing marker moved and given the pin's popup. */
    method Place(pin: Pin, render: Pin -> string)
      requires Valid()
      modifies this
      ensures Valid() && labels == old(labels)
      ensures pin.id in old(markers) ==>
        markers == old(markers)[pin.id := Rendered(pin, old(markers)[pin.id].handle, render)] && nextHandle == old(nextHandle)
      ensures pin.id !in old(markers) ==>
        markers == old(markers)[pin.id := Rendered(pin, old(nextHandle), render)] && nextHandle == old(nextHandle) + 1
    {
      if pin.id !in markers {
        markers := markers[pin.id := Rendered(pin, nextHandle, render)];
        nextHandle := nextHandle + 1;
      } else {
        markers := markers[pin.id := Rendered(pin, markers[pin.id].handle, render)];
      }
    }

    /** The second loop, over the pins in order. */
    method AddOrRefresh(pins: seq<Pin>, render: Pin -> string)
      requires Valid()
      modifies this
      ensures Valid() && labels == old(labels)
      ensures Placed(markers, old(markers), old(nextHandle), pins, render)
    {
      for i := 0 to |pins|
        invariant Valid() && labels == old(labels)
        invariant nextHandle >= old(nextHandle)
        invariant Placed(markers, old(markers), old(nextHandle), pins[..i], render)
      {
        ghost var before := markers;
        ghost var h := if pins[i].id in markers then markers[pins[i].id].handle else nextHandle;
        LatestStep(pins, i);
        Place(pins[i], render);
        PlacedStep(before, markers, old(markers), old(nextHandle), pins[..i], pins[..i + 1], pins[i], h, render);
      }
      assert pins[..|pins|] == pins;
    }
  }

  /** After the second loop has gone through `prefix`, starting from the
      registry `base` whose free handles began at `baseNext`: every id seen
      has the marker of its latest pin, every other entry is untouched, old
      markers keep their identity and new ones are fresh. */
  ghost predicate Placed(m: map<string, Marker>, base: map<string, Marker>, baseNext: nat,
                         prefix: seq<Pin>, render: Pin -> string) {
    && m.Keys == base.Keys + Ids(prefix)
    && (forall id :: id in Ids(prefix) ==> m[id] == Rendered(Latest(prefix, id).value, m[id].handle, render))
    && (forall id :: id in m && id !in Ids(prefix) ==> m[id] == base[id])
    && (forall id :: id in m && id in base ==> m[id].handle == base[id].handle)
    && (forall id :: id in m && id !in base ==> m[id].handle >= baseNext)
  }

  /** Both loops together: starting from `start`, keeping only the entries
      of pin ids (`kept`) and then placing every pin leaves exactly one
      marker per pin id, each reflecting its latest pin. */
  lemma PlacedAfterRemoval(m: map<string, Marker>, kept: map<string, Marker>, start: map<string, Marker>,
                           baseNext: nat, pins: seq<Pin>, render: Pin -> string)
    requires kept.Keys == start.Keys * Ids(pins)
    requires forall id :: id in kept ==> kept[id] == start[id]
    requires Placed(m, kept, baseNext, pins, render)
    ensures m.Keys == Ids(pins)
    ensures Reflects(m, pins, render)
    ensures forall id :: id in m && id in start ==> m[id].handle == start[id].handle
    ensures forall id :: id in m && id !in start ==> m[id].handle >= baseNext
  {
    forall id | id in m && id in start ensures m[id].handle == start[id].handle {
      assert id in kept;
    }
  }

  /** One more pin placed keeps `Placed`: `next` is `prefix` followed by
      `pin`, and `m1` is `m0` with the marker of `pin`, which reuses the
      existing marker object or takes a fresh one. */
  lemma PlacedStep(m0: map<string, Marker>, m1: map<string, Marker>, base: map<string, Marker>,
                   baseNext: nat, prefix: seq<Pin>, next: seq<Pin>, pin: Pin, h: nat,
                   render: Pin -> string)
    requires Placed(m0, base, baseNext, prefix, render)
    requires Ids(next) == Ids(prefix) + {pin.id}
    requires Latest(next, pin.id) == Some(pin)
    requires forall id :: id != pin.id ==> Latest(next, id) == Latest(prefix, id)
    requires m1 == m0[pin.id := Rendered(pin, h, render)]
    requires pin.id in m0 ==> h == m0[pin.id].handle
    requires pin.id !in m0 ==> h >= baseNext
    ensures Placed(m1, base, baseNext, next, render)
  {
    PlacedStepRendered(m0, m1, base, baseNext, prefix, next, pin, h, render);
    forall id | id in m1 && id !in Ids(next) ensures m1[id] == base[id] {
      assert id != pin.id && id in m0;
    }
    forall id | id in m1 && id in base ensures m1[id].handle == base[id].handle {
      if id == pin.id && pin.id !in m0 {
        assert false;
      }
    }
  }

  /** The pins seen so far, `pin` included, have their latest marker. */
  lemma PlacedStepRendered(m0: map<string, Marker>, m1: map<string, Marker>, base: map<string, Marker>,
                           baseNext: nat, prefix: seq<Pin>, next: seq<Pin>, pin: Pin, h: nat,
                           render: Pin -> string)
    requires Placed(m0, base, baseNext, prefix, render)
    requires Ids(next) == Ids(prefix) + {pin.id}
    requires Latest(next, pin.id) == Some(pin)
    requires forall id :: id != pin.id ==> Latest(next, id) == Latest(prefix, id)
    requires m1 == m0[pin.id := Rendered(pin, h, render)]
    ensures forall id :: id in Ids(next) ==> m1[id] == Rendered(Latest(next, id).value, m1[id].handle, render)
  {
    forall id | id in Ids(next)
      ensures m1[id] == Rendered(Latest(next, id).value, m1[id].handle, render)
    {
      if id != pin.id {
        assert id in Ids(prefix);
      }
    }
  }

  /** Extending the scanned prefix by one pin. */
  lemma LatestStep(pins: seq<Pin>, i: int)
    requires 0 <= i < |pins|
    ensures Ids(pins[..i + 1]) == Ids(pins[..i]) + {pins[i].id}
    ensures Latest(pins[..i + 1], pins[i].id) == Some(pins[i])
    ensures forall id :: id != pins[i].id ==> Latest(pins[..i + 1], id) == Latest(pins[..i], id)
  {
    assert pins[..i + 1][..i] == pins[..i];
    assert pins[..i + 1][i] == pins[i];
    forall x | x in Ids(pins[..i + 1]) ensures x in Ids(pins[..i]) + {pins[i].id} {
      var j :| 0 <= j < i + 1 && pins[..i + 1][j].id == x;
      if j < i { assert pins[..i][j].id == x; }
    }
    forall x | x in Ids(pins[..i]) ensures x in Ids(pins[..i + 1]) {
      var j :| 0 <= j < i && pins[..i][j].id == x;
      assert pins[..i + 1][j].id == x;
    }
    assert pins[..i + 1][i].id == pins[i].id;
  }
}
