/** The application-facing pin record (`UserPin`, src/types/map.ts). */
module PinTypes {

  /** A longitude/latitude pair in degrees. Coordinates are only ever
      copied, so exact reals stand in for JavaScript numbers. */
  datatype LngLat = LngLat(lng: real, lat: real)

  /** A user-created point of interest. */
  datatype Pin = Pin(
    id: string,
    title: string,
    lng: real,
    lat: real,
    assignees: seq<string>,
    targetFamilies: seq<string>)

  /** The set of ids appearing in a pin list. */
  function Ids(pins: seq<Pin>): set<string> {
    set i | 0 <= i < |pins| :: pins[i].id
  }

  /** No two entries of the list share an id. */
  predicate DistinctIds(pins: seq<Pin>) {
    forall i, j :: 0 <= i < j < |pins| ==> pins[i].id != pins[j].id
  }

  /** A list with a pin appended: its ids are the list's and that pin's,
      and they are distinct exactly when the list's are and the id is new. */
  lemma IdsSnoc(pins: seq<Pin>, p: Pin)
    ensures Ids(pins + [p]) == Ids(pins) + {p.id}
    ensures DistinctIds(pins + [p]) <==> DistinctIds(pins) && p.id !in Ids(pins)
  {
    var r := pins + [p];
    assert forall i :: 0 <= i < |pins| ==> r[i] == pins[i];
    assert r[|pins|] == p;
    assert Ids(r) == Ids(pins) + {p.id} by {
      forall x | x in Ids(r) ensures x in Ids(pins) + {p.id} {
        var i :| 0 <= i < |r| && r[i].id == x;
        if i < |pins| { assert pins[i].id == x; }
      }
    }
    if DistinctIds(r) {
      forall x | x in Ids(pins) ensures x != p.id {
        var k :| 0 <= k < |pins| && pins[k].id == x;
        assert r[k].id != r[|pins|].id;
      }
    }
  }

  /** A list with a pin in front: its ids are that pin's id and the rest's,
      and they are distinct exactly when the rest's are and the id is new. */
  lemma IdsCons(p: Pin, pins: seq<Pin>)
    ensures Ids([p] + pins) == {p.id} + Ids(pins)
    ensures DistinctIds([p] + pins) <==> DistinctIds(pins) && p.id !in Ids(pins)
  {
    var r := [p] + pins;
    assert forall i :: 0 <= i < |pins| ==> r[i + 1] == pins[i];
    assert Ids(r) == {p.id} + Ids(pins) by {
      forall x | x in Ids(r) ensures x in {p.id} + Ids(pins) {
        var i :| 0 <= i < |r| && r[i].id == x;
        if i > 0 { assert pins[i - 1].id == x; }
      }
      assert r[0].id == p.id;
      forall x | x in Ids(pins) ensures x in Ids(r) {
        var k :| 0 <= k < |pins| && pins[k].id == x;
        assert r[k + 1].id == x;
      }
    }
    if DistinctIds(r) {
      forall x | x in Ids(pins) ensures x != p.id {
        var k :| 0 <= k < |pins| && pins[k].id == x;
        assert r[0].id != r[k + 1].id;
      }
    }
    if DistinctIds(pins) && p.id !in Ids(pins) {
      forall i, j | 0 <= i < j < |r| ensures r[i].id != r[j].id {
        if i == 0 {
          assert r[j].id == pins[j - 1].id;
        } else {
          assert r[i] == pins[i - 1] && r[j] == pins[j - 1];
        }
      }
    }
  }
}
