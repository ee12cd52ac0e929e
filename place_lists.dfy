/** The pure list logic behind the user-places store: the `some` test on ids,
    append-if-absent and remove-by-id (a `filter` on ids), and what they
    guarantee about order and about the uniqueness of ids. */
module PlaceLists {

  /** Everything a place carries besides its id (title, description, image,
      coordinates, ...): the store never looks inside it, only passes it on. */
  type Details(==, !new)

  /** A place as the store sees it: a stable id and its other fields. */
  datatype Place = Place(id: string, details: Details)

  /** Whether some entry of the list has the given id. */
  function HasId(places: seq<Place>, id: string): (r: bool)
    ensures r <==> exists i | 0 <= i < |places| :: places[i].id == id
  {
    if places == [] then false
    else places[0].id == id || HasId(places[1..], id)
  }

  /** No two entries share an id. */
  predicate UniqueIds(places: seq<Place>) {
    forall i, j | 0 <= i < j < |places| :: places[i].id != places[j].id
  }

  /** The optimistic add: append the place unless an entry already has its id. */
  function AddIfAbsent(places: seq<Place>, place: Place): (r: seq<Place>)
    ensures HasId(r, place.id)
    ensures |places| <= |r| <= |places| + 1 && r[..|places|] == places
    ensures |r| == |places| + 1 <==> !HasId(places, place.id)
    ensures |r| == |places| + 1 ==> r[|places|] == place
  {
    if HasId(places, place.id) then places
    else
      var added := places + [place];
      assert added[|places|].id == place.id;
      added
  }

  /** The optimistic remove: keep exactly the entries whose id differs. */
  function RemoveById(places: seq<Place>, id: string): (r: seq<Place>)
    ensures |r| <= |places|
    ensures forall p :: p in r <==> p in places && p.id != id
    ensures !HasId(r, id)
  {
    if places == [] then []
    else if places[0].id == id then RemoveById(places[1..], id)
    else [places[0]] + RemoveById(places[1..], id)
  }

  /** Removing by id works piecewise, so the kept entries keep their order. */
  lemma {:induction false} RemoveByIdAppend(a: seq<Place>, b: seq<Place>, id: string)
    ensures RemoveById(a + b, id) == RemoveById(a, id) + RemoveById(b, id)
  {
    if a == [] {
      assert a + b == b;
    } else {
      assert (a + b)[1..] == a[1..] + b;
      RemoveByIdAppend(a[1..], b, id);
    }
  }

  /** Removing an id that no entry has leaves the list as it was. */
  lemma {:induction false} RemoveAbsent(places: seq<Place>, id: string)
    requires !HasId(places, id)
    ensures RemoveById(places, id) == places
  {
    if places != [] {
      RemoveAbsent(places[1..], id);
      assert [places[0]] + places[1..] == places;
    }
  }

  /** In a list with unique ids, removing the id of entry k drops that entry
      and nothing else, and the others stay in order. */
  lemma RemovePresent(places: seq<Place>, k: nat)
    requires UniqueIds(places) && k < |places|
    ensures RemoveById(places, places[k].id) == places[..k] + places[k + 1..]
    ensures |RemoveById(places, places[k].id)| == |places| - 1
  {
    var id := places[k].id;
    var before, after := places[..k], places[k + 1..];
    assert places == before + ([places[k]] + after);
    RemoveByIdAppend(before, [places[k]] + after, id);
    RemoveByIdAppend([places[k]], after, id);
    assert [places[k]][1..] == [];
    assert RemoveById([places[k]], id) == [];
    assert !HasId(before, id) by {
      forall i | 0 <= i < |before| ensures before[i].id != id {
        assert before[i] == places[i];
      }
    }
    assert !HasId(after, id) by {
      forall i | 0 <= i < |after| ensures after[i].id != id {
        assert after[i] == places[k + 1 + i];
      }
    }
    RemoveAbsent(before, id);
    RemoveAbsent(after, id);
  }

  /** Adding a place whose id was absent and then removing that id restores
      the original list exactly. */
  lemma AddThenRemoveRestores(places: seq<Place>, place: Place)
    requires !HasId(places, place.id)
    ensures RemoveById(AddIfAbsent(places, place), place.id) == places
  {
    RemoveByIdAppend(places, [place], place.id);
    RemoveAbsent(places, place.id);
    assert [place][1..] == [];
  }

  /** Adding the same place twice is the same as adding it once. */
  lemma AddIfAbsentIdempotent(places: seq<Place>, place: Place)
    ensures AddIfAbsent(AddIfAbsent(places, place), place) == AddIfAbsent(places, place)
  {
  }

  /** Removing the same id twice is the same as removing it once. */
  lemma RemoveByIdIdempotent(places: seq<Place>, id: string)
    ensures RemoveById(RemoveById(places, id), id) == RemoveById(places, id)
  {
    RemoveAbsent(RemoveById(places, id), id);
  }

  /** Append-if-absent never creates a duplicate id. */
  lemma AddIfAbsentKeepsUnique(places: seq<Place>, place: Place)
    requires UniqueIds(places)
    ensures UniqueIds(AddIfAbsent(places, place))
  {
  }

  /** Remove-by-id never creates a duplicate id. */
  lemma {:induction false} RemoveByIdKeepsUnique(places: seq<Place>, id: string)
    requires UniqueIds(places)
    ensures UniqueIds(RemoveById(places, id))
  {
    if places != [] {
      var tail := places[1..];
      assert UniqueIds(tail) by {
        forall i, j | 0 <= i < j < |tail| ensures tail[i].id != tail[j].id {
          assert tail[i] == places[i + 1] && tail[j] == places[j + 1];
        }
      }
      RemoveByIdKeepsUnique(tail, id);
      var rest := RemoveById(tail, id);
      if places[0].id != id {
        assert !HasId(tail, places[0].id);
        assert forall q | q in rest :: q.id != places[0].id;
        var r := [places[0]] + rest;
        forall i, j | 0 <= i < j < |r| ensures r[i].id != r[j].id {
          if i == 0 {
            assert r[j] == rest[j - 1] && r[j] in rest;
          } else {
            assert r[i] == rest[i - 1] && r[j] == rest[j - 1];
          }
        }
      }
    }
  }
}
