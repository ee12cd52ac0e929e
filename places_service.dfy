/** The places service: the store of the user's chosen places, the optimistic
    add and remove with whole-snapshot rollback, and the two loads. Every remote
    call is replaced by the way it settled, a `Response` passed in by the caller. */
module Places {
  import opened PlaceLists

  const AvailablePlacesError := "Failed to load available places"
  const UserPlacesError := "Failed to load user places"
  const AddPlaceError := "Failed to add place to user places"
  const RemovePlaceError := "Failed to remove place from user places"

  /** The `{ places: [...] }` body of both GET resources. */
  datatype Envelope = Envelope(places: seq<Place>)

  /** How a remote call settled: with its decoded body, or with a transport or
      parse failure whose detail only goes to the diagnostic log. A delivered
      body that is not an envelope is not represented. */
  datatype Response<T> = Delivered(body: T) | Failed(detail: string)

  /** What the caller observes: a value, or a domain error carrying only its message. */
  datatype Result<T> = Ok(value: T) | Err(message: string)

  /** Unwraps the envelope, and replaces any failure by the fixed message of
      the operation, whatever the failure's detail was. */
  function FetchPlaces(response: Response<Envelope>, errorMessage: string): (r: Result<seq<Place>>)
    ensures r.Ok? <==> response.Delivered?
    ensures r.Ok? ==> r.value == response.body.places
    ensures r.Err? ==> r.message == errorMessage
  {
    match response
    case Delivered(envelope) => Ok(envelope.places)
    case Failed(_) => Err(errorMessage)
  }

  class PlacesService {
    /** The user's chosen places, in order. */
    var userPlaces: seq<Place>
    /** Every message handed to the error reporter, oldest first. */
    ghost var shownErrors: seq<string>

    constructor ()
      ensures userPlaces == [] && shownErrors == []
    {
      userPlaces := [];
      shownErrors := [];
    }

    /** The read-only view of the store. */
    function LoadedUserPlaces(): (current: seq<Place>)
      reads this
      ensures current == userPlaces
    {
      userPlaces
    }

    /** Loads the available places; it has no frame, so it cannot touch the store. */
    method LoadAvailablePlaces(response: Response<Envelope>) returns (r: Result<seq<Place>>)
      ensures r.Ok? <==> response.Delivered?
      ensures r.Ok? ==> r.value == response.body.places
      ensures r.Err? ==> r.message == AvailablePlacesError
    {
      r := FetchPlaces(response, AvailablePlacesError);
    }

    /** Loads the user's places and, on success only, replaces the store with them. */
    method LoadUserPlaces(response: Response<Envelope>) returns (r: Result<seq<Place>>)
      modifies this`userPlaces
      ensures r.Ok? <==> response.Delivered?
      ensures r.Ok? ==> r.value == response.body.places && userPlaces == r.value
      ensures r.Err? ==> r.message == UserPlacesError && userPlaces == old(userPlaces)
    {
      r := FetchPlaces(response, UserPlacesError);
      if r.Ok? {
        userPlaces := r.value;
      }
    }

    /** The synchronous part of an add: take the snapshot, then append the
        place if its id is absent. */
    method BeginAdd(place: Place) returns (snapshot: seq<Place>)
      modifies this`userPlaces
      ensures snapshot == old(userPlaces)
      ensures userPlaces == AddIfAbsent(snapshot, place)
      ensures UniqueIds(snapshot) ==> UniqueIds(userPlaces)
    {
      snapshot := userPlaces;
      if UniqueIds(snapshot) {
        AddIfAbsentKeepsUnique(snapshot, place);
      }
      if !HasId(snapshot, place.id) {
        userPlaces := snapshot + [place];
      }
    }

    /** The synchronous part of a remove: take the snapshot, then drop the
        entries with the place's id if there are any. */
    method BeginRemove(place: Place) returns (snapshot: seq<Place>)
      modifies this`userPlaces
      ensures snapshot == old(userPlaces)
      ensures userPlaces == RemoveById(snapshot, place.id)
      ensures UniqueIds(snapshot) ==> UniqueIds(userPlaces)
    {
      snapshot := userPlaces;
      if UniqueIds(snapshot) {
        RemoveByIdKeepsUnique(snapshot, place.id);
      }
      if HasId(snapshot, place.id) {
        userPlaces := RemoveById(snapshot, place.id);
      } else {
        RemoveAbsent(snapshot, place.id);
      }
    }

    /** The error handler shared by add and remove: on success the store is
        left alone and the payload passed on; on failure the store is set back
        to the snapshot, whatever happened to it meanwhile, and the same message
        is both shown and raised. */
    method Settle<T>(snapshot: seq<Place>, response: Response<T>, errorMessage: string)
      returns (r: Result<T>)
      modifies this
      ensures response.Delivered? ==>
        r == Ok(response.body) && userPlaces == old(userPlaces) && shownErrors == old(shownErrors)
      ensures response.Failed? ==>
        r == Err(errorMessage) && userPlaces == snapshot && shownErrors == old(shownErrors) + [errorMessage]
    {
      match response
      case Delivered(body) =>
        r := Ok(body);
      case Failed(_) =>
        userPlaces := snapshot;
        shownErrors := shownErrors + [errorMessage];
        r := Err(errorMessage);
    }

    /** The moment the PUT of an add settles. */
    method SettleAdd<T>(snapshot: seq<Place>, response: Response<T>) returns (r: Result<T>)
      modifies this
      ensures response.Delivered? ==>
        r == Ok(response.body) && userPlaces == old(userPlaces) && shownErrors == old(shownErrors)
      ensures response.Failed? ==>
        r == Err(AddPlaceError) && userPlaces == snapshot && shownErrors == old(shownErrors) + [AddPlaceError]
    {
      r := Settle(snapshot, response, AddPlaceError);
    }

    /** The moment the DELETE of a remove settles. */
    method SettleRemove<T>(snapshot: seq<Place>, response: Response<T>) returns (r: Result<T>)
      modifies this
      ensures response.Delivered? ==>
        r == Ok(response.body) && userPlaces == old(userPlaces) && shownErrors == old(shownErrors)
      ensures response.Failed? ==>
        r == Err(RemovePlaceError) && userPlaces == snapshot && shownErrors == old(shownErrors) + [RemovePlaceError]
    {
      r := Settle(snapshot, response, RemovePlaceError);
    }

    /** An add with nothing else happening while the PUT is in flight. */
    method AddPlaceToUserPlaces<T>(place: Place, response: Response<T>) returns (r: Result<T>)
      modifies this
      ensures response.Delivered? ==>
        r == Ok(response.body) && userPlaces == AddIfAbsent(old(userPlaces), place)
        && shownErrors == old(shownErrors)
      ensures response.Failed? ==>
        r == Err(AddPlaceError) && userPlaces == old(userPlaces)
        && shownErrors == old(shownErrors) + [AddPlaceError]
    {
      var snapshot := BeginAdd(place);
      r := SettleAdd(snapshot, response);
    }

    /** A remove with nothing else happening while the DELETE is in flight. */
    method RemoveUserPlace<T>(place: Place, response: Response<T>) returns (r: Result<T>)
      modifies this
      ensures response.Delivered? ==>
        r == Ok(response.body) && userPlaces == RemoveById(old(userPlaces), place.id)
        && shownErrors == old(shownErrors)
      ensures response.Failed? ==>
        r == Err(RemovePlaceError) && userPlaces == old(userPlaces)
        && shownErrors == old(shownErrors) + [RemovePlaceError]
    {
      var snapshot := BeginRemove(place);
      r := SettleRemove(snapshot, response);
    }
  }

  /** The whole-snapshot race, first way round: an add is begun, a remove is
      begun and confirmed by the server, then the add fails. Its rollback
      restores the list from before both, so the confirmed removal is undone
      locally. */
  method FailedAddResurrectsConfirmedRemoval<T>(
    service: PlacesService, added: Place, removed: Place, confirmation: T, detail: string)
    returns (addResult: Result<T>, removeResult: Result<T>)
    modifies service
    ensures removeResult == Ok(confirmation) && addResult == Err(AddPlaceError)
    ensures service.userPlaces == old(service.userPlaces)
    ensures HasId(old(service.userPlaces), removed.id) ==> HasId(service.userPlaces, removed.id)
    ensures service.shownErrors == old(service.shownErrors) + [AddPlaceError]
  {
    var addSnapshot := service.BeginAdd(added);
    var removeSnapshot := service.BeginRemove(removed);
    removeResult := service.SettleRemove(removeSnapshot, Delivered(confirmation));
    addResult := service.SettleAdd(addSnapshot, Failed(detail));
  }

  /** The same race the other way round: a remove is begun, an add of a new
      place is begun and confirmed by the server, then the remove fails. Its
      rollback drops the confirmed addition from the local list. */
  method FailedRemoveLosesConfirmedAddition<T>(
    service: PlacesService, removed: Place, added: Place, confirmation: T, detail: string)
    returns (removeResult: Result<T>, addResult: Result<T>)
    requires !HasId(service.userPlaces, added.id)
    modifies service
    ensures addResult == Ok(confirmation) && removeResult == Err(RemovePlaceError)
    ensures service.userPlaces == old(service.userPlaces)
    ensures !HasId(service.userPlaces, added.id)
    ensures service.shownErrors == old(service.shownErrors) + [RemovePlaceError]
  {
    var removeSnapshot := service.BeginRemove(removed);
    var addSnapshot := service.BeginAdd(added);
    addResult := service.SettleAdd(addSnapshot, Delivered(confirmation));
    removeResult := service.SettleRemove(removeSnapshot, Failed(detail));
  }
}
