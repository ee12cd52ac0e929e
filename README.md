# Places service: user-places store with optimistic updates

This project models `PlacesService` of an Angular front end. The service keeps the
list of places the user has chosen and loads the places on offer. It adds and
removes places optimistically: the local list changes at once, before the server
answers. If the server call fails, the list is set back to the snapshot taken
when the call began, a fixed message goes to the error reporter, and an error
carrying the same message is raised.

Two modules:

- `PlaceLists` (`place_lists.dfy`) holds the pure list logic. `HasId` tells
  whether some entry has a given id. `AddIfAbsent` appends a place at the end
  unless its id is already there. `RemoveById` keeps the entries whose id
  differs. The lemmas state order, round-trip, idempotence and uniqueness of
  ids.
- `Places` (`places_service.dfy`) holds the envelope unwrap `FetchPlaces` and the
  class `PlacesService`. The class has the list as a `seq<Place>` field and a
  ghost log of the messages shown to the user. Every HTTP call is replaced by a
  `Response` argument: `Delivered(body)` or `Failed(detail)`. Add and remove are
  split into a `Begin` step and a `Settle` step. The begin step applies the
  optimistic change and returns the snapshot. The settle step rolls back on
  failure. The two race methods at the end use this split to show that a
  failing settle discards whatever happened to the list in between.

## Model

| member | source | states |
|---|---|---|
| `PlaceLists.HasId` | src/app/places/places.service.ts:38 | true exactly when some entry of the list has the given id |
| `PlaceLists.AddIfAbsent` | src/app/places/places.service.ts:37-40 | the result always holds the id; all earlier entries stay in place and in order; it grows by one, with the place at the end, exactly when the id was absent, and is otherwise unchanged |
| `PlaceLists.RemoveById` | src/app/places/places.service.ts:63-66 | the result holds exactly the entries of the list whose id differs from the given one, so no entry with that id is left, and it is never longer |
| `PlaceLists.RemoveByIdAppend` | src/app/places/places.service.ts:65 | removal by id works piece by piece over a concatenation, so the kept entries keep their relative order |
| `PlaceLists.RemoveAbsent` | src/app/places/places.service.ts:63-66 | removing an id that no entry has leaves the list unchanged |
| `PlaceLists.RemovePresent` | src/app/places/places.service.ts:63-66 | in a list with unique ids, removing the id of entry k gives the list without entry k, the rest in order, one shorter |
| `PlaceLists.AddThenRemoveRestores` | src/app/places/places.service.ts:37-40 | adding a place whose id was absent and then removing that id gives back the original list exactly |
| `PlaceLists.AddIfAbsentIdempotent` | src/app/places/places.service.ts:37-40 | adding the same place twice is the same as adding it once |
| `PlaceLists.RemoveByIdIdempotent` | src/app/places/places.service.ts:63-66 | removing the same id twice is the same as removing it once |
| `PlaceLists.AddIfAbsentKeepsUnique` | src/app/places/places.service.ts:37-40 | if ids were unique before an add, they are unique after it |
| `PlaceLists.RemoveByIdKeepsUnique` | src/app/places/places.service.ts:63-66 | if ids were unique before a remove, they are unique after it |
| `Places.FetchPlaces` | src/app/places/places.service.ts:87-99 | succeeds exactly when the response was delivered, and then yields the envelope's `places` unchanged; any failure yields the operation's fixed message, whatever its detail |
| `Places.PlacesService.constructor` | src/app/places/places.service.ts:14 | the list starts empty and nothing has been shown |
| `Places.PlacesService.LoadedUserPlaces` | src/app/places/places.service.ts:16 | the current list, read without any change |
| `Places.PlacesService.LoadAvailablePlaces` | src/app/places/places.service.ts:18-23 | yields the envelope's places on success and exactly "Failed to load available places" on failure; it has no frame, so the user list cannot change |
| `Places.PlacesService.LoadUserPlaces` | src/app/places/places.service.ts:25-31 | on success the list becomes exactly the fetched places, in order; on failure the list is untouched and the error is exactly "Failed to load user places" |
| `Places.PlacesService.BeginAdd` | src/app/places/places.service.ts:35-40 | returns the list as it was, and the list becomes the append-if-absent of that snapshot; unique ids stay unique |
| `Places.PlacesService.BeginRemove` | src/app/places/places.service.ts:61-66 | returns the list as it was, and the list becomes that snapshot without the place's id; unique ids stay unique |
| `Places.PlacesService.Settle` | src/app/places/places.service.ts:47-54 | on success the list and the shown messages stay as they are and the payload is passed on; on failure the list becomes exactly the snapshot, and the one message is both appended to the shown messages and raised |
| `Places.PlacesService.SettleAdd` | src/app/places/places.service.ts:46-55 | the settle step of an add, with the message "Failed to add place to user places" |
| `Places.PlacesService.SettleRemove` | src/app/places/places.service.ts:71-83 | the settle step of a remove, with the message "Failed to remove place from user places" |
| `Places.PlacesService.AddPlaceToUserPlaces` | src/app/places/places.service.ts:33-57 | with nothing in between, a confirmed add leaves the append-if-absent list; a failed add restores the list exactly, shows "Failed to add place to user places" once and raises it |
| `Places.PlacesService.RemoveUserPlace` | src/app/places/places.service.ts:59-85 | with nothing in between, a confirmed remove leaves the list without the id; a failed remove restores the list exactly, shows "Failed to remove place from user places" once and raises it |
| `Places.FailedAddResurrectsConfirmedRemoval` | src/app/places/places.service.ts:35-49 | add begun, remove begun and confirmed, add fails: the list returns to its state before both, so the confirmed removal is undone locally |
| `Places.FailedRemoveLosesConfirmedAddition` | src/app/places/places.service.ts:61-74 | remove begun, add of a new place begun and confirmed, remove fails: the list returns to its state before both, so the confirmed addition is lost locally |

A remove drops every entry with the id, as the `filter` at
src/app/places/places.service.ts:65 does, not only the first one. When ids are
unique this is the same as dropping the single entry, as `RemovePresent` shows.

Uniqueness of ids is not an invariant of the class. `loadUserPlaces` stores
whatever the server sends, without checking it. So the model proves that add
and remove preserve uniqueness, as lemmas and in the contracts of `BeginAdd` and
`BeginRemove`, and does not require it of the list.

## Left out

- The HTTP client, the URLs and the PUT/DELETE/GET transport: each remote call is a `Response` argument, since the wire I/O is outside the program.
- The rxjs pipeline (`pipe`, `map`, `tap`, `catchError`, `throwError`) and subscription lifetimes: the asynchronous interleaving is modelled only through the explicit begin and settle steps; unsubscribing, which does not undo an optimistic change, is not modelled.
- `console.error` logging: a diagnostic side channel with no effect on state; the failure detail it would log is dropped.
- `ErrorService.showError`: its implementation is not part of this model; the messages passed to it are recorded in the ghost field `shownErrors`.
- Angular `signal`, `inject` and `@Injectable`: the signal is a plain field, and `loadedUserPlaces` is the getter `LoadedUserPlaces`.
- src/app/places/available-places/available-places.component.ts: UI glue that copies subscription results into signals; it holds no logic of its own.
- Place fields other than `id`: they are an abstract type `Details`, passed through unchanged and never inspected.
- Delivered bodies that are not a `{ places: [...] }` envelope: in the source, an object without `places` yields a successful `undefined`, which `loadUserPlaces` would store, and a null body fails inside `map` and gets the fixed message; the model only has well-formed envelopes and failures.
