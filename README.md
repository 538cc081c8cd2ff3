# On Repeat Forever: a Dafny model of the playlist sync

The program keeps a Spotify playlist named "On Repeat Forever" that holds every
track that has ever appeared among the user's top tracks. Each run does three things:

- It reads the user's playlists and creates the playlist if no playlist has that name.
- It adds the current medium-term top tracks that are not yet on the playlist.
- It reads the playlist again and reports which of those tracks made it.

The model covers the three parts of `src/main.py` this behaviour rests on:

- **`Pagination`** models the `get_all` decorator (lines 12-32).
  - It turns a limit/offset page fetch into one that returns every item.
  - The remote collection is a value `Source(items, defaultLimit)`.
  - Each call of the wrapped function is a `Request` holding exactly the `offset` and `limit` keyword arguments it was given.
  - `Serve` is the page the service answers with.
  - The method `GetAll` runs the wrapper's loop.
  - The function `Requests` describes the calls that loop issues.
  - The lemmas prove:
    - completeness and order of the result;
    - where the loop stops;
    - the offsets it asks for;
    - how many calls it makes.
- **`Playlists`** models the create-if-absent decision (lines 84-92) and the one-element unpacking `playlist_id, = [...]` (lines 110 and 140).
  - The unpacking is a `Result` that fails with `NotEnoughValues` or `TooManyValues`, as Python's unpacking does.
- **`Reconcile`** models the sync block (lines 142-170).
  - The remote playlist is a class whose `tracks` the add call changes in place.
  - The service may silently drop some tracks from an add call. This is the `rejected` set, and it stands for the partial failure the re-read at line 166 is there to detect.
  - `Sync` runs the block and is proved against the specification functions `TracksToAdd`, `Applied` and `Verify`. The lemmas state what the report means.

`Wrappers` holds `Option`, which models a keyword argument the caller may leave out, and `Result`.

## Model

| member | source | states |
|---|---|---|
| Pagination.Serve | src/main.py:16-18 | The page the service answers with reports the window it served: the request's offset, or 0, and the request's limit, or the service's default page size. `ServeWindow` proves the page holds at most `limit` items, is the window at its offset when full, and runs to the end when short |
| Pagination.EffectiveLimit | src/main.py:17 | The loop's page size is the caller's `limit` when given, otherwise the limit the first page reports, which is the service's default |
| Pagination.EffectiveOffset | src/main.py:18 | The loop's start offset is the caller's `offset` when given, otherwise the offset the first page reports, which is 0 |
| Pagination.Requests | src/main.py:16-27 | The first call carries the caller's own `offset` and `limit` arguments unchanged, and at least one call is always made |
| Pagination.GetAll | src/main.py:14-30 | The calls the wrapper issues are exactly `Requests`. The result is the items of the served pages, concatenated in call order. When the caller's limit, if given, equals the service's default page size, the result is every item from the start offset to the end, in API order |
| Pagination.FlattenComplete | src/main.py:16-30 | When the caller's limit, if given, equals the default page size, the pages fetched concatenate to exactly the collection from the start offset onward: nothing lost, nothing repeated, order kept |
| Pagination.StopsAtFirstShortPage | src/main.py:23-28 | Every page fetched except the last holds at least `limit` items, and the last holds fewer. The loop ends at the first short page and not before |
| Pagination.RequestOffsets | src/main.py:25-27 | The i-th later call asks for offset `start + i * limit` and names no limit of its own |
| Pagination.ShortFirstPage | src/main.py:16-23 | A first page shorter than the limit, including an empty one, is the only call, and its items are the whole result |
| Pagination.FetchCount | src/main.py:16-27 | For N items, page size L and start offset O <= N, the wrapper calls the service (N - O) / L + 1 times. A start past the end costs one call |
| Pagination.LastPageEmptyIffExactMultiple | src/main.py:23-28 | The last page fetched is empty exactly when N - O is a multiple of the page size. That is the one extra call that returns nothing |
| Pagination.DroppedLimitLosesItems | src/main.py:17-27 | As written, with four items, a default page size of 1 and `limit=2`, the wrapper returns [1, 2, 3] and not the whole collection |
| Pagination.DroppedLimitRepeatsItems | src/main.py:17-27 | As written, with three items, a default page size of 3 and `limit=1`, the wrapper returns [1, 2, 3, 3]: later pages overlap and items come back twice |
| Pagination.RequestsResending | src/main.py:17-27 | The corrected calls start with the caller's own arguments, as the written ones do |
| Pagination.FlattenResendingComplete | src/main.py:17-27 | When the later calls pass `limit` again, the result is every item from the start offset, whatever the service's default page size |
| Playlists.Names | src/main.py:86 | The names list has one entry per playlist, each the name of the playlist at the same position |
| Playlists.NeedsCreation | src/main.py:92 | The playlist is created exactly when no entry of the listing has the name |
| Playlists.IdsNamed | src/main.py:110 | Every id the comprehension yields belongs to an entry with the name, and there are no more ids than entries. `IdsNamedEmptyIff` gives when the list is empty |
| Playlists.LookupId | src/main.py:140 | A successful unpacking yields the id of an entry with the name. `LookupOkIffUnique` and `LookupTooManyIffShared` give exactly when it succeeds and how it fails |
| Playlists.TargetPlaylist | src/main.py:92-140 | The id comes from the re-read listing when the playlist was created, otherwise from the first listing, and belongs to an entry with the name. When the name was already listed, the lookup never fails with "not enough values" |
| Playlists.IdsNamedEmptyIff | src/main.py:86-92 | The ids filtered by name are empty exactly when no playlist has the name, which is exactly when the playlist is created |
| Playlists.LookupOkIffUnique | src/main.py:110 | The unpacking yields `id` exactly when one playlist, and one only, has the name and that playlist's id is `id` |
| Playlists.LookupTooManyIffShared | src/main.py:140 | The unpacking fails with "too many values" exactly when two different playlists share the name |
| Playlists.ExistingNameFailsOnlyWhenShared | src/main.py:138-140 | On the branch where the name is already listed, the unpacking never fails with "not enough values" |
| Playlists.CreatedPlaylistIsTarget | src/main.py:92-110 | When no playlist has the name and the re-read listing holds the new playlist at any position, the sync works on the new playlist's id |
| Reconcile.TracksToAdd | src/main.py:155 | A track is to be added exactly when it is among the top tracks and not on the playlist |
| Reconcile.ListOf | src/main.py:156 | The list holds every track of the set exactly once, with no other track |
| Reconcile.RemotePlaylist.Add | src/main.py:161 | The kept tracks of the call are inserted at `position`. The tracks before and after that position are unchanged. The call is recorded in `addCalls` |
| Reconcile.Kept | src/main.py:161 | The tracks the service keeps from an add call are tracks of the call that it does not reject, no more of them than the call has |
| Reconcile.KeptMembers | src/main.py:161 | After an add call, the playlist has gained exactly the tracks of the call that the service does not reject |
| Reconcile.Applied | src/main.py:160-161 | The playlist after the add holds exactly its old tracks plus the tracks to add that the service keeps. `AddKeepsExisting` proves the old tracks follow the new ones unchanged |
| Reconcile.AddIfAny | src/main.py:160-161 | No call is made and the playlist is unchanged when there is nothing to add. Otherwise exactly one call is made, at position 0 |
| Reconcile.ReadAll | src/main.py:145-150 | For any kind of item, so for the playlist listing of lines 85 and 108 as well, a read with the service's default page size and no offset, or offset 0, yields the whole remote list in order |
| Reconcile.Verify | src/main.py:169-170 | `added` and `unadded` are disjoint and together make up the tracks to add. `added` are those found on the re-read playlist and `unadded` those missing from it |
| Reconcile.Sync | src/main.py:142-170 | The tracks to add are the top tracks missing from the playlist, each once. The playlist becomes `Applied`, with at most one add call. The report is `Verify` of the re-read playlist. `added` are the tracks the service kept and `unadded` those it dropped. The top tracks still missing afterwards are exactly `unadded` |
| Reconcile.PartialAddReport | src/main.py:160-170 | When the tracks to add are not on the playlist, the report splits them into those the service kept and those it dropped |
| Reconcile.FullAddNothingUnadded | src/main.py:160-170 | When the service keeps every track, every track to add is reported added and none unadded |
| Reconcile.AddKeepsExisting | src/main.py:160-161 | The add never removes or reorders a track: the old playlist follows the new tracks unchanged |
| Reconcile.SecondRunRetriesUnadded | src/main.py:142-170 | A second run with the same top tracks tries to add exactly the tracks this run reported unadded. It adds nothing when every track was kept |
| Reconcile.SyncOutcome | src/main.py:155-170 | For a `toAdd` chosen as at line 155, `added` and `unadded` are the kept and the dropped tracks, and the second run retries exactly `unadded` |

## Left out

- Authentication and login (lines 47-77): OAuth, `input` and the user lookup are I/O. The user is implicit.
- `get_image_as_base64` (lines 6-10) and the cover upload (line 113) are network I/O with no effect on the track lists.
- The playlist creation call (lines 100-105): its only modelled effect is the re-read listing passed to `TargetPlaylist`.
- `initialize_playlist` (lines 42-43) is an empty stub that is never called.
- Printing (lines 99, 116, 128-136 and 173-192) is output only. Line 182 prints `len(tracks_to_add)` rather than the number of added tracks; that count is not modelled.
- The long-term seeding branch (lines 118-124) is a `get_all` read followed by an add at position 0. It is the same composition as `ReadAll` and `RemotePlaylist.Add` and is not modelled separately.
- The track and playlist records are modelled by their ids and names only. `PlaylistID` and `TrackID` (lines 34-40) are plain strings.
- Network errors, HTTP status errors, rate limiting and exceptions other than the unpacking's `ValueError` are left out.
- The service's own limits are left out: at most 100 tracks per add call, clamping of `limit` to a maximum, and playlist entries whose track is null.
- Pagination.GetAll: requires a positive page size. With `limit=0` the source loops forever, because no page is shorter than 0. The service rejects such a request anyway.
- Reconcile.ReadAll: assumes the client library's default page sizes for the top-tracks call (20) and the playlist-tracks call (100) equal the limits the sync passes. The client library is not part of this model.
- Playlists.TargetPlaylist: takes the listing and the re-read listing as parameters, assumed complete. `ReadAll` shows a read at the default page size is complete; that the playlists call's default is 50 is assumed and not modelled.
- Reconcile.ListOf: the order of `list(set)` is CPython's hash order. The model lets the method choose any order, and the contract holds for every order.
- `all_items += items` (line 28) extends the first page's list in place. Nothing else holds that list, so the model uses sequence concatenation.
- The top tracks' ranking order and `time_range` are not modelled beyond the sequence of ids the service returns.

## Findings

| source | as written | input that shows it | evidently intended | confidence | as-written member | corrected member |
|---|---|---|---|---|---|---|
| src/main.py:17-27 | `limit` is popped from the keyword arguments, so every call after the first names no limit. The service then serves its default page size while the loop compares against the caller's limit | four items, a service default page size of 1, `limit=2`: the pages are [1, 2] then [3]. [3] is shorter than 2, so the result is [1, 2, 3] and item 4 is lost. With a limit below the default the pages overlap instead: three items, default 3, `limit=1` give [1, 2, 3, 3] (`Pagination.DroppedLimitRepeatsItems`) | pass `limit=limit` on every later call, so that every page has the size the loop expects and the result is the whole collection | not executed; medium | Pagination.DroppedLimitLosesItems | Pagination.FlattenResendingComplete |

The sync's own reads pass the service's default page size as the limit. In that regime both versions fetch the same pages, and `Pagination.FlattenComplete` proves the written wrapper complete. `Reconcile.ReadAll` therefore uses `GetAll` as written.
