# lastfm-playlists, modelled in Dafny

lastfm-playlists builds Spotify playlists from a user's Last.fm stations
("library", "mix", "recommended"). It pages through the station, looks each
track up with the Spotify search, and keeps the first hit of each track. It
stops once it has the requested number of tracks. Then it finds the user's
playlist by name, or creates it, and fills it with the hits.

This project models the logic of that pipeline and proves what it promises:

- `Cache` models `PersistentCache<T>` (src/cache.ts). It is a class whose fields
  are the key-to-entry `Map`, the Map's insertion order, the dirty flag and
  the last written size. `get` refreshes a timestamp. `set` inserts or
  overwrites an entry. `saveToFile` prunes and then writes. The prune deletes
  entries oldest first, re-measuring after each deletion, until the
  serialized size is within `maxSizeBytes` or the cache is empty. The sort it
  uses is modelled as a stable insertion sort on timestamps.
- `Retry` models `withRetry` (src/retry.ts): the option defaults, the
  bounded call loop, capped exponential backoff, `retry-after`, and
  rethrowing the last error.
- `Generator` models `PlaylistGenerator` (src/generator.ts).
  - `fetchTracks` is the page loop and the track loop over the `found` and
    `notFound` Sets.
  - `create` is find-by-name-or-create, then empty the playlist and add the
    tracks.
  - `Store` is the Spotify account these write to: an `Account` class holding
    the list of playlists.
- `LastFm` models `getPlaylist` (api/lastfm.ts): the `do ... while` page loop,
  the URL-keyed `Map`, and the final slice.
- `Legacy` models `createPlaylist` (index.ts), the older form of the pipeline:
  - option defaulting;
  - the URL-keyed collection loop over repeated station calls;
  - the playlist lookup loop;
  - create-if-missing, then replace.
- `Common` models `deepRemoveBy` (utils/common.ts) over a JSON datatype. This
  covers objects, arrays with holes, `null` and primitives.
- `Js` holds the JavaScript behaviour these modules share:
  - `undefined` as `Option`;
  - `slice(0, end)`, including a negative end;
  - `join`;
  - `Set` insertion order;
  - the pages of a paginated endpoint.

Several inputs become parameters:

- The clock (`Date.now()`) is the `now` argument.
- The serialized size of the cache is an abstract function `measure` of its
  contents.
- A Last.fm station is a finite sequence of pages. Every page past them is
  empty.
- The Spotify search is a function from the query to the URIs it finds, best
  first.
- The success of a disk write is a boolean argument.

Notes on behaviour, as the code has it:

- `fetchTracks` treats an absent `amount` as 0, so it fetches nothing.
- `fetchTracks` calls neither the cache nor `withRetry`.
- `create` calls `addItemsToPlaylist` even with an empty list.
- `getPlaylist` does not stop at an empty page.
- `withRetry` counts every call of `fn`, the first included, against
  `maxRetries`. The comment at src/retry.ts:7 calls it the maximum number
  of retry attempts, which would allow one call more.
- `createPlaylist` in index.ts sets `public` by default but never sends it,
  so a playlist it creates is public. `Legacy.CreatePlaylist` and
  `Legacy.Save` model this as written. The versions that send the flag are
  `Legacy.CreatePlaylistAsIntended` and `Legacy.SaveAsIntended` (see
  "## Findings").

## Model

| member | source | states |
|---|---|---|
| Js.SliceTo | api/lastfm.ts:52 | `slice(0, end)` is a prefix of its input. An absent end keeps everything, a non-negative end keeps `min(end, length)` elements, and a negative end drops that many from the back. |
| Js.Join | src/generator.ts:36-38 | `join` of no parts is empty and of one part is that part. Otherwise its length is the parts' total length plus one separator between each two, and it starts with the first part. |
| Js.AddNewFacts | src/generator.ts:54 | `Set.add(x)`: afterwards `x` is present, earlier members stay, nothing but `x` is added, and no element occurs twice. |
| Js.Dedup | src/generator.ts:69 | `Array.from` of a Set built from `s` has no repeats, holds every element of `s`, and holds nothing else. |
| Js.FeedIsPrefix | api/lastfm.ts:40-50 | The items of pages 1..m are a prefix of the items of pages 1..n when m <= n. |
| Js.FeedSplit | api/lastfm.ts:40-50 | The items of pages 1..n are those of pages 1..m followed by the rest. |
| Cache.Insert | src/cache.ts:163-165 | One insertion step of the sort adds exactly the new pair (multiset equality). |
| Cache.InsertKeepsSorted | src/cache.ts:163-165 | Inserting into a timestamp-sorted sequence keeps it sorted. |
| Cache.SortByTimestamp | src/cache.ts:163-165 | The sorted entries are a permutation of the input and ascend by timestamp. |
| Cache.InsertKeepsTies | src/cache.ts:163-165 | Inserting an entry keeps the relative order of the entries that share any one timestamp. |
| Cache.SortIsStable | src/cache.ts:163-165 | Entries with equal timestamps keep their Map order after the sort. |
| Cache.PairsOf | src/cache.ts:163 | Reference definition used by the sort lemmas: `Array.from(cache.entries())` has one `[key, entry]` pair per key of the iteration order, in that order. |
| Cache.Filtered | src/cache.ts:174 | After deletions, the Map order holds exactly the surviving keys and stays free of repeats. |
| Cache.FilteredKeepingAll | src/cache.ts:139 | When nothing is deleted, the Map order is unchanged. |
| Cache.FilteredRestriction | src/cache.ts:174 | Restricting the Map order to the keys of a smaller map gives a repeat-free order of exactly those keys. |
| Cache.FilteredTwice | src/cache.ts:172-199 | Deleting keys in two rounds leaves the same order as deleting them at once. |
| Cache.EvictCount | src/cache.ts:172-199 | The deletion walk ends at or after its start and at or before the last victim. |
| Cache.EvictCountIsFirstFit | src/cache.ts:172-199 | The walk deletes at least one entry when any is left. Every shorter walk leaves the size above the ceiling, and the walk ends within the ceiling unless it deleted every victim. |
| Cache.Evicted | src/cache.ts:172-199 | The walk only deletes. Survivors keep their value and timestamp, and the first victim is always deleted. |
| Cache.EvictedIsPrefix | src/cache.ts:172-199 | The walk from any position deletes exactly the victims up to the count `EvictCount` gives. |
| Cache.EvictedFromStart | src/cache.ts:172-199 | The whole walk deletes exactly a prefix of the oldest-first order. |
| Cache.Pruned | src/cache.ts:138-153 | Pruning only deletes entries, and changes nothing when the ceiling is not positive or is not exceeded. |
| Cache.Oldest | src/cache.ts:163-165 | Reference definition of the victims: the Map's entries, stably sorted by timestamp. |
| Cache.OldestCoversAll | src/cache.ts:163-165 | The oldest-first order lists every entry of the cache with its stored entry. |
| Cache.PruneFitsOrEmpties | src/cache.ts:172-206 | With a positive ceiling, after pruning the size is within the ceiling or the cache is empty. |
| Cache.RemovedPrefixIsOldest | src/cache.ts:163-174 | Any prefix of a timestamp-sorted victim list is at least as old as every entry outside it. |
| Cache.PruneEvictsOldestFirst | src/cache.ts:163-174 | Every entry the prune deletes has a timestamp no later than every entry it keeps. |
| Cache.PersistentCache.constructor | src/cache.ts:12-19 | A new cache is empty, clean and of size 0, with the given path, ceiling and size measure. |
| Cache.PersistentCache.Get | src/cache.ts:88-97 | A hit returns the stored value, sets only that entry's timestamp to `now`, and marks the cache dirty. A miss returns nothing and changes nothing. |
| Cache.PersistentCache.Set | src/cache.ts:102-108 | The entry becomes `{value, now}`, other keys are untouched, and the cache is dirty. A new key goes last in the Map order, so the size grows by one exactly when the key is new. |
| Cache.PersistentCache.Has | src/cache.ts:113-115 | True exactly when the key is present; changes nothing. |
| Cache.PersistentCache.Size | src/cache.ts:120-122 | The number of entries, equal to the length of the Map order; changes nothing. |
| Cache.PersistentCache.SaveToFile | src/cache.ts:55-83 | Does nothing without a path or when clean. Otherwise it prunes; a successful write clears `dirty` and records the new size, and a failed one leaves them. |
| Cache.PersistentCache.PruneIfNeeded | src/cache.ts:138-153 | The contents become `Pruned` of the old contents. The Map order keeps the survivors in their order, and `dirty` and the size are unchanged. |
| Cache.PersistentCache.Delete | src/cache.ts:174 | The key leaves the contents and the Map order. |
| Cache.PersistentCache.PruneCache | src/cache.ts:159-207 | A non-positive ceiling changes nothing. Otherwise the oldest-first deletion walk is applied, and the Map order keeps the survivors. |
| Cache.PersistentCache.EvictInOrder | src/cache.ts:172-199 | The `for` loop deletes victims in turn and stops right after the first deletion that brings the size within the ceiling. |
| Cache.SizeIsOrderLength | src/cache.ts:120-122 | A repeat-free key order listing exactly the keys of the map is as long as the map is large. |
| Retry.Merge | src/retry.ts:42 | Each given option wins. Each absent one takes its default: 5 attempts, 1000 ms, 60000 ms, factor 2, logging on. |
| Retry.MergeOfNothingIsDefaults | src/retry.ts:22-28 | With no options, the configuration is exactly `DEFAULT_RETRY_OPTIONS`. |
| Retry.MaxCalls | src/retry.ts:50-55 | One call when `maxRetries` <= 1, else exactly `maxRetries` calls: at least one, and never fewer than `maxRetries`. |
| Retry.Delay | src/retry.ts:57-65 | A wait is `retry-after` x 1000 when present, else the current backoff, capped at `maxBackoffMs`. |
| Retry.Backoff | src/retry.ts:79 | Reference definition of the backoff after n waits: `initialBackoffMs`, multiplied by the factor and capped at `maxBackoffMs` at each wait. |
| Retry.BackoffGrowsWithinCap | src/retry.ts:79 | With 0 <= initial <= max and a factor >= 1, the backoff stays between initial and max and never decreases. |
| Retry.BackoffDelayAtLeastInitial | src/retry.ts:58-65 | Without `retry-after`, every wait lies between the initial backoff and the cap. |
| Retry.WithRetry | src/retry.ts:38-82 | It calls `fn` between 1 and `MaxCalls` times, and every call before the last failed. It returns the value exactly when the last call succeeded. Giving up happens only after the last allowed call, and rethrows that call's error. There is exactly one wait between consecutive calls, each equal to `Delay`. |
| Store.FirstNamed | src/generator.ts:91-93 | The position of the first playlist with that name: no earlier playlist has it, and there is no result exactly when none has it. |
| Store.Without | src/generator.ts:105-107 | Removing items keeps exactly the tracks not listed and never adds any. Their order is kept, by `WithoutAppend`. |
| Store.WithoutAppend | src/generator.ts:105-107 | Removal distributes over concatenation, so the tracks that stay keep their order. |
| Store.WithoutItselfIsEmpty | src/generator.ts:100-107 | Removing every listed item of a playlist empties it. |
| Store.UpdateId | src/generator.ts:96-98 | Reference definition used by the `Account` methods: a call by playlist id changes the playlist with that id and no other. |
| Store.Visibility | src/generator.ts:110-113 | Reference definition of Spotify's default: a create request without `public` makes a public playlist. |
| Store.Account.constructor | src/generator.ts:78 | An account built from a listing with unique ids, all below the next id, satisfies `Valid`, which every `Account` method requires. |
| Store.Account.ChangeDescription | src/generator.ts:96-98 | Only the description of that playlist changes. |
| Store.Account.RemoveItems | src/generator.ts:105-107 | Only that playlist's tracks change, to those not listed. |
| Store.Account.AddItems | src/generator.ts:116 | The URIs are appended, in order, to that playlist's tracks. |
| Store.Account.ReplaceTracks | index.ts:76 | That playlist's tracks become exactly the URIs. |
| Store.Account.CreatePlaylist | src/generator.ts:110-113 | A new, empty playlist with a fresh id is appended. It is public unless the request says otherwise. |
| Generator.TrackKey | src/generator.ts:36-38 | Reference definition of the `notFound` key: the title, " - ", and the artist names joined with ", " (its layout is proved in `TrackKeyLayout`). |
| Generator.Query | src/generator.ts:44-49 | Reference definition of the search query: `track:<title>`, then one `artist:<name>` term per artist, separated by spaces. |
| Generator.Step | src/generator.ts:31-58 | Reference definition of one turn of the track loop. It changes nothing once `found` is full or the key is in `notFound`. Otherwise it adds the first search result to `found`, or the key to `notFound` when the search is empty. |
| Generator.Run | src/generator.ts:31-58 | Reference definition of the track loop over a sequence of tracks, from empty Sets. |
| Generator.StopsAfter | src/generator.ts:22-29 | Reference definition of the page loop's stopping rule. With a target <= 0 no page is fetched. Otherwise every page before the last fetched one is non-empty and leaves `found` short, and the last is empty or fills `found`. |
| Generator.PlaylistName | src/generator.ts:84 | Reference definition of the playlist name `${username}'s ${type}`. |
| Generator.Description | src/generator.ts:85 | Reference definition of the generated description, ending with the formatted date. |
| Generator.ArtistTerms | src/generator.ts:45-47 | Reference definition of the query terms: one `artist:<name>` term per artist, in order. |
| Generator.TrackKeyLayout | src/generator.ts:36-38 | The key is the title, " - ", and the artists joined with ", " (exact for one artist, by length in general). |
| Generator.QueryOneArtist | src/generator.ts:44-49 | For a one-artist track the query is `track:<title> artist:<artist>`. |
| Generator.RunFoundIsHits | src/generator.ts:31-57 | `found` is the distinct first hits of the searched tracks, in the order they were first found. |
| Generator.RunNotFoundIsMisses | src/generator.ts:40-57 | `notFound` is exactly the keys of searched tracks whose search came back empty. |
| Generator.RunFoundBounded | src/generator.ts:32-34 | `found` never exceeds `amount` (0 when absent or negative) and never repeats a URI. |
| Generator.RunSearchesAMissOnce | src/generator.ts:40-42 | Two searched tracks share a key only if the earlier one's search found something. |
| Generator.RunSearchesFromFeed | src/generator.ts:31-49 | Only tracks of the fetched pages are searched. |
| Generator.HitsAreFirstResults | src/generator.ts:51-54 | Every hit is the first result of the search for some searched track. |
| Generator.FoundAreFirstResults | src/generator.ts:44-54 | Every URI in `found` is the first result of a non-empty search for some fetched track. |
| Generator.RunSaturated | src/generator.ts:32-34 | Once `found` is full, further tracks change nothing: they are not searched. |
| Generator.RunGrows | src/generator.ts:53-54 | `found` never shrinks as more tracks are walked. |
| Generator.StopsAfterIsUnique | src/generator.ts:22-29 | Exactly one page count satisfies the stopping rule. |
| Generator.StopsNoEarlier | src/generator.ts:22-29 | Of two page counts that both satisfy the stopping rule, neither is smaller than the other. |
| Generator.StoppedLater | src/generator.ts:22-29 | Before the stop, every page was non-empty and left `found` short of `amount`. |
| Generator.FeedRunGrows | src/generator.ts:22-29 | More fetched pages never give fewer found URIs. |
| Generator.ResultFacts | src/generator.ts:69 | The returned list has no repeats and at most `amount` URIs, each the first hit of some fetched track. |
| Generator.FetchedNext | src/generator.ts:22-67 | Walking a non-empty page while short of the target keeps the page-loop invariant one page further on. |
| Generator.FetchedStart | src/generator.ts:19-22 | Before page 1 both Sets are empty. |
| Generator.FetchedStops | src/generator.ts:22-29 | Leaving the loop, at an empty page or at the target, satisfies the stopping rule with the Sets of the fetched pages. |
| Generator.FetchedStopsAtEmptyPage | src/generator.ts:27-29 | An empty page while short of the target ends the walk after that page. |
| Generator.FetchedStopsAtTarget | src/generator.ts:22 | Reaching the target ends the walk after the previous page. |
| Generator.ScanPage | src/generator.ts:31-66 | The track loop turns the Sets of the earlier tracks into those of the earlier tracks plus this page's. |
| Generator.FetchPage | src/generator.ts:23-66 | One turn of the page loop moves the invariant on by one page. |
| Generator.FetchTracks | src/generator.ts:14-70 | Pages 1, 2, ... are fetched until the first empty page or until `amount` URIs are found, and none when `amount` is absent or not positive. The result is `found` after those pages, sliced to `amount`. |
| Generator.Publish | src/generator.ts:91-116 | The first playlist with the name gets the new description and exactly `tracks`, and keeps its place, id and visibility. If none has the name, a public playlist with the name, description and `tracks` is appended under a fresh id. |
| Generator.Refill | src/generator.ts:95-116 | The reuse branch leaves that playlist with the new description and exactly `tracks`, whether or not it held tracks. |
| Generator.Create | src/generator.ts:72-117 | The tracks are what `fetchTracks` returns for this station: `found` after the pages up to the stopping page, sliced to `amount`. They are distinct and at most `amount`. The named playlist ends up with the generated description and exactly those tracks. It is the first playlist with that name or a newly appended public one. |
| LastFm.Collect | api/lastfm.ts:45-47 | Reference definition of the Map after `songs.set(song.url, song)` for each walked song in turn. |
| LastFm.ExitsAfter | api/lastfm.ts:40-50 | Reference definition of the `do ... while` exit after page n: n >= 1, the Map holds the target after page n, and it did not after page n - 1. |
| LastFm.Urls | api/lastfm.ts:36 | Reference definition used by `CollectUrls` and `UpsertUrls`: the Map's keys are the URLs of its values, in order. |
| LastFm.Upsert | api/lastfm.ts:46 | `songs.set` grows the Map by at most one entry. |
| LastFm.UpsertUrls | api/lastfm.ts:46 | `songs.set` changes the key order exactly as adding the URL to a `Set` would. |
| LastFm.UpsertValues | api/lastfm.ts:46 | `songs.set` leaves the other entries alone, and the entry for the URL becomes the new song, in the old position. |
| LastFm.CollectUrls | api/lastfm.ts:45-47 | The Map's keys are the walked URLs, each once, in order of first appearance. |
| LastFm.CollectKeepsLast | api/lastfm.ts:45-47 | Every value in the Map is the last song walked with its URL. |
| LastFm.CollectSize | api/lastfm.ts:36-47 | The keys are distinct and are exactly the walked URLs, and the Map never holds more songs than were walked. |
| LastFm.CollectGrows | api/lastfm.ts:45-47 | Walking more songs never shrinks the Map. |
| LastFm.CollectFeedGrows | api/lastfm.ts:40-50 | More pages never give a smaller Map. |
| LastFm.ExitsAtFirst | api/lastfm.ts:50 | The loop exits at the first page after which the Map holds `amount ?? 0` songs. |
| LastFm.ExitsAfterIsUnique | api/lastfm.ts:40-50 | The exit page is determined by the station and `amount`. |
| LastFm.OnePageWithoutAmount | api/lastfm.ts:50 | Without `amount`, exactly one page is fetched. |
| LastFm.ExactlyAmount | api/lastfm.ts:50-52 | With `amount >= 0`, the returned slice has exactly `amount` songs. |
| LastFm.FeedPastEnd | api/lastfm.ts:40-43 | Past the station's last page, no further song arrives. |
| LastFm.NeverExits | api/lastfm.ts:40-50 | Short of the target after the last page, the loop never exits. |
| LastFm.SetAll | api/lastfm.ts:45-47 | The `for` loop turns the Map of the earlier songs into the Map of the earlier songs plus this page's. |
| LastFm.GetPlaylist | api/lastfm.ts:31-53 | Page 1 always, then consecutive pages until the Map holds `amount ?? 0` songs, and it returns that Map sliced to `amount`. If the station runs dry first, the loop never ends, and that happens only with a positive `amount`. |
| Legacy.Defaulted | index.ts:20-22 | The name, description and `public` keep supplied values and default only absent ones, to the user's station name, the library description and `false`. |
| Legacy.Query | index.ts:37 | Reference definition of `track:<title> artist:<first artist>`, defined only for a song with an artist. |
| Legacy.Done | index.ts:33 | Reference definition of the inner loop's `break`: `amount` songs are kept, or the lookup threw. |
| Legacy.Consider | index.ts:33-47 | Reference definition of one turn of the inner loop. It breaks when done, continues on a kept URL, throws on a song without artists, and skips a miss. Otherwise it keeps the first hit. |
| Legacy.ConsiderAll | index.ts:32-53 | Reference definition of the inner loop over one response. |
| Legacy.Gathered | index.ts:29-54 | Reference definition of the collection after n station calls. |
| Legacy.EndsAfter | index.ts:29-54 | Reference definition of the outer loop's exit at call n: finished after call n and not after call n - 1. |
| Legacy.QueryUsesFirstArtist | index.ts:37 | Artists after the first do not affect the query. |
| Legacy.Keys | index.ts:34 | Reference definition used by `WellPicked`: the Map's keys are the kept songs' URLs, in order. |
| Legacy.Uris | index.ts:74 | Reference definition used by `CreatePlaylist`: one URI per kept song, in insertion order. |
| Legacy.KnownSongNotSearched | index.ts:34 | A song whose URL is already kept is skipped, whatever the search would return. |
| Legacy.MissIsSkipped | index.ts:42 | A song with no search hit is skipped and not recorded. |
| Legacy.ConsiderKeepsWellPicked | index.ts:32-53 | One turn of the loop keeps URLs distinct, the count at most `amount`, and each pick the first hit of its song. |
| Legacy.ConsiderAllKeepsWellPicked | index.ts:32-53 | So does the whole inner loop. |
| Legacy.GatheredWellPicked | index.ts:29-54 | So does every run of the outer loop. |
| Legacy.ConsiderAllDone | index.ts:33 | Once `amount` songs are kept or the lookup threw, the inner loop changes nothing. |
| Legacy.ConsiderAllStaysDone | index.ts:33 | Breaking out of the loop when it is done gives the same result as walking the rest of the response. |
| Legacy.DoneStaysDone | index.ts:29-54 | A finished collection is not changed by further station calls. |
| Legacy.EndsAtFirst | index.ts:54 | The outer loop ends at the first call after which the collection is finished. |
| Legacy.FilledToAmount | index.ts:33-54 | Ending without an error, exactly `max(0, amount)` songs are kept. |
| Legacy.Call | index.ts:30 | `getPlaylist(username, type)` returns the distinct songs of page 1 of that call's response. |
| Legacy.ConsiderSongs | index.ts:32-53 | The inner `for` loop, with its `break`, `continue` and throw, computes `ConsiderAll`. |
| Legacy.GatherSongs | index.ts:29-54 | The `do ... while` loop ends at the first call that finishes the collection, or when the responses run out. |
| Legacy.FindPlaylistId | index.ts:60-65 | The id found is that of the first playlist with the name, and there is none exactly when no playlist has it. |
| Legacy.DefaultPrivateCreatedPublic | index.ts:68-70 | With the defaults, `public` is false, but the request as written creates a public playlist. |
| Legacy.VisibilityAsAsked | index.ts:68-70 | Sending the defaulted flag creates a playlist with the visibility asked for. |
| Legacy.TryGather | index.ts:29-54 | The collection ends with a thrown lookup at the call that hit it, with the responses exhausted while unfinished, or finished at the first call that filled it, giving the URIs of the kept songs. |
| Legacy.Save | index.ts:58-76 | The first playlist with the name, or a newly created one, gets exactly the URIs, and nothing else changes. A new playlist is public whatever the settings say, as the request omits `public`. |
| Legacy.SaveAsIntended | index.ts:58-76 | As `Save`, but a new playlist has the visibility the settings ask for. |
| Legacy.SaveRequesting | index.ts:58-76 | Find-or-create-then-replace, where a new playlist gets the visibility the create request asks for (public when it says nothing). |
| Legacy.CreatePlaylist | index.ts:5-77 | On a thrown lookup or exhausted responses, the playlists are untouched. Otherwise the named playlist holds exactly the URIs of the kept songs, and the loop ended at the first call that filled it. A new playlist is public, as written. |
| Legacy.CreatePlaylistAsIntended | index.ts:5-77 | As `CreatePlaylist`, but a new playlist has the defaulted visibility, private unless `playlistOpts.public` says otherwise. |
| Common.Removed | utils/common.ts:9-24 | Reference definition of `deepRemoveBy` on a value. Objects and arrays are filtered entry by entry, and other values come back as they are. |
| Common.Kept | utils/common.ts:18-19 | Reference definition of a spared entry's new value: filtered when `typeof` gives "object" (null, arrays, objects), else unchanged. |
| Common.RemovedFields | utils/common.ts:15-21 | Reference definition of the `for ... in` loop over an object's fields. |
| Common.RemovedSlots | utils/common.ts:15-21 | Reference definition of the loop over an array's slots, where a deleted index becomes a hole. |
| Common.DeepRemoveBy | utils/common.ts:9-24 | The method computes `Removed` of its input. The input is a value and is never changed. |
| Common.FilterFields | utils/common.ts:15-21 | The `for ... in` loop over an object, deleting in place, gives `RemovedFields`. |
| Common.VisitField | utils/common.ts:16-19 | One key: deleted when the predicate accepts it, else an object value is replaced by its filtered copy. |
| Common.FilterSlots | utils/common.ts:15-21 | The loop over an array leaves holes where it deletes and gives `RemovedSlots`. |
| Common.VisitSlot | utils/common.ts:16-19 | One index: a deleted element becomes a hole, and a kept object element is filtered. |
| Common.RemovedSlotsAt | utils/common.ts:15-21 | An array keeps its length. Slot i is a hole exactly when it was one or the predicate accepted (i, value); otherwise it holds the filtered value. |
| Common.LookupRemoved | utils/common.ts:15-19 | A key is present in the result exactly when it was present and the predicate spared its value. Its value is then the filtered copy (objects) or the same value (primitives). |
| Common.RemovedFieldsFrom | utils/common.ts:15-21 | Every result field comes from a spared input field with its value filtered, and keys stay unique. |
| Common.RemovedIsPruned | utils/common.ts:15-21 | At every level, the result's keys are keys of the input whose entries the predicate did not match when visited. |
| Common.KeptIsPruned | utils/common.ts:18-19 | A kept value is pruned from the original at every level. |
| Common.SeesValueBeforeFiltering | utils/common.ts:16-19 | The predicate sees a value before it is filtered, so a kept entry can end up holding a value the predicate would match. |

## Left out

- Network, OAuth and the Spotify SDK are left out: src/spotify.ts, lib/spotify.ts, and the token files and callback server. The remote calls are parameters: the station pages, the station responses, the search function and the `Account` class.
- src/config.ts and src/index.ts are not part of this model. The latter calls generator methods that src/generator.ts does not define.
- The top-level code of index.ts (environment parsing, the job loop, `process.exit`) is left out.
- Console logging, `chalk` formatting, `padStart` and `formatSize` are left out.
- `loadFromFile` (`Bun.file`, JSON parsing, and its un-awaited call from the constructor) is left out as disk I/O. The constructor starts empty.
- `Bun.write` is the `writeOk` argument of `SaveToFile`. A successful write records `measure` of the contents as the new size.
- `getSerializedSize` is the abstract `measure`. JSON serialization and UTF-8 encoding are not modelled.
- `Date.now()` and `toLocaleString` are parameters: `now` as a number for the cache, and as the already formatted string for the description.
- `setTimeout` is not performed. `WithRetry` returns the waits it would make.
- Duck-typed `error.headers.get("retry-after")` and `parseInt` are reduced to an optional whole number of seconds. A header of "0" is `Some(0)`, a wait of 0. A header that `parseInt` turns into NaN is not modelled.
- Retry.Merge: an option present with the value `undefined` (`{maxRetries: undefined}`) overrides the default through the spread at src/retry.ts:42. The model treats it as absent. With `maxRetries` undefined the source's loop never gives up on a failing `fn`.
- Retry.Delay: a negative `retry-after` gives a negative recorded wait. `setTimeout` would wait 0 instead.
- Retry.BackoffGrowsWithinCap: only whole-number backoff factors are modelled. A fractional factor is floating point in the source.
- `getPlaylistItems` paging is not modelled: its items are taken to be the playlist's whole track list.
- Generator.Publish, Generator.Create, Legacy.Save and Legacy.CreatePlaylist search the whole playlist listing. `getUsersPlaylists` (src/generator.ts:78) and `getUserPlaylists` (index.ts:58) return only the first page of it, 20 playlists by default. When the matching playlist lies past that page, the source creates a duplicate, where the model reuses the existing one.
- Only the URL, title and artist names of a Last.fm song are modelled. Its duration, spelling id, play links and artist URLs are left out.
- A station is finite in the model. When `getPlaylist` would request empty pages forever, it returns `Endless`.
  - Legacy.CreatePlaylist: `createPlaylist` calls the station again and again. The model has a finite list of responses and ends with `OutOfResponses` when the source would keep calling. Its contract does not describe that case beyond the playlists being untouched.
- The Spotify search's `limit: 1` and `tracks?` are folded into the search function: an empty list is "no hit".
- `deepRemoveBy` works on values, so aliasing in the input and in-place mutation of shared sub-objects do not arise.
  - lodash `cloneDeep` turns the holes of a sparse array into `undefined` elements. The model keeps them as holes, which `for ... in` skips.
  - Key enumeration order (integer-like keys first) is not modelled. Each key is handled independently of the others, so the order does not change the result.
  - A top-level string, which `for ... in` would walk by index, is returned unchanged.
- A JavaScript `number` is modelled as an unbounded integer. Overflow past 2^53 is not modelled.

## Findings

| source | as written | input that shows it | evidently intended | confidence | as-written member | corrected member |
|---|---|---|---|---|---|---|
| index.ts:68-70 | `public` is defaulted to `false` (index.ts:22) but never sent with `createPlaylist`. Spotify's default then makes the new playlist public. | `playlistOpts = {}`: the settings say private, and the request creates a public playlist. | Pass `public: playlistOpts.public`, so the created playlist has the visibility the options ask for. | not executed | Legacy.DefaultPrivateCreatedPublic | Legacy.VisibilityAsAsked |
