# vv1dash viewer and photo sync, modelled in Dafny

The repository has two halves. A small web page (dash/app.js) shows one
trail-camera photo per day with a slider, previous/next buttons and an
autoplay that steps through the days on a timer. A .NET service
(Vv1.DashSync/PhotoSyncService.cs) logs in, lists the camera's photos, keeps
those taken between 08:00 and 12:00, and downloads each under a
`yyyy-MM-dd` file name.

This project models both halves' logic and proves what they promise.

- `wrappers.dfy`: module `Wrappers`, an `Option` type that stands for the
  source's null references.
- `decimal.dfy`: module `Decimal`, decimal numerals. Zero-padded numerals
  read back as the number written; plain numerals of distinct numbers are
  distinct.
- `viewer.dfy`: module `Viewer`, the page's state as a value (`View`).
  - One transition function per event handler: load, slider input,
    previous/next, play, timer tick, pause, speed change.
  - The invariant `Inv` that every transition preserves.
  - Lemmas about whole autoplay runs (`AfterTicks`).
- `page.dfy`: module `ViewerPage`, class `Page`. It holds the same state the
  way the script holds it: module-level variables, DOM properties and the
  browser's table of live interval timers. Each method mirrors the
  script's statements and is proved to perform the matching `Viewer`
  transition.
- `photo_sync.dfy`: module `PhotoSync`, covering:
  - the time-of-day filter, as a loop proved equal to a filter function;
  - the token-expiry decision;
  - the per-photo file name and download;
  - the sync's decision flow.
  Outside results are parameters: stored credentials, login, listing,
  clock, `DateTime.TryParse`, the JWT reader and `Path.GetExtension`.

Modelling choices:

- The timer is an explicit `Tick` event and the slider value is an `int`.
- Playing means that `intervalId` is not null (a live timer exists).
- The wrap in `playSlideShow` (dash/app.js:90-92) is reproduced as written:
  - at the last index it resets only the slider to 0;
  - the photo and label keep showing the last image;
  - the first tick then moves to index 1.
  `Viewer.WrapSkipsFirstImage` proves the image at index 0 is never shown
  during that run. `Viewer.Inv` proves this wrap is the only way the slider
  and the shown image can disagree.
- Times of day are .NET ticks (100 ns), not seconds. `TimeOfDay` compares at
  tick precision, so a photo at 12:00:00.5 falls outside the window.
- The expiry check compares `UtcNow` in ticks with the `exp` second.
  `PhotoSync.ExpiredIffSecondReached` proves this equals comparing whole
  seconds.
- `DateTimeOffset.FromUnixTimeSeconds` throws for an `exp` outside
  -62135596800..253402300799 (years 0001 to 9999). Such a token makes
  `IsTokenExpired` throw, and the sync ends through its catch.
- `JwtSecurityTokenHandler.ReadToken` throws on a token that is not in compact
  JWT form. So an unreadable token does not count as expired: its exception
  ends the sync through the catch in `SyncPhotos`. `ReadToken(string)` of
  this handler returns a `JwtSecurityToken` or throws, so the null branch
  (PhotoSyncService.cs:66) is dead code. `NotJwt` keeps that branch for
  generality: such a token would count as expired.
- `Path.GetExtension` returns null only for a null id and "" for an id
  without an extension. So the ".jpg" fallback applies only when `PhotoId` is
  null. A null id with an unparsable date gives the empty file name.
- The viewer has no progressive prefetch scheduler: no priority queue by
  distance to the requested image, no concurrency cap, no cancellation of
  stale fetches and no render coalescing. `prefetchImages`
  (dash/app.js:54-64) starts one load per image and waits for all of them.
  The model follows the code and has no scheduler.

## Model

| member | source | states |
|---|---|---|
| Viewer.Load | dash/app.js:9-18 | after load, maxIndex = length-1 and the slider max is maxIndex; slider and shown image are the last index; no timer runs; the invariant holds |
| Viewer.Scrub | dash/app.js:23-25 | slider input moves slider and shown image to the chosen value and keeps the invariant |
| ViewerPage.Page.UpdateImage | dash/app.js:66-75 | slider and shown index become `index`; the photo is the image at `index` ("undefined" outside the list); the label reads "index+1 of length"; timers untouched |
| Viewer.ChangeImage | dash/app.js:76-82 | moves slider and photo to slider+d exactly when 0 <= slider+d < length; otherwise the page is unchanged; keeps the invariant |
| Viewer.Play | dash/app.js:85-104 | starts the timer with the selected period and disables play; at maxIndex only the slider goes to 0 and the shown image stays; elsewhere the position is unchanged; keeps the invariant |
| Viewer.Tick | dash/app.js:94-102 | before the last index a tick advances slider and photo by exactly 1 and the timer stays; at the last index nothing moves and the timer stops; keeps the invariant |
| Viewer.Pause | dash/app.js:41-45 | the timer stops, play is enabled, pause disabled, nothing moves; keeps the invariant |
| Viewer.ChangeSpeed | dash/app.js:48-52 | while paused only the selected speed changes; while playing the timer restarts with the new period as `playSlideShow` does; keeps the invariant |
| Viewer.ToggleButtons | dash/app.js:106-111 | play is disabled iff playing and pause iff not playing; nothing else changes |
| Viewer.AutoplayAdvances | dash/app.js:94-102 | from slider k < maxIndex, the j-th tick (j <= maxIndex-k) shows k+j and the timer is still live |
| Viewer.AutoplayStops | dash/app.js:94-102 | from any slider k in range, after maxIndex-k+1 ticks the timer is gone at the last index, and later ticks change nothing |
| Viewer.AutoplayStaysInRange | dash/app.js:94-102 | during autoplay the slider never leaves [0, length-1] and the invariant holds at every tick |
| Viewer.AutoplayAvoidsFirst | dash/app.js:94-96 | once slider and shown image are past index 0, autoplay never shows index 0 |
| Viewer.WrapSkipsFirstImage | dash/app.js:90-96 | play at the last index sets the slider to 0 but keeps the last image shown; the first tick shows index 1; index 0 is never shown in that run |
| Viewer.SpeedChangeWhilePaused | dash/app.js:48-52 | a speed change while paused starts no timer and moves nothing; the next play uses the new period |
| Viewer.LabelIdentifiesPosition | dash/app.js:73-74 | two different indexes never produce the same "i of n" label |
| ViewerPage.Page.Load | dash/app.js:9-18 | the loaded page is the `Viewer.Load` state and no timer is live |
| ViewerPage.Page.Scrub | dash/app.js:23-25 | the slider's input event performs `Viewer.Scrub` |
| ViewerPage.Page.ChangeImage | dash/app.js:76-82 | performs `Viewer.ChangeImage`; timers untouched |
| ViewerPage.Page.ToggleButtons | dash/app.js:106-111 | performs `Viewer.ToggleButtons`, writing only the two buttons' flags |
| ViewerPage.Page.Play | dash/app.js:85-104 | performs `Viewer.Play`; the old interval is cleared before the new one is set, so exactly one timer is live afterwards |
| ViewerPage.Page.Tick | dash/app.js:94-102 | a firing of the live timer performs `Viewer.Tick` and clears the timer at the last index |
| ViewerPage.Page.Pause | dash/app.js:41-45 | performs `Viewer.Pause`; no timer is live afterwards |
| ViewerPage.Page.ChangeSpeed | dash/app.js:48-52 | performs `Viewer.ChangeSpeed` |
| Decimal.NatToStringInjective | dash/app.js:73-74 | distinct numbers print as distinct numerals |
| Decimal.PaddedRoundTrip | Vv1.DashSync/PhotoSyncService.cs:191 | a zero-padded numeral reads back as the number written |
| PhotoSync.TimeOfDayOf | Vv1.DashSync/PhotoSyncService.cs:163-164 | a window bound's time of day is whole seconds within one day; it is the span less whole days and less the sub-second part, so within a day it is at most one second below the span |
| PhotoSync.TimeOfDayOfWholeSeconds | Vv1.DashSync/PhotoSyncService.cs:12-13 | a bound of whole seconds within a day, like 08:00:00 and 12:00:00, is its own time of day |
| PhotoSync.FilterPhotosByTime | Vv1.DashSync/PhotoSyncService.cs:161-179 | the loop's result equals `Filtered` over the listing with both bounds inclusive |
| PhotoSync.FilteredMembers | Vv1.DashSync/PhotoSyncService.cs:169-173 | a photo is kept iff it is listed, its date parses, and start <= time of day <= end |
| PhotoSync.UnparsableDropped | Vv1.DashSync/PhotoSyncService.cs:169 | a photo whose date does not parse is never kept |
| PhotoSync.FilteredCounts | Vv1.DashSync/PhotoSyncService.cs:166-178 | each photo occurs in the result as often as in the listing when kept, and never otherwise |
| PhotoSync.FilteredIsSubsequence | Vv1.DashSync/PhotoSyncService.cs:166-178 | the result is a subsequence of the listing: the listing's order is kept |
| PhotoSync.IsTokenExpired | Vv1.DashSync/PhotoSyncService.cs:59-73 | not expired iff the token is present, reads as a JWT with an `exp` that `DateTimeOffset` can hold, and now < exp; throws iff the token is unreadable or its `exp` is out of that range; missing token, non-JWT or missing `exp` count as expired |
| PhotoSync.ExpiredIffSecondReached | Vv1.DashSync/PhotoSyncService.cs:71-72 | with `exp` present and in range, expired iff the current whole second >= exp, so the exp second itself already counts as expired; out of range it throws |
| PhotoSync.FormatDate | Vv1.DashSync/PhotoSyncService.cs:191 | the date is ten characters: four digits, '-', two digits, '-', two digits |
| PhotoSync.FormatDateRoundTrip | Vv1.DashSync/PhotoSyncService.cs:191 | the `yyyy-MM-dd` text reads back as the parsed year, month and day |
| PhotoSync.FileName | Vv1.DashSync/PhotoSyncService.cs:188-192 | when the date parses, the first ten characters are its `yyyy-MM-dd` and the rest is the extension (".jpg" only for a null id); otherwise the name is the bare id |
| PhotoSync.DownloadsFromPhotos | Vv1.DashSync/PhotoSyncService.cs:185-195 | a download is produced iff some photo with a URL yields it |
| PhotoSync.PhotoDownload | Vv1.DashSync/PhotoSyncService.cs:187-194 | a photo yields a download iff its URL is non-null, and then it is that URL under the photo's `FileName` |
| PhotoSync.Downloads | Vv1.DashSync/PhotoSyncService.cs:181-196 | exactly one download per photo with a non-null URL |
| PhotoSync.DownloadsCounts | Vv1.DashSync/PhotoSyncService.cs:185-195 | each download occurs in the result exactly as many times as listed photos yield it, since the per-photo body runs once per photo |
| PhotoSync.SyncPhotos | Vv1.DashSync/PhotoSyncService.cs:19-43 | login iff stored credentials absent or expired; a login result saved iff non-null; for each outcome of the credentials in force (`AuthInForce`): an exception ends it `Failed` with no listing, null credentials `NoAuth`, a null token `NoAccessToken`; otherwise it lists with that token and ends `Failed` if the listing throws, `NoPhotos` on a null listing, else with the downloads of the listing filtered to 08:00:00-12:00:00; `Failed` iff some step threw |
| PhotoSync.ValidStoredAuthReused | Vv1.DashSync/PhotoSyncService.cs:19-32 | stored credentials with an unexpired, representable token are used for the listing without a login or a save |
| PhotoSync.UnrepresentableExpirationEndsSync | Vv1.DashSync/PhotoSyncService.cs:17-42 | a stored token whose `exp` is outside `DateTimeOffset`'s range ends the sync `Failed`, before any login, save or listing |

## Left out

- Prefetching (dash/app.js:54-64): this is asynchronous network work, so it is not modelled.
- Loading the index file, and its failure (dash/app.js:6-20): this is network I/O, so it is not modelled.
  - The model starts from the state after a successful load.
  - Handler events that arrive before the load completes are not modelled.
- DOM lookups, listener registration and real timer periods: these are browser plumbing, so they are not modelled.
  - A tick is a discrete event.
  - The period is recorded but not interpreted.
- The range input's own clamping and JavaScript's loose comparisons on `slider.value`: browser and language coercion are not modelled.
  - The slider is an `int`.
  - Slider input is assumed to stay within [0, max].
  - The speed selector's `parseInt` is assumed to yield an integer.
- Login (Vv1.DashSync/PhotoSyncService.cs:77-133), the listing request (135-159) and JSON (de)serialization: these are network and foreign-library calls.
  - They become oracle results in `Env`.
  - Each may instead throw.
- The auth file (Vv1.DashSync/PhotoSyncService.cs:45-57) and `DownloadPhoto` (198-217), with its exists-check and failure logging: these are file and network I/O.
  - A sync ends in the list of downloads it would issue.
  - A failed save is not modelled.
- `Parallel.ForEachAsync` (Vv1.DashSync/PhotoSyncService.cs:185): the downloads are listed in input order, but the source issues them concurrently in no fixed order.
  - Two photos of the same day get the same file name.
  - Which of them ends up on disk depends on that concurrency and on the exists-check, so it is not modelled.
- Exceptions thrown by downloads inside `GetPhotos` are not modelled.
- Null entries in the listing: `seq<Photo>` cannot hold one, and the source would throw a `NullReferenceException` at Vv1.DashSync/PhotoSyncService.cs:169.
- Culture: the `yyyy-MM-dd` file name assumes a Gregorian-calendar current culture. Under a culture with another calendar (th-TH gives 2567 for 2024) .NET prints that calendar's year, which the model does not capture.
- Logging: `console.log` (dash/app.js:108) and `Console.WriteLine` (Vv1.DashSync/PhotoSyncService.cs:41, 120, 156, 204, 216) are output only, so they are not modelled.
- `DateTime.TryParse`, the UTC-to-local conversion of `AssumeUniversal`, `DateTime.Now`, `DateTimeOffset.UtcNow`, JWT decoding and `Path.GetExtension` are oracles.
  - `ParsedDate` bounds the day to 1..31, without month lengths.
- PhotoSync.FilterPhotosByTime: it requires non-negative window spans. The `DateTime` constructor throws on the negative components of a negative `TimeSpan`, and the only caller passes 08:00:00 and 12:00:00.
- Vv1.DashSync/Photo.cs is reduced to the three fields read here. Vv1.DashSync/WeatherRecord.cs (floating-point data) is not part of this model. Neither is Vv1.DashSync/Program.cs (argument and path handling).
