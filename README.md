# RideBuddy location sharing — a Dafny model

RideBuddy lets a rider broadcast their position to friends for a chosen
number of hours. This project models the part that decides what gets
published and what observers see:

- **`MainViewModel`** (`main_view_model.dfy`). It turns the user's choices into commands for the service. The duration is in hours. The interval is in minutes, where 0 means "Live" (10 000 ms). It builds START, STOP and UPDATE_INTERVAL. Kotlin's 32-bit `Int` and 64-bit `Long` arithmetic is written out (`kotlin_numbers.dfy`).
- **`LocationService`** (`location_service.dfy`, with its decisions as pure functions in `session.dfy`). It is a class with the service's fields: `userId`, `sharingExpiry`, `lastUploadedLocation` and the `locationCallback`. It also holds the location client's registrations and a log of the repository calls it launches.
  - Commands arrive through `OnStartCommand`.
  - Each delivered fix goes through the expiry check, then the 10 m movement throttle, then the publish.
- **`LocationRepository`** (`location_repository.dfy`). The `users` collection is a map from document id to record.
  - `updateUserLocation` replaces the whole document.
  - `updateSharingStatus` changes one field.
  - The `getActiveFriends` query keeps the records with `isSharing` true and `sharingExpiry > now`.
- **`User`** (`user_record.dfy`): the stored record and its default values.

Inputs the app takes from its environment are parameters:
- the clock: `now`;
- the distance between two fixes: `distanceTo`;
- the identity provider's answer: `Option<string>`, with `None` when sign-in throws;
- the client clock's timestamp that `updateUserLocation` stores as `lastUpdated`;
- the listing of the collection a snapshot delivers.

## Behaviour worth knowing

All paths below are under `android_project/app/src/main/java/com/example/ridebuddy/`.

- START does not clear `lastUploadedLocation` (`service/LocationService.kt:56-61`). This matters while the same service instance is alive, that is, before a terminal write's coroutine reaches `stopSelf()` (`service/LocationService.kt:148-149`). A START sent while sharing, or one that arrives before that point, has its first fix throttled against the previous session's last upload. A START after the instance is destroyed reaches a new instance, where `lastUploadedLocation` is null (`service/LocationService.kt:35`).
- `stopService` resets no field (`service/LocationService.kt:144-152`). While the same service instance is alive, before the terminal write's coroutine reaches `stopSelf()` (`service/LocationService.kt:148-149`), every STOP and every fix after expiry launches the terminal `isSharing=false` write again (`Session.ExpiredSamplesRepeatStop`, `Service.ExpiryScenario`). A STOP after the instance is destroyed reaches a new instance with a null `userId` (`service/LocationService.kt:33`), and that instance writes nothing (`service/LocationService.kt:145`).
- With no user id, `stopService` writes nothing (`service/LocationService.kt:145`).
- START takes the duration as computed by the view model, with no check on its sign (`ui/MainViewModel.kt:32`).
- A START with no expiry extra gets expiry 0 (`service/LocationService.kt:58`), so its first fix stops the session.
- UPDATE_INTERVAL re-registers the callback whatever the session fields hold (`service/LocationService.kt:66-69`), even when no START came first.
- Observers re-filter only when a snapshot arrives (`data/LocationRepository.kt:46-50`). Nothing re-filters between snapshots.
- `ui/MainViewModel.kt:34` multiplies `minutes * 60` in `Int`. Only the final `* 1000L` is done in `Long`.
  - The interval is exact only for `|minutes| ≤ 35 791 394`. One minute more gives a negative interval (`MainViewModel.IntervalWrapsPastMaxMinutes`).
  - `ui/MainViewModel.kt:32` does the whole expiry product in `Int`. It is exact only for `|hours| ≤ 596`. At 597 hours the session is born expired (`MainViewModel.ExpiryWrapsPastMaxHours`).
  - The selectors in `ui/MapScreen.kt:159-164` and `:179` offer only 0/3/5/10 minutes and 4/8/12/24 hours, far inside both bounds.

## Model

| member | source | states |
|---|---|---|
| `MainViewModel.IntervalMillis` | android_project/app/src/main/java/com/example/ridebuddy/ui/MainViewModel.kt:34 | 0 minutes gives 10 000 ms; otherwise the `Int` product `minutes*60` (wrapped) times 1000, which is exactly `minutes*60 000` whenever `|minutes| ≤ 35 791 394` |
| `MainViewModel.ExpiryMillis` | android_project/app/src/main/java/com/example/ridebuddy/ui/MainViewModel.kt:32 | the expiry is `now` plus the 32-bit-wrapped product `hours*3 600 000`, added in `Long`; exact for `|hours| ≤ 596` without `Long` overflow |
| `KotlinNumbers.Wrap32HourProduct` | android_project/app/src/main/java/com/example/ridebuddy/ui/MainViewModel.kt:32 | wrapping after each of `*60`, `*60`, `*1000` gives the same `Int` as wrapping `hours*3 600 000` once |
| `MainViewModel.ExpiryAfterNow` | android_project/app/src/main/java/com/example/ridebuddy/ui/MainViewModel.kt:32 | for 1..596 hours, the expiry is exactly `now + hours*3 600 000` and lies after `now` |
| `MainViewModel.ExpiryWrapsPastMaxHours` | android_project/app/src/main/java/com/example/ridebuddy/ui/MainViewModel.kt:32 | at 597 hours the product wraps, and the expiry is 2 145 767 296 ms before `now` |
| `MainViewModel.IntervalAtLeastLive` | android_project/app/src/main/java/com/example/ridebuddy/ui/MainViewModel.kt:34 | for 0 ≤ minutes ≤ 35 791 394 the interval is ≥ 10 000 ms, and equals it only for Live |
| `MainViewModel.IntervalWrapsPastMaxMinutes` | android_project/app/src/main/java/com/example/ridebuddy/ui/MainViewModel.kt:34 | at 35 791 395 minutes the `Int` product wraps and the interval is negative |
| `MainViewModel.OnlyLiveIsHighAccuracy` | android_project/app/src/main/java/com/example/ridebuddy/ui/MainViewModel.kt:34 | for non-overflowing minutes ≥ 0, the service's request is high accuracy iff the option is Live |
| `MainViewModel.StartSharing` | android_project/app/src/main/java/com/example/ridebuddy/ui/MainViewModel.kt:28-47 | a START command is produced iff the user id was obtained; it has action START and exactly the extras user id, expiry and interval |
| `MainViewModel.StartCarriesSession` | android_project/app/src/main/java/com/example/ridebuddy/ui/MainViewModel.kt:36-41 | reading the START extras gives back the user id, the computed expiry and the converted interval, whatever defaults the reader supplies |
| `MainViewModel.FailedSignInSendsNothing` | android_project/app/src/main/java/com/example/ridebuddy/ui/MainViewModel.kt:29-45 | when `getUserId` throws, no command is sent |
| `MainViewModel.StopSharing` | android_project/app/src/main/java/com/example/ridebuddy/ui/MainViewModel.kt:49-54 | STOP carries no extras |
| `MainViewModel.UpdateFrequency` | android_project/app/src/main/java/com/example/ridebuddy/ui/MainViewModel.kt:56-63 | UPDATE_INTERVAL carries only the interval extra |
| `MainViewModel.SameIntervalConversion` | android_project/app/src/main/java/com/example/ridebuddy/ui/MainViewModel.kt:57 | UPDATE_INTERVAL and START carry the same interval for the same minute count |
| `Session.BuildRequest` | android_project/app/src/main/java/com/example/ridebuddy/service/LocationService.kt:95-100 | the request is high accuracy iff the interval is ≤ 10 000 ms, otherwise balanced; interval and minimum update interval are both the given interval |
| `Session.ShouldUpload` | android_project/app/src/main/java/com/example/ridebuddy/service/LocationService.kt:111-113 | a fix passes the throttle iff nothing was uploaded yet or its distance to the last uploaded fix is at least 10 m |
| `Session.StopWrites` | android_project/app/src/main/java/com/example/ridebuddy/service/LocationService.kt:144-152 | stopping launches one write with a user id and none without, and that write is `updateSharingStatus(uid, false)` |
| `Session.UploadWrites` | android_project/app/src/main/java/com/example/ridebuddy/service/LocationService.kt:117-127 | a publish launches one write with a user id and none without: `updateUserLocation` for that user with the fix's coordinates, `isSharing` true and the session's expiry |
| `Session.OnSample` | android_project/app/src/main/java/com/example/ridebuddy/service/LocationService.kt:103-130 | a sample never changes the user id or the expiry; it stops the session iff `now > sharingExpiry` |
| `Session.ExpiredSampleStops` | android_project/app/src/main/java/com/example/ridebuddy/service/LocationService.kt:106-109 | an expired sample publishes no location, keeps `lastUploadedLocation` and issues exactly the stop writes |
| `Session.ExpiryIsStrict` | android_project/app/src/main/java/com/example/ridebuddy/service/LocationService.kt:106 | a sample at exactly the expiry is not stopped |
| `Session.FirstSampleUploads` | android_project/app/src/main/java/com/example/ridebuddy/service/LocationService.kt:111-113 | with no previous upload, an unexpired sample is always accepted |
| `Session.ThrottleAgainstLastUpload` | android_project/app/src/main/java/com/example/ridebuddy/service/LocationService.kt:111-116 | otherwise a sample is accepted iff its distance to the last uploaded fix is ≥ 10 m; a rejected sample changes nothing |
| `Session.UploadedSampleWrites` | android_project/app/src/main/java/com/example/ridebuddy/service/LocationService.kt:115-127 | an accepted sample becomes the reference; with a user id it launches exactly one write `(uid, lat, lng, true, sharingExpiry)`, without one none |
| `Session.SamplesNeverRenewSession` | android_project/app/src/main/java/com/example/ridebuddy/service/LocationService.kt:115-127 | over any stream of samples, the user id and expiry are never changed, and every write belongs to the session: its user, and either `isSharing` true with the original expiry or the terminal false |
| `Session.ExpiredSamplesRepeatStop` | android_project/app/src/main/java/com/example/ridebuddy/service/LocationService.kt:104-109 | once expired, n further samples leave the state alone and issue the terminal write n times |
| `Service.LocationService.constructor` | android_project/app/src/main/java/com/example/ridebuddy/service/LocationService.kt:33-35 | a new service has no user id, expiry 0, no uploaded location and no callback |
| `Service.LocationService.AtMostOneCallback` | android_project/app/src/main/java/com/example/ridebuddy/service/LocationService.kt:89-93 | at most one callback is ever registered with the location client |
| `Service.LocationService.OnStartCommand` | android_project/app/src/main/java/com/example/ridebuddy/service/LocationService.kt:54-72 | START sets user id and expiry from the extras (expiry default 0), keeps `lastUploadedLocation` and restarts updates at the carried interval (default 10 000 ms); STOP runs the stop writes and resets nothing; UPDATE_INTERVAL restarts updates and keeps all session fields; anything else changes nothing |
| `Service.LocationService.StartLocationUpdates` | android_project/app/src/main/java/com/example/ridebuddy/service/LocationService.kt:89-142 | the previous callback is removed, then a new one is registered with the request for the interval, and it alone is registered; session fields and writes are untouched |
| `Service.LocationService.OnLocationResult` | android_project/app/src/main/java/com/example/ridebuddy/service/LocationService.kt:103-130 | a result without a location does nothing; otherwise the new fields and the launched writes are exactly those `Session.OnSample` gives |
| `Service.LocationService.StopService` | android_project/app/src/main/java/com/example/ridebuddy/service/LocationService.kt:144-152 | appends the stop writes and changes no other field |
| `Service.ThrottleScenario` | android_project/app/src/test/java/com/example/ridebuddy/service/LocationServiceTest.kt:52-89 | fixes at 0 m, 2 m and 15 m from the first give exactly two uploads, the first and the third |
| `Service.ExpiryScenario` | android_project/app/src/main/java/com/example/ridebuddy/service/LocationService.kt:106-109 | a fix after expiry uploads nothing and issues the terminal write; a later STOP issues it again |
| `Service.StartFromViewModel` | android_project/app/src/main/java/com/example/ridebuddy/service/LocationService.kt:56-61 | a view-model START makes the service hold that user id and expiry, with one callback registered for the converted interval |
| `Repository.PutLocation` | android_project/app/src/main/java/com/example/ridebuddy/data/LocationRepository.kt:16-33 | the document under `userId` becomes the given record, with `userId` equal to its key and the fresh timestamp; no other document changes |
| `Repository.PutLocationReplaces` | android_project/app/src/main/java/com/example/ridebuddy/data/LocationRepository.kt:31-32 | `set` replaces the whole document: what it writes does not depend on what was stored before |
| `Repository.SetSharing` | android_project/app/src/main/java/com/example/ridebuddy/data/LocationRepository.kt:35-39 | the update succeeds iff the document exists; only its `isSharing` changes, and no other document changes |
| `Repository.LocationRepository.UpdateUserLocation` | android_project/app/src/main/java/com/example/ridebuddy/data/LocationRepository.kt:16-33 | the collection becomes `PutLocation` of the old one |
| `Repository.LocationRepository.UpdateSharingStatus` | android_project/app/src/main/java/com/example/ridebuddy/data/LocationRepository.kt:35-39 | reports whether the document existed; the collection becomes `SetSharing` of the old one, or is unchanged |
| `Repository.SharingQuery` | android_project/app/src/main/java/com/example/ridebuddy/data/LocationRepository.kt:43-45 | keeps the records with `isSharing` true, each as many times as it occurs, in order, and no others |
| `Repository.UnexpiredFilter` | android_project/app/src/main/java/com/example/ridebuddy/data/LocationRepository.kt:46-50 | keeps the records with `sharingExpiry > now`, each as many times as it occurs, in order, and no others |
| `Repository.ActiveFriends` | android_project/app/src/main/java/com/example/ridebuddy/data/LocationRepository.kt:42-52 | one snapshot of `getActiveFriends`: a record is in the result iff it is in the snapshot with `isSharing` true and `sharingExpiry` strictly after `now` |
| `Repository.ActiveFilter` | android_project/app/src/main/java/com/example/ridebuddy/data/LocationRepository.kt:44-49 | one-pass reference filter: keeps the active records, each as many times as it occurs, in order, and no others |
| `Repository.ActiveFriendsIsActiveFilter` | android_project/app/src/main/java/com/example/ridebuddy/data/LocationRepository.kt:42-52 | the query followed by the client filter equals the one-pass filter. The result is exactly the snapshot's records with `isSharing` true and expiry strictly after `now`, in snapshot order, and the caller's own record is not dropped |
| `Repository.ActiveFriendsShrinkOverTime` | android_project/app/src/main/java/com/example/ridebuddy/data/LocationRepository.kt:47-49 | on the same snapshot, a later result is the earlier result filtered again (an in-order sub-list of it) |
| `Repository.ExcludedStaysExcluded` | android_project/app/src/main/java/com/example/ridebuddy/data/LocationRepository.kt:47-49 | with no writes in between, a record excluded at t is excluded at every later time |
| `Repository.StoredActiveFriends` | android_project/app/src/main/java/com/example/ridebuddy/data/LocationRepository.kt:43-50 | over a snapshot of a collection whose documents carry their own id as `userId`, the result is exactly the stored records that are active |
| `Repository.SharingOffHidesUser` | android_project/app/src/main/java/com/example/ridebuddy/data/LocationRepository.kt:36-44 | after `updateSharingStatus(uid, false)` no result contains `uid`, whatever its expiry |
| `Repository.PublishShowsUser` | android_project/app/src/main/java/com/example/ridebuddy/data/LocationRepository.kt:23-32 | a location write with `isSharing` true and a future expiry puts that record back in the result |
| `Repository.DefaultUserNeverActive` | android_project/app/src/main/java/com/example/ridebuddy/data/User.kt:5-12 | the defaults are `""`, 0.0, 0.0, no timestamp, not sharing, expiry 0; such a record is never active |

## Left out

- Android service lifecycle is not modelled:
  - the notification channel and `startForeground`;
  - `START_NOT_STICKY`;
  - `onDestroy`, which cancels the coroutine scope and removes the callback;
  - `stopForeground`/`stopSelf` after the terminal write.
  The model covers one service instance from creation until it is destroyed. It does not capture what follows the terminal write in the app: the instance is destroyed, its callback is removed, and uploads not yet run are cancelled. A later command then reaches a new instance with initial fields.
- The `SecurityException` that `requestLocationUpdates` may throw is swallowed in the app. In the model, registration always succeeds.
- Session.UploadWrites: the model takes `sharingExpiry` when the upload is launched. The app's coroutine reads the field when it runs (`LocationService.kt:124`), so a START in between would make it carry the new expiry. `Session.SamplesNeverRenewSession`'s "original expiry" relies on the launch-time reading.
- Coroutines are not modelled. Repository calls are recorded in launch order. Their completion order, their timing and their failures are not modelled.
- `Location.distanceTo` is float geodesy, so it is a parameter. Latitude and longitude are reals and never computed with.
- Floating point is not modelled. The 10 m threshold is compared as a real.
- The clock (`System.currentTimeMillis`, `Timestamp.now`) is a parameter.
- The identity provider (`AuthRepository.getUserId`) is not part of this model. Its answer, or its failure, is a parameter.
- Session.BuildRequest: the model treats `LocationRequest.Builder` as total. It registers a request for any interval, including a negative one. The platform's builder rejects a negative interval with an exception (`LocationService.kt:98-99`). That call is outside the `try`, so in the app the old callback is already removed and the exception escapes `onStartCommand`.
- Repository.ActiveFriends: the model treats `toObjects(User::class.java)` (`LocationRepository.kt:48`) as returning each stored document's fields unchanged. The platform's class mapper derives property names from Kotlin getters, and that naming can keep the stored `isSharing` field from reaching the objects. `Repository.StoredActiveFriends` and `Repository.PublishShowsUser` rely on the unchanged fields.
- Firestore internals are not modelled: the snapshot listener, the server-side execution of `whereEqualTo`, document order, `await`, and the `StateFlow` around the query.
  - A snapshot is given as a listing of the collection.
  - `update` on a missing document is modelled as a failed call that changes nothing. In the app, that exception escapes the launched coroutine.
- Exceptions thrown by `startForegroundService` inside `startSharing` are caught like the sign-in failure. The model covers only the sign-in failure.
- The UI (`MapScreen.kt`, `UserUiModel.kt`) is not part of this model.
