/**
 * The foreground location service: it reacts to START, STOP and
 * UPDATE_INTERVAL commands, keeps one location callback registered with
 * the platform's location client, and for each delivered location runs
 * the expiry check, the movement throttle and the publish. Repository
 * calls are launched without waiting; they are recorded in `writes` in the
 * order they are launched.
 */
module Service {
  import opened Wrappers
  import opened KotlinNumbers
  import opened Intents
  import opened Session
  import MainViewModel

  /** The `locationCallback` field: one registration, identified by `id`. */
  datatype Callback = Callback(id: nat, request: LocationRequest)

  /** The service's default interval when a command carries none. */
  const DefaultIntervalMillis: Long := 10000

  class LocationService {
    var userId: Option<string>
    var sharingExpiry: Long
    var lastUploadedLocation: Option<Location>
    /** `None` until the first `startLocationUpdates` (the `lateinit` field). */
    var locationCallback: Option<Callback>
    /** Callbacks the location client currently delivers to, with their requests. */
    var registered: map<nat, LocationRequest>
    /** Identity of the next callback object to be created. */
    var nextCallbackId: nat
    /** Repository calls launched so far. */
    var writes: seq<Write>

    /** At most one callback is registered, and it is the one in `locationCallback`. */
    ghost predicate Valid()
      reads this
    {
      && (locationCallback.Some? ==> locationCallback.value.id < nextCallbackId)
      && (registered == map[] ||
          (locationCallback.Some? && registered == map[locationCallback.value.id := locationCallback.value.request]))
    }

    function State(): SessionState
      reads this
    {
      SessionState(userId, sharingExpiry, lastUploadedLocation)
    }

    /** A freshly created service: the fields' initial values. */
    constructor ()
      ensures Valid()
      ensures State() == SessionState(None, 0, None)
      ensures locationCallback == None && registered == map[] && writes == []
    {
      userId := None;
      sharingExpiry := 0;
      lastUploadedLocation := None;
      locationCallback := None;
      registered := map[];
      nextCallbackId := 0;
      writes := [];
    }

    /** Valid state registers at most one callback. */
    lemma AtMostOneCallback()
      requires Valid()
      ensures |registered| <= 1
    {
    }

    /**
     * `onStartCommand`. START takes the user id and expiry from the extras
     * (absent expiry: 0) and restarts updates at the carried interval
     * (absent: 10 000 ms), leaving the last uploaded location alone; STOP
     * runs `stopService`; UPDATE_INTERVAL restarts updates and touches no
     * session field; anything else does nothing.
     */
    method OnStartCommand(intent: Option<Intent>)
      requires Valid()
      modifies this
      ensures Valid()
      ensures intent.Some? && intent.value.action == Some(ActionStart) ==>
                && State() == SessionState(GetStringExtra(intent.value, ExtraUserId),
                                           GetLongExtra(intent.value, ExtraExpiry, 0),
                                           old(lastUploadedLocation))
                && RestartedUpdates(GetLongExtra(intent.value, ExtraInterval, DefaultIntervalMillis))
                && writes == old(writes)
      ensures intent.Some? && intent.value.action == Some(ActionStop) ==>
                && State() == old(State())
                && locationCallback == old(locationCallback) && registered == old(registered)
                && nextCallbackId == old(nextCallbackId)
                && writes == old(writes) + StopWrites(userId)
      ensures intent.Some? && intent.value.action == Some(ActionUpdateInterval) ==>
                && State() == old(State())
                && RestartedUpdates(GetLongExtra(intent.value, ExtraInterval, DefaultIntervalMillis))
                && writes == old(writes)
      ensures intent.None? || intent.value.action !in {Some(ActionStart), Some(ActionStop), Some(ActionUpdateInterval)} ==>
                && State() == old(State())
                && locationCallback == old(locationCallback) && registered == old(registered)
                && nextCallbackId == old(nextCallbackId)
                && writes == old(writes)
    {
      if intent.Some? && intent.value.action == Some(ActionStart) {
        userId := GetStringExtra(intent.value, ExtraUserId);
        sharingExpiry := GetLongExtra(intent.value, ExtraExpiry, 0);
        var interval := GetLongExtra(intent.value, ExtraInterval, DefaultIntervalMillis);
        StartLocationUpdates(interval);
      } else if intent.Some? && intent.value.action == Some(ActionStop) {
        StopService();
      } else if intent.Some? && intent.value.action == Some(ActionUpdateInterval) {
        var interval := GetLongExtra(intent.value, ExtraInterval, DefaultIntervalMillis);
        StartLocationUpdates(interval);
      }
    }

    /**
     * What `startLocationUpdates(intervalMillis)` leaves behind, relative to
     * the state before it: a new callback object carrying the request for
     * that interval, and it alone registered; the previous callback, if
     * any, was removed first.
     */
    twostate predicate RestartedUpdates(intervalMillis: Long)
      reads this
    {
      && locationCallback == Some(Callback(old(nextCallbackId), BuildRequest(intervalMillis)))
      && registered == map[old(nextCallbackId) := BuildRequest(intervalMillis)]
      && nextCallbackId == old(nextCallbackId) + 1
      && (old(locationCallback).Some? ==> old(locationCallback).value.id !in registered)
    }

    /** `startLocationUpdates`: remove the old callback, build the request, register a new callback. */
    method StartLocationUpdates(intervalMillis: Long)
      requires Valid()
      modifies this
      ensures Valid()
      ensures State() == old(State()) && writes == old(writes)
      ensures RestartedUpdates(intervalMillis)
    {
      if locationCallback.Some? {
        registered := registered - {locationCallback.value.id};
      }
      assert registered == map[];
      var request := BuildRequest(intervalMillis);
      locationCallback := Some(Callback(nextCallbackId, request));
      nextCallbackId := nextCallbackId + 1;
      registered := registered[locationCallback.value.id := request];
    }

    /**
     * `onLocationResult`: a result without a location does nothing;
     * otherwise the sample goes through the expiry check, the throttle and
     * the publish, as `OnSample` describes.
     */
    method OnLocationResult(now: Long, lastLocation: Option<Location>, distanceTo: (Location, Location) -> real)
      requires Valid()
      modifies this`lastUploadedLocation, this`writes
      ensures Valid()
      ensures lastLocation.None? ==> State() == old(State()) && writes == old(writes)
      ensures lastLocation.Some? ==>
                var step := OnSample(old(State()), now, lastLocation.value, distanceTo);
                State() == step.state && writes == old(writes) + step.writes
    {
      if lastLocation.Some? {
        var location := lastLocation.value;
        if now > sharingExpiry {
          StopService();
          return;
        }
        var shouldUpdate := ShouldUpload(lastUploadedLocation, location, distanceTo);
        if shouldUpdate {
          lastUploadedLocation := Some(location);
          if userId.Some? {
            writes := writes + [UpdateUserLocation(userId.value, location.latitude, location.longitude, true, sharingExpiry)];
          }
        }
      }
    }

    /** `stopService`: launch the terminal write when a user id is set; no field is reset. */
    method StopService()
      modifies this`writes
      ensures writes == old(writes) + StopWrites(userId)
    {
      if userId.Some? {
        writes := writes + [UpdateSharingStatus(userId.value, false)];
      }
    }
  }

  /**
   * The throttling scenario: START, then a first fix at (10, 10), a second
   * 2 m from it and a third 15 m from the first. The first and third are
   * uploaded; the second is dropped and does not become the reference.
   */
  method ThrottleScenario() returns (log: seq<Write>)
    ensures log == [UpdateUserLocation("testUser", 10.0, 10.0, true, 1000),
                    UpdateUserLocation("testUser", 10.001, 10.001, true, 1000)]
  {
    var service := new LocationService();
    var start := Intent(Some(ActionStart), map[ExtraUserId := StringExtra("testUser"), ExtraExpiry := LongExtra(1000)]);
    service.OnStartCommand(Some(start));
    var loc1 := Location(10.0, 10.0);
    var loc2 := Location(10.00001, 10.00001);
    var loc3 := Location(10.001, 10.001);
    var distanceTo := (a: Location, b: Location) =>
      if a == loc2 && b == loc1 then 2.0
      else if a == loc3 && b == loc1 then 15.0
      else 0.0;
    service.OnLocationResult(0, Some(loc1), distanceTo);
    service.OnLocationResult(1, Some(loc2), distanceTo);
    service.OnLocationResult(2, Some(loc3), distanceTo);
    log := service.writes;
  }

  /**
   * The expiry scenario: a session expiring at 1 ms; a fix at 2 ms publishes
   * nothing and launches the terminal write, and a STOP afterwards launches
   * it again.
   */
  method ExpiryScenario() returns (log: seq<Write>, last: Option<Location>)
    ensures log == [UpdateSharingStatus("u1", false), UpdateSharingStatus("u1", false)]
    ensures last == None
  {
    var service := new LocationService();
    var start := Intent(Some(ActionStart), map[ExtraUserId := StringExtra("u1"), ExtraExpiry := LongExtra(1), ExtraInterval := LongExtra(10000)]);
    service.OnStartCommand(Some(start));
    service.OnLocationResult(2, Some(Location(10.0, 10.0)), (a: Location, b: Location) => 0.0);
    service.OnStartCommand(Some(Intent(Some(ActionStop), map[])));
    log := service.writes;
    last := service.lastUploadedLocation;
  }

  /**
   * A START built by the view model for a signed-in user, delivered to a
   * new service: the service holds that user id and the computed expiry,
   * remembers no upload, and has exactly one callback registered, with the
   * converted interval.
   */
  method StartFromViewModel(uid: string, now: Long, durationHours: Int, intervalMinutes: Int)
    returns (st: SessionState, requests: map<nat, LocationRequest>)
    ensures st == SessionState(Some(uid), MainViewModel.ExpiryMillis(now, durationHours), None)
    ensures |requests| == 1
    ensures requests.Values == {BuildRequest(MainViewModel.IntervalMillis(intervalMinutes))}
  {
    var service := new LocationService();
    var intent := MainViewModel.StartSharing(Some(uid), now, durationHours, intervalMinutes);
    MainViewModel.StartCarriesSession(uid, now, durationHours, intervalMinutes, 0, DefaultIntervalMillis);
    service.OnStartCommand(intent);
    st := service.State();
    requests := service.registered;
    service.AtMostOneCallback();
    assert service.locationCallback.value.id in requests;
  }
}
