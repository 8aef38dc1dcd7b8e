/**
 * The decisions the location service makes, as pure functions: which
 * location request an interval produces, whether a sample is far enough
 * from the last uploaded one, and what one delivered sample does to the
 * service's three session fields and to the log of repository writes.
 */
module Session {
  import opened Wrappers
  import opened KotlinNumbers

  /** A position fix; its coordinates are carried, never interpreted. */
  datatype Location = Location(latitude: real, longitude: real)

  /** A repository call the service launches, in launch order. */
  datatype Write =
    | UpdateUserLocation(userId: string, latitude: real, longitude: real, isSharing: bool, expiry: Long)
    | UpdateSharingStatus(userId: string, isSharing: bool)

  /** A sample closer than this to the last uploaded one is dropped. */
  const MinUploadDistanceMeters: real := 10.0

  /** Intervals up to this many milliseconds ask for high accuracy. */
  const HighAccuracyMaxIntervalMillis: Long := 10000

  datatype Priority = HighAccuracy | BalancedPowerAccuracy

  datatype LocationRequest = LocationRequest(priority: Priority, intervalMillis: Long, minUpdateIntervalMillis: Long)

  /** The request `startLocationUpdates` builds for an interval. */
  function BuildRequest(intervalMillis: Long): (r: LocationRequest)
    ensures r.intervalMillis == intervalMillis && r.minUpdateIntervalMillis == intervalMillis
    ensures r.priority == HighAccuracy <==> intervalMillis <= HighAccuracyMaxIntervalMillis
  {
    var priority := if intervalMillis <= HighAccuracyMaxIntervalMillis then HighAccuracy else BalancedPowerAccuracy;
    LocationRequest(priority, intervalMillis, intervalMillis)
  }

  /**
   * The movement throttle. `distanceTo(a, b)` is the platform's distance
   * from `a` to `b` in metres, taken as given.
   */
  function ShouldUpload(lastUploaded: Option<Location>, candidate: Location, distanceTo: (Location, Location) -> real): (r: bool)
    ensures r <==> lastUploaded.None? || distanceTo(candidate, lastUploaded.value) >= MinUploadDistanceMeters
  {
    match lastUploaded
    case None => true
    case Some(last) => distanceTo(candidate, last) >= MinUploadDistanceMeters
  }

  /** The service's session fields: `userId`, `sharingExpiry`, `lastUploadedLocation`. */
  datatype SessionState = SessionState(userId: Option<string>, sharingExpiry: Long, lastUploaded: Option<Location>)

  /** What `stopService` launches: one terminal write, or nothing without a user id. */
  function StopWrites(userId: Option<string>): (w: seq<Write>)
    ensures |w| == if userId.Some? then 1 else 0
    ensures forall i :: 0 <= i < |w| ==> w[i] == UpdateSharingStatus(userId.value, false)
  {
    match userId
    case None => []
    case Some(uid) => [UpdateSharingStatus(uid, false)]
  }

  /** What an accepted sample launches: one location write carrying the unchanged expiry. */
  function UploadWrites(userId: Option<string>, location: Location, sharingExpiry: Long): (w: seq<Write>)
    ensures |w| == if userId.Some? then 1 else 0
    ensures forall i :: 0 <= i < |w| ==>
              && w[i].UpdateUserLocation?
              && w[i].userId == userId.value
              && w[i].latitude == location.latitude && w[i].longitude == location.longitude
              && w[i].isSharing && w[i].expiry == sharingExpiry
  {
    match userId
    case None => []
    case Some(uid) => [UpdateUserLocation(uid, location.latitude, location.longitude, true, sharingExpiry)]
  }

  datatype Outcome = Stopped | Throttled | Uploaded

  datatype Step = Step(state: SessionState, writes: seq<Write>, outcome: Outcome)

  /** The body of the location callback for one delivered location at time `now`. */
  function OnSample(st: SessionState, now: Long, location: Location, distanceTo: (Location, Location) -> real): (r: Step)
    ensures r.state.userId == st.userId && r.state.sharingExpiry == st.sharingExpiry
    ensures r.outcome == Stopped <==> now > st.sharingExpiry
  {
    if now > st.sharingExpiry then
      Step(st, StopWrites(st.userId), Stopped)
    else if ShouldUpload(st.lastUploaded, location, distanceTo) then
      Step(st.(lastUploaded := Some(location)), UploadWrites(st.userId, location, st.sharingExpiry), Uploaded)
    else
      Step(st, [], Throttled)
  }

  /** A write that belongs to the session `st`: its user, `isSharing` true with the session's expiry, or the terminal false. */
  predicate WriteOf(w: Write, st: SessionState)
  {
    && st.userId.Some?
    && w.userId == st.userId.value
    && match w
       case UpdateUserLocation(_, _, _, sharing, expiry) => sharing && expiry == st.sharingExpiry
       case UpdateSharingStatus(_, sharing) => !sharing
  }

  // ---- one sample ----

  /** An expired sample publishes nothing, keeps the last uploaded location and issues the stop writes. */
  lemma ExpiredSampleStops(st: SessionState, now: Long, location: Location, distanceTo: (Location, Location) -> real)
    requires now > st.sharingExpiry
    ensures var r := OnSample(st, now, location, distanceTo);
            r.outcome == Stopped && r.state == st && r.writes == StopWrites(st.userId)
  {
  }

  /** The expiry test is strict: a sample exactly at the expiry is not stopped. */
  lemma ExpiryIsStrict(st: SessionState, location: Location, distanceTo: (Location, Location) -> real)
    ensures OnSample(st, st.sharingExpiry, location, distanceTo).outcome != Stopped
  {
  }

  /** With no previous upload, an unexpired sample is always uploaded. */
  lemma FirstSampleUploads(st: SessionState, now: Long, location: Location, distanceTo: (Location, Location) -> real)
    requires now <= st.sharingExpiry && st.lastUploaded.None?
    ensures OnSample(st, now, location, distanceTo).outcome == Uploaded
  {
  }

  /**
   * After an upload, an unexpired sample is uploaded iff it lies at least
   * 10 m from the last UPLOADED location; a dropped one changes nothing.
   */
  lemma ThrottleAgainstLastUpload(st: SessionState, now: Long, location: Location, distanceTo: (Location, Location) -> real)
    requires now <= st.sharingExpiry && st.lastUploaded.Some?
    ensures var r := OnSample(st, now, location, distanceTo);
            && (r.outcome == Uploaded <==> distanceTo(location, st.lastUploaded.value) >= MinUploadDistanceMeters)
            && (r.outcome == Throttled ==> r.state == st && r.writes == [])
  {
  }

  /**
   * An uploaded sample becomes the new reference and, when a user id is
   * set, launches exactly one write with `isSharing` true and the old
   * expiry; without a user id it launches none.
   */
  lemma UploadedSampleWrites(st: SessionState, now: Long, location: Location, distanceTo: (Location, Location) -> real)
    requires OnSample(st, now, location, distanceTo).outcome == Uploaded
    ensures var r := OnSample(st, now, location, distanceTo);
            && r.state == st.(lastUploaded := Some(location))
            && (st.userId.None? ==> r.writes == [])
            && (st.userId.Some? ==>
                  r.writes == [UpdateUserLocation(st.userId.value, location.latitude, location.longitude, true, st.sharingExpiry)])
  {
  }

  // ---- a stream of samples ----

  datatype Tick = Tick(now: Long, location: Location)

  datatype Run = Run(state: SessionState, writes: seq<Write>)

  /** Feed the ticks to the callback one after another, collecting the writes. */
  function RunSamples(st: SessionState, ticks: seq<Tick>, distanceTo: (Location, Location) -> real): Run
    decreases |ticks|
  {
    if ticks == [] then Run(st, [])
    else
      var step := OnSample(st, ticks[0].now, ticks[0].location, distanceTo);
      var rest := RunSamples(step.state, ticks[1..], distanceTo);
      Run(rest.state, step.writes + rest.writes)
  }

  /** `n` copies of `w`, one after another. */
  function Repeat(w: seq<Write>, n: nat): seq<Write>
  {
    if n == 0 then [] else w + Repeat(w, n - 1)
  }

  /**
   * However many samples arrive, the session's user id and expiry stay as
   * START set them (no silent renewal), and every write launched belongs to
   * the session: its user, and either `isSharing` true with that same
   * expiry or the terminal `isSharing` false. With no user id nothing is
   * written at all.
   */
  lemma {:induction false} SamplesNeverRenewSession(st: SessionState, ticks: seq<Tick>, distanceTo: (Location, Location) -> real)
    ensures var r := RunSamples(st, ticks, distanceTo);
            && r.state.userId == st.userId && r.state.sharingExpiry == st.sharingExpiry
            && (forall i :: 0 <= i < |r.writes| ==> WriteOf(r.writes[i], st))
            && (st.userId.None? ==> r.writes == [])
    decreases |ticks|
  {
    if ticks != [] {
      var step := OnSample(st, ticks[0].now, ticks[0].location, distanceTo);
      SamplesNeverRenewSession(step.state, ticks[1..], distanceTo);
      var rest := RunSamples(step.state, ticks[1..], distanceTo);
      assert forall i :: 0 <= i < |step.writes| ==> WriteOf(step.writes[i], st);
      assert forall w :: WriteOf(w, step.state) ==> WriteOf(w, st);
      var all := step.writes + rest.writes;
      forall i | 0 <= i < |all| ensures WriteOf(all[i], st) {
        if i >= |step.writes| {
          assert all[i] == rest.writes[i - |step.writes|];
        }
      }
    }
  }

  /**
   * Once the expiry has passed, every further sample is stopped: the state
   * is left alone and each one re-issues the stop writes, since stopping
   * keeps no record of having stopped.
   */
  lemma {:induction false} ExpiredSamplesRepeatStop(st: SessionState, ticks: seq<Tick>, distanceTo: (Location, Location) -> real)
    requires forall i :: 0 <= i < |ticks| ==> ticks[i].now > st.sharingExpiry
    ensures RunSamples(st, ticks, distanceTo) == Run(st, Repeat(StopWrites(st.userId), |ticks|))
    decreases |ticks|
  {
    if ticks != [] {
      ExpiredSamplesRepeatStop(st, ticks[1..], distanceTo);
    }
  }
}
