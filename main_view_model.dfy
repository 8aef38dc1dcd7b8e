/**
 * Command construction in the view model: converting the user's choice of
 * duration (hours) and interval (minutes, 0 for "Live") into the extras of
 * the START, STOP and UPDATE_INTERVAL commands.
 */
module MainViewModel {
  import opened Wrappers
  import opened KotlinNumbers
  import opened Intents
  import Session

  /** The interval the "Live" option (0 minutes) stands for. */
  const LiveIntervalMillis: Long := 10000

  /** Largest minute count whose `minutes * 60` still fits in an `Int`. */
  const MaxExactMinutes: int := 35_791_394

  /** Largest hour count whose `hours * 3_600_000` still fits in an `Int`. */
  const MaxExactHours: int := 596

  /**
   * Minutes to milliseconds. `minutes * 60` is an `Int` product; only the
   * multiplication by `1000L` is done in `Long`, and that one cannot overflow.
   */
  function IntervalMillis(intervalMinutes: Int): (r: Long)
    ensures intervalMinutes == 0 ==> r == LiveIntervalMillis
    ensures intervalMinutes != 0 ==> r == Wrap32(intervalMinutes * 60) * 1000
    ensures intervalMinutes != 0 && -MaxExactMinutes <= intervalMinutes <= MaxExactMinutes ==>
              r == intervalMinutes * 60_000
  {
    if intervalMinutes == 0 then LiveIntervalMillis
    else Wrap64(Wrap32((intervalMinutes as int) * 60) * 1000)
  }

  /**
   * `now + durationHours * 60 * 60 * 1000`: the product in `Int`, the sum in
   * `Long`. The product wraps once `|durationHours| > 596`.
   */
  function ExpiryMillis(now: Long, durationHours: Int): (r: Long)
    ensures r == Wrap64(now + Wrap32(durationHours * 3_600_000))
    ensures -MaxExactHours <= durationHours <= MaxExactHours && LongMin <= now + durationHours * 3_600_000 <= LongMax ==>
              r == now + durationHours * 3_600_000
  {
    var product: int := Wrap32((Wrap32((Wrap32((durationHours as int) * 60) as int) * 60) as int) * 1000);
    Wrap32HourProduct(durationHours);
    Wrap64(now + product)
  }

  /**
   * `startSharing`: `userId` is what the identity provider returned, `None`
   * when it threw. A failure is caught and no command is sent.
   */
  function StartSharing(userId: Option<string>, now: Long, durationHours: Int, intervalMinutes: Int): (r: Option<Intent>)
    ensures r.None? <==> userId.None?
    ensures r.Some? ==>
              && r.value.action == Some(ActionStart)
              && r.value.extras.Keys == {ExtraUserId, ExtraExpiry, ExtraInterval}
  {
    match userId
    case None => None
    case Some(uid) =>
      Some(Intent(Some(ActionStart), map[
        ExtraUserId := StringExtra(uid),
        ExtraExpiry := LongExtra(ExpiryMillis(now, durationHours)),
        ExtraInterval := LongExtra(IntervalMillis(intervalMinutes))]))
  }

  /** `stopSharing`: the STOP command, with no extras. */
  function StopSharing(): (r: Intent)
    ensures r.action == Some(ActionStop) && r.extras == map[]
  {
    Intent(Some(ActionStop), map[])
  }

  /** `updateFrequency`: the UPDATE_INTERVAL command, carrying only the interval. */
  function UpdateFrequency(intervalMinutes: Int): (r: Intent)
    ensures r.action == Some(ActionUpdateInterval) && r.extras.Keys == {ExtraInterval}
  {
    Intent(Some(ActionUpdateInterval), map[ExtraInterval := LongExtra(IntervalMillis(intervalMinutes))])
  }

  /**
   * What the service reads back from a START command is exactly the user
   * id, the expiry and the interval the view model computed; the service's
   * defaults (expiry 0, interval 10 000 ms) are never used.
   */
  lemma StartCarriesSession(uid: string, now: Long, durationHours: Int, intervalMinutes: Int, expiryDefault: Long, intervalDefault: Long)
    ensures var i := StartSharing(Some(uid), now, durationHours, intervalMinutes).value;
            && GetStringExtra(i, ExtraUserId) == Some(uid)
            && GetLongExtra(i, ExtraExpiry, expiryDefault) == ExpiryMillis(now, durationHours)
            && GetLongExtra(i, ExtraInterval, intervalDefault) == IntervalMillis(intervalMinutes)
  {
  }

  /** A failed sign-in sends nothing. */
  lemma FailedSignInSendsNothing(now: Long, durationHours: Int, intervalMinutes: Int)
    ensures StartSharing(None, now, durationHours, intervalMinutes) == None
  {
  }

  /** `updateFrequency` and `startSharing` convert minutes identically. */
  lemma SameIntervalConversion(uid: string, now: Long, durationHours: Int, intervalMinutes: Int, default: Long)
    ensures GetLongExtra(UpdateFrequency(intervalMinutes), ExtraInterval, default)
         == GetLongExtra(StartSharing(Some(uid), now, durationHours, intervalMinutes).value, ExtraInterval, default)
  {
  }

  /** For every non-negative minute count that does not overflow, the interval is at least the Live one. */
  lemma IntervalAtLeastLive(intervalMinutes: Int)
    requires 0 <= intervalMinutes <= MaxExactMinutes
    ensures IntervalMillis(intervalMinutes) >= LiveIntervalMillis
    ensures IntervalMillis(intervalMinutes) == LiveIntervalMillis <==> intervalMinutes == 0
  {
  }

  /**
   * Of the non-overflowing non-negative minute counts, only Live (0) gives
   * an interval the service serves with high accuracy.
   */
  lemma OnlyLiveIsHighAccuracy(intervalMinutes: Int)
    requires 0 <= intervalMinutes <= MaxExactMinutes
    ensures Session.BuildRequest(IntervalMillis(intervalMinutes)).priority == Session.HighAccuracy <==> intervalMinutes == 0
  {
  }

  /** One minute more and `minutes * 60` wraps: the interval comes out negative. */
  lemma IntervalWrapsPastMaxMinutes()
    ensures IntervalMillis(MaxExactMinutes + 1) == -2_147_483_596_000
  {
  }

  /** For 1..596 hours (and a clock far from the `Long` limit) the expiry lies in the future. */
  lemma ExpiryAfterNow(now: Long, durationHours: Int)
    requires 1 <= durationHours <= MaxExactHours
    requires now <= LongMax - MaxExactHours * 3_600_000
    ensures ExpiryMillis(now, durationHours) > now
    ensures ExpiryMillis(now, durationHours) == now + durationHours * 3_600_000
  {
  }

  /** At 597 hours the `Int` product wraps negative, so the session is born expired. */
  lemma ExpiryWrapsPastMaxHours(now: Long)
    requires 0 <= now <= LongMax - MaxExactHours * 3_600_000
    ensures ExpiryMillis(now, MaxExactHours + 1) == now - 2_145_767_296
    ensures ExpiryMillis(now, MaxExactHours + 1) < now
  {
  }
}
