/**
 * The presence store adapter: the `users` collection as a map from
 * document id to record, the two writes the service uses, and the
 * active-friends query (the store keeps records with `isSharing` true, the
 * client then drops those whose expiry is not after the current time).
 */
module Repository {
  import opened Wrappers
  import opened KotlinNumbers
  import opened UserRecord

  /** Every document's `userId` field equals its document id. */
  predicate WellKeyed(users: map<string, User>)
  {
    forall k :: k in users ==> users[k].userId == k
  }

  /** The collection after `set` of a fresh document under `userId` (no merge). */
  function PutLocation(users: map<string, User>, userId: string, lat: real, lng: real,
                       isSharing: bool, expiry: Long, now: Timestamp): (r: map<string, User>)
    ensures userId in r && r[userId] == User(userId, lat, lng, Some(now), isSharing, expiry)
    ensures r.Keys == users.Keys + {userId}
    ensures forall k :: k in users && k != userId ==> r[k] == users[k]
    ensures WellKeyed(users) ==> WellKeyed(r)
  {
    users[userId := User(userId, lat, lng, Some(now), isSharing, expiry)]
  }

  /**
   * The collection after `update("isSharing", isSharing)` on `userId`;
   * `None` when that document does not exist and the update fails.
   */
  function SetSharing(users: map<string, User>, userId: string, isSharing: bool): (r: Option<map<string, User>>)
    ensures r.Some? <==> userId in users
    ensures r.Some? ==>
              && r.value.Keys == users.Keys
              && r.value[userId].isSharing == isSharing
              && r.value[userId].userId == users[userId].userId
              && r.value[userId].latitude == users[userId].latitude
              && r.value[userId].longitude == users[userId].longitude
              && r.value[userId].lastUpdated == users[userId].lastUpdated
              && r.value[userId].sharingExpiry == users[userId].sharingExpiry
              && (forall k :: k in users && k != userId ==> r.value[k] == users[k])
              && (WellKeyed(users) ==> WellKeyed(r.value))
  {
    if userId in users then Some(users[userId := users[userId].(isSharing := isSharing)]) else None
  }

  class LocationRepository {
    /** The `users` collection. */
    var users: map<string, User>

    ghost predicate Valid()
      reads this
    {
      WellKeyed(users)
    }

    constructor (initial: map<string, User>)
      requires WellKeyed(initial)
      ensures Valid() && users == initial
    {
      users := initial;
    }

    /** `updateUserLocation`: replace the whole document; `now` is the client clock's timestamp. */
    method UpdateUserLocation(userId: string, lat: real, lng: real, isSharing: bool, expiry: Long, now: Timestamp)
      requires Valid()
      modifies this
      ensures Valid()
      ensures users == PutLocation(old(users), userId, lat, lng, isSharing, expiry, now)
    {
      users := users[userId := User(userId, lat, lng, Some(now), isSharing, expiry)];
    }

    /** `updateSharingStatus`: change one field of an existing document; fails on a missing one. */
    method UpdateSharingStatus(userId: string, isSharing: bool) returns (ok: bool)
      requires Valid()
      modifies this
      ensures Valid()
      ensures ok <==> userId in old(users)
      ensures ok ==> users == SetSharing(old(users), userId, isSharing).value
      ensures !ok ==> users == old(users)
    {
      ok := userId in users;
      if ok {
        users := users[userId := users[userId].(isSharing := isSharing)];
      }
    }
  }

  // ---- the active-friends query ----

  /** The observer-side condition for a record to be shown. */
  predicate IsActive(u: User, now: Long)
  {
    u.isSharing && u.sharingExpiry > now
  }

  /** `a` is `b` with some elements left out and the rest in their order. */
  predicate IsSubsequence(a: seq<User>, b: seq<User>)
    decreases |b|
  {
    if a == [] then true
    else if b == [] then false
    else (a[0] == b[0] && IsSubsequence(a[1..], b[1..])) || IsSubsequence(a, b[1..])
  }

  /** `whereEqualTo("isSharing", true)` applied to a listing of the collection. */
  function SharingQuery(docs: seq<User>): (r: seq<User>)
    ensures forall u :: u in r <==> u in docs && u.isSharing
    ensures forall u :: multiset(r)[u] == if u.isSharing then multiset(docs)[u] else 0
    ensures IsSubsequence(r, docs)
  {
    if docs == [] then []
    else
      assert docs == [docs[0]] + docs[1..];
      if docs[0].isSharing then [docs[0]] + SharingQuery(docs[1..])
      else SharingQuery(docs[1..])
  }

  /** The client-side `filter { it.sharingExpiry > currentTime }`. */
  function UnexpiredFilter(docs: seq<User>, now: Long): (r: seq<User>)
    ensures forall u :: u in r <==> u in docs && u.sharingExpiry > now
    ensures forall u :: multiset(r)[u] == if u.sharingExpiry > now then multiset(docs)[u] else 0
    ensures IsSubsequence(r, docs)
  {
    if docs == [] then []
    else
      assert docs == [docs[0]] + docs[1..];
      if docs[0].sharingExpiry > now then [docs[0]] + UnexpiredFilter(docs[1..], now)
      else UnexpiredFilter(docs[1..], now)
  }

  /** One snapshot of `getActiveFriends` at time `now`: the query, then the expiry filter. */
  function ActiveFriends(docs: seq<User>, now: Long): (r: seq<User>)
    ensures forall u :: u in r <==> u in docs && IsActive(u, now)
  {
    UnexpiredFilter(SharingQuery(docs), now)
  }

  /** The reference definition: keep exactly the active records, in order. */
  function ActiveFilter(docs: seq<User>, now: Long): (r: seq<User>)
    ensures forall u :: u in r <==> u in docs && IsActive(u, now)
    ensures forall u :: multiset(r)[u] == if IsActive(u, now) then multiset(docs)[u] else 0
    ensures IsSubsequence(r, docs)
  {
    if docs == [] then []
    else
      assert docs == [docs[0]] + docs[1..];
      if IsActive(docs[0], now) then [docs[0]] + ActiveFilter(docs[1..], now)
      else ActiveFilter(docs[1..], now)
  }

  /**
   * The two-stage query is the single active filter: the result is
   * exactly the records of the snapshot with `isSharing` true and an expiry
   * strictly after `now` (one at exactly `now` is left out), in snapshot
   * order. Nothing else is filtered out: the caller's own record is shown
   * too.
   */
  lemma {:induction false} ActiveFriendsIsActiveFilter(docs: seq<User>, now: Long)
    ensures ActiveFriends(docs, now) == ActiveFilter(docs, now)
    ensures forall u :: u in ActiveFriends(docs, now) <==> u in docs && IsActive(u, now)
    ensures IsSubsequence(ActiveFriends(docs, now), docs)
  {
    if docs != [] {
      ActiveFriendsIsActiveFilter(docs[1..], now);
    }
  }

  /**
   * With the same snapshot, the result at a later time is the earlier
   * result filtered again: a record dropped at `t` stays dropped at every
   * `t' >= t`, and the order is kept.
   */
  lemma {:induction false} ActiveFriendsShrinkOverTime(docs: seq<User>, t: Long, t': Long)
    requires t <= t'
    ensures ActiveFriends(docs, t') == ActiveFilter(ActiveFriends(docs, t), t')
    ensures IsSubsequence(ActiveFriends(docs, t'), ActiveFriends(docs, t))
  {
    ActiveFriendsIsActiveFilter(docs, t);
    ActiveFriendsIsActiveFilter(docs, t');
    ActiveFilterTwice(docs, t, t');
  }

  lemma {:induction false} ActiveFilterTwice(docs: seq<User>, t: Long, t': Long)
    requires t <= t'
    ensures ActiveFilter(docs, t') == ActiveFilter(ActiveFilter(docs, t), t')
  {
    if docs != [] {
      ActiveFilterTwice(docs[1..], t, t');
    }
  }

  /** A record excluded at `t` is excluded at every later time. */
  lemma ExcludedStaysExcluded(docs: seq<User>, u: User, t: Long, t': Long)
    requires t <= t' && u !in ActiveFriends(docs, t)
    ensures u !in ActiveFriends(docs, t')
  {
  }

  /**
   * `docs` is what a snapshot's `toObjects` delivers: the documents of the
   * collection as records, without their ids, in some order.
   */
  ghost predicate IsSnapshotOf(docs: seq<User>, users: map<string, User>)
  {
    forall u :: u in docs <==> u in users.Values
  }

  /**
   * Over a snapshot of a well-keyed collection, the result is exactly the
   * stored records that are active, each found under its own `userId`.
   */
  lemma StoredActiveFriends(docs: seq<User>, users: map<string, User>, now: Long)
    requires WellKeyed(users) && IsSnapshotOf(docs, users)
    ensures forall u :: u in ActiveFriends(docs, now) <==>
                          u.userId in users && users[u.userId] == u && IsActive(u, now)
  {
    forall u | u in users.Values
      ensures u.userId in users && users[u.userId] == u
    {
      var k :| k in users && users[k] == u;
    }
  }

  /**
   * After `updateSharingStatus(uid, false)` the user is absent from every
   * snapshot's result, whatever its expiry.
   */
  lemma SharingOffHidesUser(users: map<string, User>, uid: string, docs: seq<User>, now: Long)
    requires WellKeyed(users) && uid in users
    requires IsSnapshotOf(docs, SetSharing(users, uid, false).value)
    ensures forall u :: u in ActiveFriends(docs, now) ==> u.userId != uid
  {
    StoredActiveFriends(docs, SetSharing(users, uid, false).value, now);
  }

  /** A location write with `isSharing` true and a future expiry makes the user visible again. */
  lemma PublishShowsUser(users: map<string, User>, uid: string, lat: real, lng: real, expiry: Long,
                         stamp: Timestamp, docs: seq<User>, now: Long)
    requires WellKeyed(users) && expiry > now
    requires IsSnapshotOf(docs, PutLocation(users, uid, lat, lng, true, expiry, stamp))
    ensures User(uid, lat, lng, Some(stamp), true, expiry) in ActiveFriends(docs, now)
  {
    StoredActiveFriends(docs, PutLocation(users, uid, lat, lng, true, expiry, stamp), now);
  }

  /**
   * `set` replaces: the document written does not depend on what was
   * stored under that id before.
   */
  lemma PutLocationReplaces(before1: map<string, User>, before2: map<string, User>, userId: string,
                            lat: real, lng: real, isSharing: bool, expiry: Long, now: Timestamp)
    ensures PutLocation(before1, userId, lat, lng, isSharing, expiry, now)[userId]
         == PutLocation(before2, userId, lat, lng, isSharing, expiry, now)[userId]
  {
  }

  /** The default record has the source's defaults and is never shown. */
  lemma DefaultUserNeverActive()
    ensures DefaultUser.userId == "" && DefaultUser.latitude == 0.0 && DefaultUser.longitude == 0.0
    ensures DefaultUser.lastUpdated == None && !DefaultUser.isSharing && DefaultUser.sharingExpiry == 0
    ensures forall now: Long :: !IsActive(DefaultUser, now)
  {
  }
}
