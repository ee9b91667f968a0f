/**
 * The friendship table as each user sees it (`get_users_friends`) and the removal of a
 * friendship (`remove_friend`). A friendship is stored once, under its normalised pair.
 */
module Friends {
  import opened Wrappers
  import opened Http
  import opened Schema
  import FriendRequests

  /** The other endpoint of a pair containing `user` (`CASE WHEN user1_id = %s THEN user2_id ELSE user1_id END`). */
  function OtherEnd(pair: (UserId, UserId), user: UserId): (other: UserId)
    ensures pair.0 == user ==> other == pair.1
    ensures pair.0 != user ==> other == pair.0
  {
    if pair.0 == user then pair.1 else pair.0
  }

  /** One entry of the friends listing: `friend_id, username, since`. */
  datatype FriendRow = FriendRow(friendId: UserId, username: string, since: Seconds)

  /**
   * `get_users_friends(user_id)`: one row per friendship containing `user` whose other end has a
   * Users row. The query has no ORDER BY, so the listing is a set.
   */
  function GetUsersFriends(friends: map<(UserId, UserId), Seconds>, users: map<UserId, string>, user: UserId)
    : (r: set<FriendRow>)
    ensures forall row :: row in r <==>
      exists pair :: pair in friends && (pair.0 == user || pair.1 == user)
        && row.friendId == OtherEnd(pair, user) && row.friendId in users
        && row == FriendRow(row.friendId, users[row.friendId], friends[pair])
  {
    set pair | pair in friends && (pair.0 == user || pair.1 == user) && OtherEnd(pair, user) in users
      :: FriendRow(OtherEnd(pair, user), users[OtherEnd(pair, user)], friends[pair])
  }

  /** Friendship is mutual: `a` lists `b` exactly when `b` lists `a`, with the same date. */
  lemma FriendsListingIsMutual(friends: map<(UserId, UserId), Seconds>, users: map<UserId, string>,
                               a: UserId, b: UserId, since: Seconds)
    requires NormalisedFriends(friends) && a in users && b in users
    ensures FriendRow(b, users[b], since) in GetUsersFriends(friends, users, a)
        <==> FriendRow(a, users[a], since) in GetUsersFriends(friends, users, b)
  {
    var pair := Normalise(a, b);
    if FriendRow(b, users[b], since) in GetUsersFriends(friends, users, a) {
      var p :| p in friends && (p.0 == a || p.1 == a) && b == OtherEnd(p, a) && since == friends[p];
      assert p == pair;
      assert OtherEnd(p, b) == a;
    }
    if FriendRow(a, users[a], since) in GetUsersFriends(friends, users, b) {
      var p :| p in friends && (p.0 == b || p.1 == b) && a == OtherEnd(p, b) && since == friends[p];
      assert p == pair;
      assert OtherEnd(p, a) == b;
    }
  }

  /** The Friends table without the pair of `a` and `b`, named in either order. */
  function WithoutFriendship(friends: map<(UserId, UserId), Seconds>, a: UserId, b: UserId)
    : (r: map<(UserId, UserId), Seconds>)
    ensures r.Keys == friends.Keys - {Normalise(a, b)}
    ensures forall p :: p in r ==> r[p] == friends[p]
  {
    var (user1, user2) := if a < b then (a, b) else (b, a);
    friends - {(user1, user2)}
  }

  /** `remove_friend(user_id, friend_id)`: deletes the normalised pair and reports success even if there was none. */
  method RemoveFriend(db: Database, user: UserId, friend: UserId) returns (response: Response)
    requires db.Valid()
    modifies db`friends
    ensures db.Valid()
    ensures db.friends == WithoutFriendship(old(db.friends), user, friend)
    ensures response == Response(OK, "Friendship removed successfully")
  {
    var (user1, user2) := if user < friend then (user, friend) else (friend, user);
    db.friends := db.friends - {(user1, user2)};
    response := Response(OK, "Friendship removed successfully");
  }

  /** Removing in either order deletes the same pair. */
  lemma RemovalIsSymmetric(friends: map<(UserId, UserId), Seconds>, a: UserId, b: UserId)
    ensures WithoutFriendship(friends, a, b) == WithoutFriendship(friends, b, a)
  {
    assert Normalise(a, b) == Normalise(b, a);
  }

  /** After a removal neither user lists the other, and they may send each other requests again. */
  lemma RemovalEndsFriendship(friends: map<(UserId, UserId), Seconds>, users: map<UserId, string>,
                              requests: seq<FriendRequest>, a: UserId, b: UserId, since: Seconds, now: Seconds)
    requires NormalisedFriends(friends)
    ensures FriendRow(b, if b in users then users[b] else "", since) !in GetUsersFriends(WithoutFriendship(friends, a, b), users, a)
    ensures FriendRequests.SendRefusal(requests, WithoutFriendship(friends, a, b), a, b, now)
         != Some(Response(BAD_REQUEST, "You are already friends"))
  {
  }
}
