/**
 * Friend requests as a small state machine over their status (`send_request`,
 * `accept_request`, `reject_request`, `get_request_by_id`) and the inbox of pending requests
 * (`get_received_requests`). A request's id is its position in the FriendRequests table plus one.
 */
module FriendRequests {
  import opened Wrappers
  import opened Http
  import opened Schema
  import Ordering

  /** Five minutes: how long a rejected or deleted request blocks a new one between the same users. */
  const COOLDOWN: Seconds := 300

  const ALREADY_FRIENDS: string := "You are already friends"
  const ALREADY_PENDING: string := "A friend request is already pending"
  const WAIT_COOLDOWN: string := "Please wait 5 minutes before re-sending the request"
  const REQUEST_SENT: string := "Request sent"

  /** The request joins users `a` and `b`, in either direction. */
  predicate Between(r: FriendRequest, a: UserId, b: UserId) {
    (r.from == a && r.to == b) || (r.from == b && r.to == a)
  }

  predicate PendingBetween(requests: seq<FriendRequest>, a: UserId, b: UserId) {
    exists i :: 0 <= i < |requests| && requests[i].status == Pending && Between(requests[i], a, b)
  }

  /**
   * The index of the newest request between `a` and `b` (`ORDER BY timestamp DESC LIMIT 1`);
   * among requests with the same timestamp, the one inserted last.
   */
  function LatestBetween(requests: seq<FriendRequest>, a: UserId, b: UserId): (r: Option<nat>)
    ensures r.None? <==> forall i :: 0 <= i < |requests| ==> !Between(requests[i], a, b)
    ensures r.Some? ==> r.value < |requests| && Between(requests[r.value], a, b)
    ensures r.Some? ==> forall i :: 0 <= i < |requests| && Between(requests[i], a, b) ==>
                          requests[i].time <= requests[r.value].time
    decreases |requests|
  {
    if requests == [] then None
    else
      var n := |requests| - 1;
      var front := requests[..n];
      var earlier := LatestBetween(front, a, b);
      assert forall i :: 0 <= i < n ==> front[i] == requests[i];
      if Between(requests[n], a, b) && (earlier.None? || requests[n].time >= front[earlier.value].time) then Some(n)
      else earlier
  }

  /**
   * The newest request between the pair is now rejected or deleted, and was created less than
   * five minutes before `now`. The wait runs from the request's creation `time`: rejecting or
   * deleting a request changes only its status.
   */
  predicate CoolingDown(requests: seq<FriendRequest>, a: UserId, b: UserId, now: Seconds) {
    var latest := LatestBetween(requests, a, b);
    latest.Some?
    && requests[latest.value].status in {Rejected, Deleted}
    && now - requests[latest.value].time < COOLDOWN
  }

  /** The refusals of `send_request`, in its order; None when the request is created. */
  function SendRefusal(requests: seq<FriendRequest>, friends: map<(UserId, UserId), Seconds>,
                       sender: UserId, receiver: UserId, now: Seconds): (r: Option<Response>)
    ensures r.None? <==>
      Normalise(sender, receiver) !in friends
      && !PendingBetween(requests, sender, receiver)
      && !CoolingDown(requests, sender, receiver, now)
    ensures r.Some? ==> r.value.status == BAD_REQUEST
    ensures Normalise(sender, receiver) in friends ==> r == Some(Response(BAD_REQUEST, ALREADY_FRIENDS))
  {
    if Normalise(sender, receiver) in friends then Some(Response(BAD_REQUEST, ALREADY_FRIENDS))
    else if PendingBetween(requests, sender, receiver) then
      Some(Response(BAD_REQUEST, ALREADY_PENDING))
    else if CoolingDown(requests, sender, receiver, now) then
      Some(Response(BAD_REQUEST, WAIT_COOLDOWN))
    else None
  }

  /** Whether users are friends does not depend on the order they are named in. */
  lemma SendRefusalIsSymmetric(requests: seq<FriendRequest>, friends: map<(UserId, UserId), Seconds>,
                               a: UserId, b: UserId, now: Seconds)
    ensures SendRefusal(requests, friends, a, b, now) == SendRefusal(requests, friends, b, a, now)
  {
    assert Normalise(a, b) == Normalise(b, a);
    LatestBetweenIsSymmetric(requests, a, b);
    assert PendingBetween(requests, a, b) == PendingBetween(requests, b, a) by {
      if PendingBetween(requests, a, b) {
        var i :| 0 <= i < |requests| && requests[i].status == Pending && Between(requests[i], a, b);
        assert Between(requests[i], b, a);
      }
      if PendingBetween(requests, b, a) {
        var i :| 0 <= i < |requests| && requests[i].status == Pending && Between(requests[i], b, a);
        assert Between(requests[i], a, b);
      }
    }
    assert CoolingDown(requests, a, b, now) == CoolingDown(requests, b, a, now);
  }

  lemma {:induction false} LatestBetweenIsSymmetric(requests: seq<FriendRequest>, a: UserId, b: UserId)
    ensures LatestBetween(requests, a, b) == LatestBetween(requests, b, a)
    decreases |requests|
  {
    if requests != [] {
      LatestBetweenIsSymmetric(requests[..|requests| - 1], a, b);
    }
  }

  datatype SendResult = SendRefused(response: Response) | Sent(response: Response, request: FriendRequest, requestId: int)

  /** `send_request(senderId, receiverId)` at time `now`. */
  method SendRequest(db: Database, sender: UserId, receiver: UserId, now: Seconds) returns (result: SendResult)
    requires db.Valid()
    modifies db`requests
    ensures db.Valid()
    ensures var refusal := SendRefusal(old(db.requests), db.friends, sender, receiver, now);
      refusal.Some? ==> result == SendRefused(refusal.value) && db.requests == old(db.requests)
    ensures var refusal := SendRefusal(old(db.requests), db.friends, sender, receiver, now);
      refusal.None? ==> (db.requests == old(db.requests) + [FriendRequest(sender, receiver, Pending, now)]
                         && result == Sent(Response(CREATED, REQUEST_SENT), db.requests[|db.requests| - 1], |db.requests|))
  {
    if Normalise(sender, receiver) in db.friends {
      return SendRefused(Response(BAD_REQUEST, ALREADY_FRIENDS));
    }
    if exists i :: 0 <= i < |db.requests| && db.requests[i].status == Pending && Between(db.requests[i], sender, receiver) {
      return SendRefused(Response(BAD_REQUEST, ALREADY_PENDING));
    }
    var recent := LatestBetween(db.requests, sender, receiver);
    if recent.Some? && db.requests[recent.value].status in {Rejected, Deleted} {
      var elapsed := now - db.requests[recent.value].time;
      if elapsed < COOLDOWN {
        return SendRefused(Response(BAD_REQUEST, WAIT_COOLDOWN));
      }
    }
    var request := FriendRequest(sender, receiver, Pending, now);
    NewPendingKeepsOnePerPair(db.requests, request);
    db.requests := db.requests + [request];
    result := Sent(Response(CREATED, REQUEST_SENT), request, |db.requests|);
  }

  /** A new pending request between users with none pending keeps one pending request per pair. */
  lemma NewPendingKeepsOnePerPair(requests: seq<FriendRequest>, request: FriendRequest)
    requires OnePendingPerPair(requests) && !PendingBetween(requests, request.from, request.to)
    ensures OnePendingPerPair(requests + [request])
  {
    var after := requests + [request];
    forall i, j | 0 <= i < j < |after| && after[i].status == Pending && after[j].status == Pending
      ensures !SamePair(after[i], after[j])
    {
      assert after[i] == requests[i];
      if j == |requests| {
        assert !Between(requests[i], request.from, request.to);
      } else {
        assert after[j] == requests[j];
      }
    }
  }

  /** `get_request_by_id`: the request with this id, only while it is pending. */
  function GetRequestById(requests: seq<FriendRequest>, requestId: int): (r: Option<FriendRequest>)
    ensures r.Some? <==> 1 <= requestId <= |requests| && requests[requestId - 1].status == Pending
    ensures r.Some? ==> r.value == requests[requestId - 1]
  {
    if 1 <= requestId <= |requests| && requests[requestId - 1].status == Pending then Some(requests[requestId - 1])
    else None
  }

  /** `INSERT INTO Friends ... ON CONFLICT DO NOTHING` for the normalised pair. */
  function AddFriendship(friends: map<(UserId, UserId), Seconds>, a: UserId, b: UserId, since: Seconds)
    : (r: map<(UserId, UserId), Seconds>)
    ensures r.Keys == friends.Keys + {Normalise(a, b)}
    ensures forall p :: p in friends ==> r[p] == friends[p]
    ensures NormalisedFriends(friends) ==> NormalisedFriends(r)
  {
    var pair := Normalise(a, b);
    if pair in friends then friends else friends[pair := since]
  }

  datatype AcceptResult = AcceptRefused(response: Response) | AcceptDone(response: Response, request: FriendRequest)

  /** `accept_request(request_id)` at time `now`: only a pending request can be accepted. */
  method AcceptRequest(db: Database, requestId: int, now: Seconds) returns (result: AcceptResult)
    requires db.Valid()
    modifies db`requests, db`friends
    ensures db.Valid()
    ensures GetRequestById(old(db.requests), requestId).None? ==>
      result == AcceptRefused(Response(NOT_FOUND, "Friend request not found or already processed")) && unchanged(db)
    ensures GetRequestById(old(db.requests), requestId).Some? ==>
      var request := old(db.requests)[requestId - 1];
      && db.requests == old(db.requests)[requestId - 1 := request.(status := Accepted)]
      && db.friends == AddFriendship(old(db.friends), request.from, request.to, now)
      && result == AcceptDone(Response(OK, "Request accepted"), request.(status := Accepted))
  {
    var request := GetRequestById(db.requests, requestId);
    if request.None? {
      return AcceptRefused(Response(NOT_FOUND, "Friend request not found or already processed"));
    }
    var pair := Normalise(request.value.from, request.value.to);
    var updated := request.value.(status := Accepted);
    db.requests := db.requests[requestId - 1 := updated];
    if pair !in db.friends {
      db.friends := db.friends[pair := now];
    }
    result := AcceptDone(Response(OK, "Request accepted"), updated);
    assert OnePendingPerPair(db.requests) by {
      forall i, j | 0 <= i < j < |db.requests| && db.requests[i].status == Pending && db.requests[j].status == Pending
        ensures !SamePair(db.requests[i], db.requests[j])
      {
        assert old(db.requests)[i] == db.requests[i] && old(db.requests)[j] == db.requests[j];
      }
    }
  }

  /** Once a request is accepted, neither user can send the other a new one: they are friends. */
  lemma AcceptedPairCannotResend(requests: seq<FriendRequest>, friends: map<(UserId, UserId), Seconds>,
                                 requestId: int, now: Seconds, later: Seconds)
    requires GetRequestById(requests, requestId).Some?
    ensures var request := requests[requestId - 1];
      var friendsAfter := AddFriendship(friends, request.from, request.to, now);
      var requestsAfter := requests[requestId - 1 := request.(status := Accepted)];
      && SendRefusal(requestsAfter, friendsAfter, request.from, request.to, later) == Some(Response(BAD_REQUEST, ALREADY_FRIENDS))
      && SendRefusal(requestsAfter, friendsAfter, request.to, request.from, later) == Some(Response(BAD_REQUEST, ALREADY_FRIENDS))
  {
    var request := requests[requestId - 1];
    assert Normalise(request.from, request.to) == Normalise(request.to, request.from);
  }

  /** A pending request blocks a second one in either direction, which keeps one pending request per pair. */
  lemma PendingBlocksEitherDirection(requests: seq<FriendRequest>, friends: map<(UserId, UserId), Seconds>,
                                     i: int, now: Seconds)
    requires 0 <= i < |requests| && requests[i].status == Pending
    ensures SendRefusal(requests, friends, requests[i].from, requests[i].to, now).Some?
    ensures SendRefusal(requests, friends, requests[i].to, requests[i].from, now).Some?
  {
    assert Between(requests[i], requests[i].from, requests[i].to);
    assert Between(requests[i], requests[i].to, requests[i].from);
  }

  datatype RejectResult = RejectResult(response: Response, request: Option<FriendRequest>)

  /**
   * `reject_request(request_id)`: sets the status to rejected whatever it was before, and answers
   * 200 even when no request has this id (then with no request).
   */
  method RejectRequest(db: Database, requestId: int) returns (result: RejectResult)
    requires db.Valid()
    modifies db`requests
    ensures db.Valid()
    ensures 1 <= requestId <= |old(db.requests)| ==>
      var request := old(db.requests)[requestId - 1];
      && db.requests == old(db.requests)[requestId - 1 := request.(status := Rejected)]
      && result == RejectResult(Response(OK, "Request rejected"), Some(request.(status := Rejected)))
    ensures !(1 <= requestId <= |old(db.requests)|) ==>
      db.requests == old(db.requests) && result == RejectResult(Response(OK, "Request rejected"), None)
  {
    if 1 <= requestId <= |db.requests| {
      var updated := db.requests[requestId - 1].(status := Rejected);
      db.requests := db.requests[requestId - 1 := updated];
      result := RejectResult(Response(OK, "Request rejected"), Some(updated));
      assert OnePendingPerPair(db.requests) by {
        forall i, j | 0 <= i < j < |db.requests| && db.requests[i].status == Pending && db.requests[j].status == Pending
          ensures !SamePair(db.requests[i], db.requests[j])
        {
          assert old(db.requests)[i] == db.requests[i] && old(db.requests)[j] == db.requests[j];
        }
      }
    } else {
      result := RejectResult(Response(OK, "Request rejected"), None);
    }
  }

  /**
   * Rejecting does not check the status: an already accepted request becomes rejected, and the
   * friendship it created stays.
   */
  lemma RejectOverridesAccepted(requests: seq<FriendRequest>, requestId: int)
    requires 1 <= requestId <= |requests| && requests[requestId - 1].status == Accepted
    ensures var after := requests[requestId - 1 := requests[requestId - 1].(status := Rejected)];
      after[requestId - 1].status == Rejected && GetRequestById(after, requestId).None?
  {
  }

  /**
   * A request created at `t` and now rejected blocks a new request between the pair until five
   * minutes after `t`, and only that long.
   */
  lemma RejectionCooldown(requests: seq<FriendRequest>, friends: map<(UserId, UserId), Seconds>,
                          a: UserId, b: UserId, t: Seconds, now: Seconds)
    requires Normalise(a, b) !in friends
    requires forall i :: 0 <= i < |requests| ==> !Between(requests[i], a, b)
    requires t <= now
    ensures var after := requests + [FriendRequest(a, b, Rejected, t)];
      SendRefusal(after, friends, b, a, now).None? <==> now - t >= COOLDOWN
  {
    var after := requests + [FriendRequest(a, b, Rejected, t)];
    assert after[..|requests|] == requests;
    assert LatestBetween(after, b, a) == Some(|requests|);
    assert !PendingBetween(after, b, a) by {
      forall i | 0 <= i < |after| ensures !(after[i].status == Pending && Between(after[i], b, a)) {
        if i < |requests| {
          assert after[i] == requests[i];
        }
      }
    }
  }

  /**
   * The cooldown runs from the request's creation, not from its rejection: a request sent at `t`
   * and rejected by `RejectRequest` at any later time no longer blocks a new one once five
   * minutes have passed since `t`, and blocks it before then.
   */
  lemma CooldownRunsFromCreation(requests: seq<FriendRequest>, friends: map<(UserId, UserId), Seconds>,
                                 a: UserId, b: UserId, t: Seconds, now: Seconds)
    requires Normalise(a, b) !in friends
    requires forall i :: 0 <= i < |requests| ==> !Between(requests[i], a, b)
    requires t <= now
    ensures var sent := requests + [FriendRequest(a, b, Pending, t)];
      var after := sent[|requests| := sent[|requests|].(status := Rejected)];
      SendRefusal(after, friends, b, a, now).None? <==> now - t >= COOLDOWN
  {
    var sent := requests + [FriendRequest(a, b, Pending, t)];
    var after := sent[|requests| := sent[|requests|].(status := Rejected)];
    assert after == requests + [FriendRequest(a, b, Rejected, t)];
    RejectionCooldown(requests, friends, a, b, t, now);
  }

  // ---------------------------------------------------------------------------
  // get_received_requests
  // ---------------------------------------------------------------------------

  /** A row of the joined query: the request and its sender's user row. */
  datatype InboxRow = InboxRow(requestId: int, status: RequestStatus, time: Seconds, senderId: UserId, senderUsername: string)

  /** The sender as the response nests it. */
  datatype Sender = Sender(id: UserId, username: string)

  /** An entry of `received_requests`: the request with a nested sender and no flat sender fields. */
  datatype ReceivedRequest = ReceivedRequest(requestId: int, status: RequestStatus, time: Seconds, sender: Sender)

  predicate NewerFirst(a: InboxRow, b: InboxRow) {
    a.time >= b.time
  }

  /** The request with id `id` is pending, addressed to `user`, and its sender has a Users row. */
  predicate InInbox(requests: seq<FriendRequest>, users: map<UserId, string>, user: UserId, id: int) {
    1 <= id <= |requests| && requests[id - 1].to == user && requests[id - 1].status == Pending
    && requests[id - 1].from in users
  }

  /** The joined row of an inbox request. */
  function RowOf(requests: seq<FriendRequest>, users: map<UserId, string>, user: UserId, id: int): InboxRow
    requires InInbox(requests, users, user, id)
  {
    var r := requests[id - 1];
    InboxRow(id, Pending, r.time, r.from, users[r.from])
  }

  /** The pending requests to `user` whose sender has a Users row, in table order. */
  function InboxRows(requests: seq<FriendRequest>, users: map<UserId, string>, user: UserId): (rows: seq<InboxRow>)
    ensures forall row :: row in rows <==>
      InInbox(requests, users, user, row.requestId) && row == RowOf(requests, users, user, row.requestId)
    decreases |requests|
  {
    if requests == [] then []
    else
      var n := |requests|;
      var r := requests[n - 1];
      var front := InboxRows(requests[..n - 1], users, user);
      assert forall i :: 0 <= i < n - 1 ==> requests[..n - 1][i] == requests[i];
      if r.to == user && r.status == Pending && r.from in users then
        front + [InboxRow(n, Pending, r.time, r.from, users[r.from])]
      else front
  }

  /** The response entry for a row: the sender fields move into a nested sender. */
  function Format(row: InboxRow): (r: ReceivedRequest)
    ensures r.sender.id == row.senderId && r.sender.username == row.senderUsername
    ensures r.requestId == row.requestId && r.status == row.status && r.time == row.time
  {
    ReceivedRequest(row.requestId, row.status, row.time, Sender(row.senderId, row.senderUsername))
  }

  /** The query's rows, newest first (`ORDER BY fr.timestamp DESC`): one row per inbox request. */
  function SortedInbox(requests: seq<FriendRequest>, users: map<UserId, string>, user: UserId): (rows: seq<InboxRow>)
    ensures forall i, j :: 0 <= i < j < |rows| ==> rows[i].time >= rows[j].time
    ensures forall i :: 0 <= i < |rows| ==>
      InInbox(requests, users, user, rows[i].requestId) && rows[i] == RowOf(requests, users, user, rows[i].requestId)
    ensures forall id :: InInbox(requests, users, user, id) ==> exists i :: 0 <= i < |rows| && rows[i].requestId == id
  {
    var unsorted := InboxRows(requests, users, user);
    assert Ordering.TotalPreorder(NewerFirst);
    var rows := Ordering.Sort(unsorted, NewerFirst);
    assert forall i, j :: 0 <= i < j < |rows| ==> NewerFirst(rows[i], rows[j]);
    SortedRowsMatchInbox(requests, users, user, unsorted, rows);
    rows
  }

  lemma SortedRowsMatchInbox(requests: seq<FriendRequest>, users: map<UserId, string>, user: UserId,
                             unsorted: seq<InboxRow>, rows: seq<InboxRow>)
    requires forall row :: row in unsorted <==>
      InInbox(requests, users, user, row.requestId) && row == RowOf(requests, users, user, row.requestId)
    requires multiset(rows) == multiset(unsorted)
    ensures forall i :: 0 <= i < |rows| ==>
      InInbox(requests, users, user, rows[i].requestId) && rows[i] == RowOf(requests, users, user, rows[i].requestId)
    ensures forall id :: InInbox(requests, users, user, id) ==> exists i :: 0 <= i < |rows| && rows[i].requestId == id
  {
    forall i | 0 <= i < |rows|
      ensures InInbox(requests, users, user, rows[i].requestId) && rows[i] == RowOf(requests, users, user, rows[i].requestId)
    {
      assert rows[i] in multiset(rows);
      assert rows[i] in unsorted;
    }
    forall id | InInbox(requests, users, user, id) ensures exists i :: 0 <= i < |rows| && rows[i].requestId == id {
      var row := RowOf(requests, users, user, id);
      assert row in unsorted;
      assert row in multiset(unsorted);
      assert row in rows;
    }
  }

  /**
   * `get_received_requests(user_id)`: the inbox rows, newest first, each reformatted by the loop
   * that nests the sender and drops the flat sender fields.
   */
  method GetReceivedRequests(db: Database, user: UserId) returns (received: seq<ReceivedRequest>)
    ensures var rows := SortedInbox(db.requests, db.users, user);
      |received| == |rows| && forall i :: 0 <= i < |rows| ==> received[i] == Format(rows[i])
  {
    var rows := SortedInbox(db.requests, db.users, user);
    received := [];
    var i := 0;
    while i < |rows|
      invariant 0 <= i <= |rows| && |received| == i
      invariant forall k :: 0 <= k < i ==> received[k] == Format(rows[k])
    {
      received := received + [Format(rows[i])];
      i := i + 1;
    }
  }

  /** Every entry of the inbox is a pending request to the user, with its sender nested, newest first. */
  lemma ReceivedRequestsArePendingForUser(requests: seq<FriendRequest>, users: map<UserId, string>, user: UserId,
                                          received: seq<ReceivedRequest>)
    requires var rows := SortedInbox(requests, users, user);
      |received| == |rows| && forall i :: 0 <= i < |rows| ==> received[i] == Format(rows[i])
    ensures forall i, j :: 0 <= i < j < |received| ==> received[i].time >= received[j].time
    ensures forall i :: 0 <= i < |received| ==>
      var id := received[i].requestId;
      && 1 <= id <= |requests|
      && requests[id - 1].to == user && requests[id - 1].status == Pending && requests[id - 1].from in users
      && received[i].sender == Sender(requests[id - 1].from, users[requests[id - 1].from])
    ensures forall id :: InInbox(requests, users, user, id) ==> exists i :: 0 <= i < |received| && received[i].requestId == id
  {
    var rows := SortedInbox(requests, users, user);
    forall i, j | 0 <= i < j < |received| ensures received[i].time >= received[j].time {
      assert received[i] == Format(rows[i]) && received[j] == Format(rows[j]);
    }
    forall i | 0 <= i < |received|
      ensures var id := received[i].requestId;
        && 1 <= id <= |requests|
        && requests[id - 1].to == user && requests[id - 1].status == Pending && requests[id - 1].from in users
        && received[i].sender == Sender(requests[id - 1].from, users[requests[id - 1].from])
    {
      assert received[i] == Format(rows[i]);
      assert InInbox(requests, users, user, rows[i].requestId) && rows[i] == RowOf(requests, users, user, rows[i].requestId);
    }
    forall id | InInbox(requests, users, user, id) ensures exists i :: 0 <= i < |received| && received[i].requestId == id {
      var i :| 0 <= i < |rows| && rows[i].requestId == id;
      assert received[i] == Format(rows[i]);
    }
  }
}
