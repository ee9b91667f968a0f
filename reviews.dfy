/**
 * Reviews of stock lists: who may see a list (`can_access_list`), adding a review (one per user
 * and list), editing and deleting one (author only), and reading a list's reviews with the
 * visibility gate in front.
 */
module Reviews {
  import opened Wrappers
  import opened Http
  import opened Schema
  import Ordering
  import Text
  import StockLists

  /**
   * `can_access_list(user_id, list_id)`: a missing list is closed; a public one is open to
   * everyone; the creator always has access; a shared list is open to the users it is shared
   * with; anything else is closed.
   */
  function CanAccessList(lists: map<ListId, StockList>, shared: set<(ListId, UserId)>, user: UserId, listId: ListId)
    : (ok: bool)
    ensures listId !in lists ==> !ok
    ensures listId in lists && lists[listId].visibility == PUBLIC ==> ok
    ensures listId in lists && lists[listId].owner == user ==> ok
    ensures listId in lists && lists[listId].visibility != PUBLIC && lists[listId].owner != user ==>
      (ok <==> lists[listId].visibility == SHARED && (listId, user) in shared)
  {
    if listId !in lists then false
    else if lists[listId].visibility == PUBLIC then true
    else if lists[listId].owner == user then true
    else if lists[listId].visibility == SHARED then (listId, user) in shared
    else false
  }

  /** A share row opens a private list to nobody but its creator. */
  lemma PrivateListIsOwnerOnly(lists: map<ListId, StockList>, shared: set<(ListId, UserId)>, user: UserId, listId: ListId)
    requires listId in lists && lists[listId].visibility == PRIVATE
    ensures CanAccessList(lists, shared, user, listId) <==> lists[listId].owner == user
  {
  }

  /**
   * The stock-list listing and `can_access_list` agree, except on a list whose visibility is
   * not "shared" but which still has a share row for a user who is not its creator: the listing
   * shows it to that user (tagged shared), while `can_access_list` refuses them.
   */
  lemma ListingAgreesWithAccess(lists: map<ListId, StockList>, users: map<UserId, string>,
                                shared: set<(ListId, UserId)>, user: UserId, listId: ListId)
    requires user != 0 && listId in lists && lists[listId].owner in users
    requires IsVisibility(lists[listId].visibility)
    requires lists[listId].visibility == SHARED || lists[listId].owner == user || (listId, user) !in shared
    ensures StockLists.Listed(lists, users, shared, Some(user), None, listId) <==> CanAccessList(lists, shared, user, listId)
  {
  }

  /** The case where the two disagree: a private list with a share row is listed but not accessible. */
  lemma SharedPrivateListIsListedButClosed(lists: map<ListId, StockList>, users: map<UserId, string>,
                                           shared: set<(ListId, UserId)>, user: UserId, listId: ListId)
    requires user != 0 && listId in lists && lists[listId].owner in users
    requires lists[listId].visibility == PRIVATE && lists[listId].owner != user && (listId, user) in shared
    ensures StockLists.Listed(lists, users, shared, Some(user), None, listId)
    ensures StockLists.Access(lists[listId], listId, user, shared) == StockLists.Shared
    ensures !CanAccessList(lists, shared, user, listId)
  {
  }

  // ---------------------------------------------------------------------------
  // add_review, update_review, delete_review
  // ---------------------------------------------------------------------------

  /** `SELECT EXISTS(... FROM Reviews WHERE user_id = %s AND list_id = %s)`. */
  predicate HasReview(reviews: map<ReviewId, Review>, user: UserId, listId: ListId) {
    exists id :: id in reviews && reviews[id].user == user && reviews[id].list == listId
  }

  /** `SELECT EXISTS(... FROM Reviews WHERE review_id = %s AND user_id = %s)`. */
  predicate IsAuthor(reviews: map<ReviewId, Review>, reviewId: ReviewId, user: UserId) {
    reviewId in reviews && reviews[reviewId].user == user
  }

  const REVIEW_FORBIDDEN: string := "You don't have permission to review this list"
  const REVIEW_EXISTS: string := "You already have a review for this list. Edit your existing review instead."
  const REVIEW_USER_MISSING: string := "insert or update on table \"reviews\" violates foreign key constraint"
  const REVIEW_ADDED: string := "Review added successfully"

  /** A review stored under the next SERIAL id, for an existing list the user has not reviewed, keeps the invariants. */
  lemma NewReviewKeepsTables(reviews: map<ReviewId, Review>, lists: map<ListId, StockList>, next: ReviewId, review: Review)
    requires KeysBelow(reviews.Keys, next) && ReviewsInLists(reviews, lists) && OneReviewPerUserAndList(reviews)
    requires review.list in lists && !HasReview(reviews, review.user, review.list)
    ensures next !in reviews
    ensures var after := reviews[next := review];
      KeysBelow(after.Keys, next + 1) && ReviewsInLists(after, lists) && OneReviewPerUserAndList(after)
  {
  }

  datatype ReviewResult =
    | ReviewRefused(response: Response)
    | ReviewStored(response: Response, reviewId: ReviewId, review: Review, username: string)

  /**
   * `add_review(user_id, list_id, content)` at time `now`. A user without a Users row cannot be
   * stored (the insert's foreign key, then the username lookup), which is a 500 with nothing kept
   * but the SERIAL value the insert drew.
   */
  method AddReview(db: Database, user: UserId, listId: ListId, content: string, now: Seconds) returns (result: ReviewResult)
    requires db.Valid()
    modifies db`reviews, db`nextReviewId
    ensures db.Valid()
    ensures !CanAccessList(db.lists, db.sharedLists, user, listId) ==>
      result == ReviewRefused(Response(FORBIDDEN, REVIEW_FORBIDDEN)) && unchanged(db)
    ensures CanAccessList(db.lists, db.sharedLists, user, listId) && HasReview(old(db.reviews), user, listId) ==>
      && result == ReviewRefused(Response(BAD_REQUEST, REVIEW_EXISTS))
      && unchanged(db)
    ensures CanAccessList(db.lists, db.sharedLists, user, listId) && !HasReview(old(db.reviews), user, listId)
            && user !in db.users ==>
      && result.ReviewRefused? && result.response.status == SERVER_ERROR
      && db.reviews == old(db.reviews) && db.nextReviewId == old(db.nextReviewId) + 1
    ensures CanAccessList(db.lists, db.sharedLists, user, listId) && !HasReview(old(db.reviews), user, listId)
            && user in db.users ==>
      && old(db.nextReviewId) !in old(db.reviews)
      && db.reviews == old(db.reviews)[old(db.nextReviewId) := Review(user, listId, content, now)]
      && db.nextReviewId == old(db.nextReviewId) + 1
      && result == ReviewStored(Response(CREATED, REVIEW_ADDED), old(db.nextReviewId),
                                Review(user, listId, content, now), db.users[user])
    ensures HasReview(old(db.reviews), user, listId) ==> db.reviews == old(db.reviews)
  {
    if !CanAccessList(db.lists, db.sharedLists, user, listId) {
      return ReviewRefused(Response(FORBIDDEN, REVIEW_FORBIDDEN));
    }
    if HasReview(db.reviews, user, listId) {
      return ReviewRefused(Response(BAD_REQUEST, REVIEW_EXISTS));
    }
    if user !in db.users {
      db.nextReviewId := db.nextReviewId + 1;
      return ReviewRefused(Response(SERVER_ERROR, REVIEW_USER_MISSING));
    }
    var id := db.nextReviewId;
    var review := Review(user, listId, content, now);
    NewReviewKeepsTables(db.reviews, db.lists, id, review);
    db.reviews := db.reviews[id := review];
    db.nextReviewId := id + 1;
    result := ReviewStored(Response(CREATED, REVIEW_ADDED), id, review, db.users[user]);
  }

  /** `update_review(review_id, user_id, content)`: only the author may edit, and only the content changes. */
  method UpdateReview(db: Database, reviewId: ReviewId, user: UserId, content: string) returns (result: ReviewResult)
    requires db.Valid()
    modifies db`reviews
    ensures db.Valid()
    ensures !IsAuthor(old(db.reviews), reviewId, user) ==>
      result == ReviewRefused(Response(FORBIDDEN, "Review not found or you don't have permission to edit it"))
      && unchanged(db)
    ensures IsAuthor(old(db.reviews), reviewId, user) ==>
      && db.reviews == old(db.reviews)[reviewId := old(db.reviews)[reviewId].(content := content)]
      && result.ReviewStored? && result.response == Response(OK, "Review updated successfully")
      && result.reviewId == reviewId && result.review == db.reviews[reviewId]
  {
    if !IsAuthor(db.reviews, reviewId, user) {
      return ReviewRefused(Response(FORBIDDEN, "Review not found or you don't have permission to edit it"));
    }
    var review := db.reviews[reviewId].(content := content);
    db.reviews := db.reviews[reviewId := review];
    var username := if user in db.users then db.users[user] else "";
    result := ReviewStored(Response(OK, "Review updated successfully"), reviewId, review, username);
  }

  /** `delete_review(review_id, user_id)`: only the author may delete, and only that review goes. */
  method DeleteReview(db: Database, reviewId: ReviewId, user: UserId) returns (response: Response)
    requires db.Valid()
    modifies db`reviews
    ensures db.Valid()
    ensures !IsAuthor(old(db.reviews), reviewId, user) ==>
      response == Response(FORBIDDEN, "Review not found or you don't have permission to delete it") && unchanged(db)
    ensures IsAuthor(old(db.reviews), reviewId, user) ==>
      && db.reviews == old(db.reviews) - {reviewId}
      && response == Response(OK, "Review " + Text.IntToString(reviewId) + " deleted successfully")
  {
    if !IsAuthor(db.reviews, reviewId, user) {
      return Response(FORBIDDEN, "Review not found or you don't have permission to delete it");
    }
    db.reviews := db.reviews - {reviewId};
    response := Response(OK, "Review " + Text.IntToString(reviewId) + " deleted successfully");
  }

  /** Deleting a review lets its author add one to the same list again. */
  lemma DeleteReopensReview(reviews: map<ReviewId, Review>, reviewId: ReviewId, user: UserId)
    requires OneReviewPerUserAndList(reviews) && IsAuthor(reviews, reviewId, user)
    ensures HasReview(reviews, user, reviews[reviewId].list)
    ensures !HasReview(reviews - {reviewId}, user, reviews[reviewId].list)
  {
  }

  /** Adding a review and deleting it again leaves the table as it was. */
  lemma AddThenDeleteRestores(reviews: map<ReviewId, Review>, id: ReviewId, review: Review)
    requires id !in reviews
    ensures reviews[id := review] - {id} == reviews
  {
    assert (reviews[id := review] - {id}).Keys == reviews.Keys;
  }

  /** Editing keeps the author and the list, so it can never create a second review for a pair. */
  lemma UpdateKeepsOnePerPair(reviews: map<ReviewId, Review>, reviewId: ReviewId, content: string)
    requires OneReviewPerUserAndList(reviews) && reviewId in reviews
    ensures OneReviewPerUserAndList(reviews[reviewId := reviews[reviewId].(content := content)])
  {
    var after := reviews[reviewId := reviews[reviewId].(content := content)];
    forall a, b | a in after && b in after && a != b
      ensures after[a].user != after[b].user || after[a].list != after[b].list
    {
      assert after[a].user == reviews[a].user && after[a].list == reviews[a].list;
      assert after[b].user == reviews[b].user && after[b].list == reviews[b].list;
    }
  }

  // ---------------------------------------------------------------------------
  // get_reviews_for_list
  // ---------------------------------------------------------------------------

  /** One row of the listing: the review joined with its author's username. */
  datatype ReviewRow = ReviewRow(id: ReviewId, review: Review, username: string)

  /** A review of `listId` whose author has a Users row (the JOIN). */
  predicate ReviewOf(reviews: map<ReviewId, Review>, users: map<UserId, string>, listId: ListId, id: ReviewId) {
    id in reviews && reviews[id].list == listId && reviews[id].user in users
  }

  predicate AscendingReviewId(a: ReviewId, b: ReviewId) {
    a <= b
  }

  predicate NewerFirst(a: ReviewRow, b: ReviewRow) {
    a.review.time >= b.review.time
  }

  /** The joined rows of the reviews of `listId`, in id order. */
  function ReviewRows(reviews: map<ReviewId, Review>, users: map<UserId, string>, listId: ListId): (rows: seq<ReviewRow>)
    ensures forall row :: row in rows <==>
      ReviewOf(reviews, users, listId, row.id) && row == ReviewRow(row.id, reviews[row.id], users[reviews[row.id].user])
  {
    var own := set id | id in reviews && ReviewOf(reviews, users, listId, id);
    var ids := Ordering.Elements(own, AscendingReviewId);
    assert forall i :: 0 <= i < |ids| ==> ids[i] in own;
    var rows := seq(|ids|, i requires 0 <= i < |ids| && ReviewOf(reviews, users, listId, ids[i]) =>
      ReviewRow(ids[i], reviews[ids[i]], users[reviews[ids[i]].user]));
    ReviewRowsCover(reviews, users, listId, own, ids, rows);
    rows
  }

  lemma ReviewRowsCover(reviews: map<ReviewId, Review>, users: map<UserId, string>, listId: ListId,
                        own: set<ReviewId>, ids: seq<ReviewId>, rows: seq<ReviewRow>)
    requires forall id :: id in own <==> ReviewOf(reviews, users, listId, id)
    requires forall id :: id in ids <==> id in own
    requires |rows| == |ids|
    requires forall i :: 0 <= i < |ids| ==>
      ReviewOf(reviews, users, listId, ids[i]) && rows[i] == ReviewRow(ids[i], reviews[ids[i]], users[reviews[ids[i]].user])
    ensures forall row :: row in rows <==>
      ReviewOf(reviews, users, listId, row.id) && row == ReviewRow(row.id, reviews[row.id], users[reviews[row.id].user])
  {
    forall row ensures row in rows <==>
      ReviewOf(reviews, users, listId, row.id) && row == ReviewRow(row.id, reviews[row.id], users[reviews[row.id].user])
    {
      if ReviewOf(reviews, users, listId, row.id) && row == ReviewRow(row.id, reviews[row.id], users[reviews[row.id].user]) {
        assert row.id in own;
        var i :| 0 <= i < |ids| && ids[i] == row.id;
        assert rows[i] == row;
      }
    }
  }

  datatype ReviewsResult =
    | ReviewsDenied(response: Response)
    | ReviewsListed(reviews: seq<ReviewRow>, listId: ListId, list: StockList, creatorName: string)

  /**
   * `get_reviews_for_list(list_id, user_id)`: 404 for a list that is missing or whose creator has
   * no Users row; a public list's reviews for anyone; otherwise a user is required (400) and must
   * be the creator or have access (403). Reviews come newest first.
   */
  function GetReviewsForList(lists: map<ListId, StockList>, users: map<UserId, string>, shared: set<(ListId, UserId)>,
                             reviews: map<ReviewId, Review>, listId: ListId, user: Option<UserId>): (r: ReviewsResult)
    ensures r.ReviewsListed? <==>
      && listId in lists && lists[listId].owner in users
      && (lists[listId].visibility == PUBLIC
          || (StockLists.UserGiven(user) && CanAccessList(lists, shared, user.value, listId)))
    ensures (listId !in lists || lists[listId].owner !in users) ==>
      r == ReviewsDenied(Response(NOT_FOUND, "Stock list not found"))
    ensures listId in lists && lists[listId].owner in users && lists[listId].visibility != PUBLIC
            && !StockLists.UserGiven(user) ==>
      r == ReviewsDenied(Response(BAD_REQUEST, "User ID required to view reviews for non-public lists"))
    ensures listId in lists && lists[listId].owner in users && lists[listId].visibility != PUBLIC
            && StockLists.UserGiven(user) && !CanAccessList(lists, shared, user.value, listId) ==>
      r == ReviewsDenied(Response(FORBIDDEN, "You don't have permission to view reviews for this list"))
    ensures r.ReviewsListed? ==>
      && r.listId == listId && r.list == lists[listId] && r.creatorName == users[lists[listId].owner]
      && Ordering.SortedBy(r.reviews, NewerFirst)
      && multiset(r.reviews) == multiset(ReviewRows(reviews, users, listId))
  {
    if listId !in lists || lists[listId].owner !in users then
      ReviewsDenied(Response(NOT_FOUND, "Stock list not found"))
    else
      var list := lists[listId];
      assert Ordering.TotalPreorder(NewerFirst);
      var listed := ReviewsListed(Ordering.Sort(ReviewRows(reviews, users, listId), NewerFirst),
                                  listId, list, users[list.owner]);
      if list.visibility == PUBLIC then listed
      else if !StockLists.UserGiven(user) then
        ReviewsDenied(Response(BAD_REQUEST, "User ID required to view reviews for non-public lists"))
      else if list.owner != user.value && !CanAccessList(lists, shared, user.value, listId) then
        ReviewsDenied(Response(FORBIDDEN, "You don't have permission to view reviews for this list"))
      else listed
  }

  /** Whoever may add a review to a list may also read its reviews. */
  lemma ReviewersCanRead(lists: map<ListId, StockList>, users: map<UserId, string>, shared: set<(ListId, UserId)>,
                         reviews: map<ReviewId, Review>, listId: ListId, user: UserId)
    requires user != 0 && CanAccessList(lists, shared, user, listId) && listId in lists && lists[listId].owner in users
    ensures GetReviewsForList(lists, users, shared, reviews, listId, Some(user)).ReviewsListed?
  {
  }

  /** Every listed review belongs to the list asked for. */
  lemma ListedReviewsBelongToList(lists: map<ListId, StockList>, users: map<UserId, string>,
                                  shared: set<(ListId, UserId)>, reviews: map<ReviewId, Review>, listId: ListId,
                                  user: Option<UserId>)
    ensures var r := GetReviewsForList(lists, users, shared, reviews, listId, user);
      r.ReviewsListed? ==> forall i :: 0 <= i < |r.reviews| ==> r.reviews[i].review.list == listId
  {
    var r := GetReviewsForList(lists, users, shared, reviews, listId, user);
    if r.ReviewsListed? {
      forall i | 0 <= i < |r.reviews| ensures r.reviews[i].review.list == listId {
        assert r.reviews[i] in multiset(r.reviews);
      }
    }
  }
}
