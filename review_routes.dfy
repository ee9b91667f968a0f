/**
 * The guard clauses of the review endpoints (`/reviews/...`): required fields by Python
 * truthiness, the 4000-character limit on a review's text, and the optional `user_id`
 * query parameter. A request that passes is handed to the matching function of `Reviews`.
 */
module ReviewRoutes {
  import opened Wrappers
  import opened Http
  import opened Schema
  import opened Routes
  import Text
  import StockLists
  import Reviews

  /** The longest review text the endpoints accept. */
  const MAX_REVIEW_LENGTH: nat := 4000

  const CREATE_FIELDS_REQUIRED: Response := Response(BAD_REQUEST, "User ID, list ID, and content are required")
  const EDIT_FIELDS_REQUIRED: Response := Response(BAD_REQUEST, "User ID and content are required")
  const REVIEW_TOO_LONG: Response := Response(BAD_REQUEST, "Review content cannot exceed 4000 characters")
  const USER_REQUIRED: Response := Response(BAD_REQUEST, "User ID is required")

  /** `add_review(user_id, list_id, content)` with the values read from the body. */
  datatype AddCall = AddCall(user: Json, listId: Json, content: Json)

  /** `update_review(review_id, user_id, content)`. */
  datatype UpdateCall = UpdateCall(reviewId: ReviewId, user: Json, content: Json)

  /** `get_reviews_for_list(list_id, user_id)`. */
  datatype ListCall = ListCall(listId: ListId, user: Option<int>)

  /** `delete_review(review_id, user_id)`. */
  datatype DeleteCall = DeleteCall(reviewId: ReviewId, user: Json)

  /** The text passes `len(content) > 4000`: it has a length, and it is at most the limit. */
  predicate WithinLimit(content: Json) {
    PyLen(content).Some? && PyLen(content).value <= MAX_REVIEW_LENGTH
  }

  /**
   * The second guard of create and edit, on a truthy `content`: `None` when it passes;
   * otherwise the 400 of a long text, or the 500 of `len` on a number or `True`.
   */
  function LengthRefusal(content: Json): (r: Option<Response>)
    ensures r.None? <==> WithinLimit(content)
    ensures r.Some? ==> r.value.status == (if content.JStr? || content.JList? then BAD_REQUEST else SERVER_ERROR)
  {
    match PyLen(content)
    case None => Some(UNCAUGHT_ERROR)
    case Some(n) => if n > MAX_REVIEW_LENGTH then Some(REVIEW_TOO_LONG) else None
  }

  /** `POST /reviews/add` (create_review). */
  function CreateReview(body: Body): (r: Outcome<AddCall>)
    ensures var (user, list, content) := (Get(body, "user_id"), Get(body, "list_id"), Get(body, "content"));
      && (r.Forward? <==> Truthy(user) && Truthy(list) && Truthy(content) && WithinLimit(content))
      && (!(Truthy(user) && Truthy(list) && Truthy(content)) ==> r == Reject(CREATE_FIELDS_REQUIRED))
      && (Truthy(user) && Truthy(list) && content.JStr? && |content.s| > MAX_REVIEW_LENGTH ==> r == Reject(REVIEW_TOO_LONG))
      && (r.Forward? ==> r.call == AddCall(user, list, content))
  {
    var (user, list, content) := (Get(body, "user_id"), Get(body, "list_id"), Get(body, "content"));
    if !Truthy(user) || !Truthy(list) || !Truthy(content) then Reject(CREATE_FIELDS_REQUIRED)
    else
      match LengthRefusal(content)
      case Some(response) => Reject(response)
      case None => Forward(AddCall(user, list, content))
  }

  /** `PUT /reviews/update/<review_id>` (edit_review). */
  function EditReview(reviewId: ReviewId, body: Body): (r: Outcome<UpdateCall>)
    ensures var (user, content) := (Get(body, "user_id"), Get(body, "content"));
      && (r.Forward? <==> Truthy(user) && Truthy(content) && WithinLimit(content))
      && (!(Truthy(user) && Truthy(content)) ==> r == Reject(EDIT_FIELDS_REQUIRED))
      && (Truthy(user) && content.JStr? && |content.s| > MAX_REVIEW_LENGTH ==> r == Reject(REVIEW_TOO_LONG))
      && (r.Forward? ==> r.call == UpdateCall(reviewId, user, content))
  {
    var (user, content) := (Get(body, "user_id"), Get(body, "content"));
    if !Truthy(user) || !Truthy(content) then Reject(EDIT_FIELDS_REQUIRED)
    else
      match LengthRefusal(content)
      case Some(response) => Reject(response)
      case None => Forward(UpdateCall(reviewId, user, content))
  }

  /** `GET /reviews/list/<list_id>` (get_reviews). */
  function GetReviews(listId: ListId, userArg: Option<string>): (r: Outcome<ListCall>)
    ensures r.Reject? <==> ReadUserArg(userArg).Reject?
    ensures r.Reject? ==> r.response == INVALID_USER_ID
    ensures r.Forward? ==> r.call == ListCall(listId, ReadUserArg(userArg).call)
  {
    match ReadUserArg(userArg)
    case Reject(response) => Reject(response)
    case Forward(user) => Forward(ListCall(listId, user))
  }

  /** `DELETE /reviews/<review_id>` (remove_review). */
  function RemoveReview(reviewId: ReviewId, body: Body): (r: Outcome<DeleteCall>)
    ensures r.Forward? <==> Truthy(Get(body, "user_id"))
    ensures r.Reject? ==> r.response == USER_REQUIRED
    ensures r.Forward? ==> r.call == DeleteCall(reviewId, Get(body, "user_id"))
  {
    var user := Get(body, "user_id");
    if !Truthy(user) then Reject(USER_REQUIRED) else Forward(DeleteCall(reviewId, user))
  }

  /** The limit is inclusive: a 4000-character text passes, one more character is refused. */
  lemma LimitIsInclusive(user: Json, list: Json, text: string, extra: char)
    requires Truthy(user) && Truthy(list) && |text| == MAX_REVIEW_LENGTH
    ensures CreateReview(map["user_id" := user, "list_id" := list, "content" := JStr(text)])
         == Forward(AddCall(user, list, JStr(text)))
    ensures CreateReview(map["user_id" := user, "list_id" := list, "content" := JStr(text + [extra])])
         == Reject(REVIEW_TOO_LONG)
  {
    var long := map["user_id" := user, "list_id" := list, "content" := JStr(text + [extra])];
    assert Get(long, "content") == JStr(text + [extra]);
  }

  /** Whatever text create accepts, edit accepts too: edit checks a subset of the same fields. */
  lemma EditAcceptsWhatCreateAccepts(reviewId: ReviewId, body: Body)
    requires CreateReview(body).Forward?
    ensures EditReview(reviewId, body) == Forward(UpdateCall(reviewId, CreateReview(body).call.user, CreateReview(body).call.content))
  {
  }

  /** A forwarded text is a non-empty string of at most 4000 characters, or a short non-empty list. */
  lemma ForwardedTextIsBounded(body: Body)
    requires CreateReview(body).Forward?
    ensures var content := CreateReview(body).call.content;
      (content.JStr? && 0 < |content.s| <= MAX_REVIEW_LENGTH) || (content.JList? && 0 < |content.items| <= MAX_REVIEW_LENGTH)
  {
  }

  /** A list's reviews requested with a printed user id reach the db layer as that user. */
  lemma GetReviewsOfPrintedId(listId: ListId, id: int)
    ensures GetReviews(listId, Some(Text.IntToString(id))) == Forward(ListCall(listId, Some(id)))
  {
    ReadUserArgOfPrintedId(id);
  }

  /**
   * `?user_id=0` parses, but the db layer's truthiness test then reads it as no user: the
   * reviews it returns are those of an anonymous request.
   */
  lemma ZeroUserReadsAsAnonymous(lists: map<ListId, StockList>, users: map<UserId, string>,
                                 shared: set<(ListId, UserId)>, reviews: map<ReviewId, Review>, listId: ListId)
    ensures GetReviews(listId, Some("0")) == Forward(ListCall(listId, Some(0)))
    ensures Reviews.GetReviewsForList(lists, users, shared, reviews, listId, Some(0))
         == Reviews.GetReviewsForList(lists, users, shared, reviews, listId, None)
  {
    ReadUserArgOfPrintedId(0);
    assert Text.IntToString(0) == "0";
  }
}
