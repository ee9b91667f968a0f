/**
 * The reviews page: it shows either one stock list's reviews or the logged-in user's own,
 * and keeps `fetchedListsRef`, a set of cache keys, so that a direct repeat of a fetch is
 * skipped. A key is added before its request goes out, so it stays even when the request
 * fails; the set is cleared at every run of the URL effect (which runs again whenever its
 * callbacks change, and they change with `listId`, `loading` and `user`), on a manual search and on a
 * switch of view. Each fetch is split into the part before `await` (which decides whether a
 * request goes out) and the part after the reply.
 */
module ReviewsViewPage {
  import opened Wrappers
  import opened Http
  import opened Ui
  import Text

  const ENTER_LIST_ID: string := "Please enter a stock list ID"
  const LIST_FETCH_FAILED: string := "Failed to fetch reviews"
  const USER_FETCH_FAILED: string := "Failed to fetch your reviews"
  const NO_LIST_REVIEWS: string := "No reviews found for this stock list"
  const NO_USER_REVIEWS: string := "You have not written any reviews yet"

  datatype ViewMode = ListView | UserView

  /** `user?.user_id || 'guest'`: a missing user and user id 0 both read as the guest. */
  function Viewer(user: Option<User>): (v: string)
    ensures user.Some? && user.value.userId != 0 ==> v == Text.IntToString(user.value.userId)
    ensures !(user.Some? && user.value.userId != 0) ==> v == "guest"
  {
    if user.Some? && user.value.userId != 0 then Text.IntToString(user.value.userId) else "guest"
  }

  /** The cache key of a list's reviews: `list-{id}-{user_id or 'guest'}`. */
  function ListKey(id: string, user: Option<User>): (k: string)
    ensures k == "list-" + id + "-" + Viewer(user)
  {
    "list-" + id + "-" + Viewer(user)
  }

  /** The cache key of a user's reviews: `user-{userId}`. */
  function UserKey(userId: int): (k: string)
    ensures k == "user-" + Text.IntToString(userId)
  {
    "user-" + Text.IntToString(userId)
  }

  /** `/reviews/list/{id}`, with `?user_id=` when a user object is present (even one with id 0). */
  function ListUrl(id: string, user: Option<User>): string {
    API + "/reviews/list/" + id + (if user.Some? then "?user_id=" + Text.IntToString(user.value.userId) else "")
  }

  /** A list key and a user key never coincide: they differ in their first letter. */
  lemma ListAndUserKeysDiffer(id: string, user: Option<User>, userId: int)
    ensures ListKey(id, user) != UserKey(userId)
  {
    assert ListKey(id, user)[0] == 'l' && UserKey(userId)[0] == 'u';
  }

  /** For one viewer, different list ids get different keys. */
  lemma ListKeysSeparateLists(a: string, b: string, user: Option<User>)
    requires a != b
    ensures ListKey(a, user) != ListKey(b, user)
  {
    var (ka, kb) := (ListKey(a, user), ListKey(b, user));
    if |a| == |b| {
      var i :| 0 <= i < |a| && a[i] != b[i];
      assert ka[5 + i] == a[i] && kb[5 + i] == b[i];
    } else {
      assert |ka| != |kb|;
    }
  }

  /** A logged-in user (id not 0) and the guest get different keys for the same list. */
  lemma UserAndGuestKeysDiffer(id: string, user: User)
    requires user.userId != 0
    ensures ListKey(id, Some(user)) != ListKey(id, None)
  {
    var v := Viewer(Some(user));
    var digits := Text.NatToString(if user.userId < 0 then -user.userId else user.userId);
    assert v[|v| - 1] == digits[|digits| - 1];
    assert Text.IsDigit(digits[|digits| - 1]);
    var (k, g) := (ListKey(id, Some(user)), ListKey(id, None));
    if |k| == |g| {
      assert k[|k| - 1] == v[|v| - 1] && g[|g| - 1] == 't';
    }
  }

  class ReviewsView {
    var listId: string
    var reviews: seq<Json>
    var stockList: Json
    var loading: bool
    var user: Option<User>
    var viewMode: ViewMode
    var fetched: set<string>
    var initialLoadDone: bool

    /** The page as first rendered. */
    constructor ()
      ensures listId == "" && reviews == [] && stockList == JNull && !loading && user.None?
      ensures viewMode == ListView && fetched == {} && !initialLoadDone
    {
      listId, reviews, stockList, loading, user := "", [], JNull, false, None;
      viewMode, fetched, initialLoadDone := ListView, {}, false;
    }

    /**
     * `fetchReviewsForList(id)` up to its request, for the `user` its closure holds: refused
     * with a toast for an empty id, skipped while loading or for a cached key, otherwise the
     * key is cached, `loading` is set and the request goes out.
     */
    method FetchReviewsForList(id: string, asUser: Option<User>) returns (f: Fetch)
      modifies this`fetched, this`loading
      ensures id == "" ==> f == NotStarted(Some(ErrorToast(ENTER_LIST_ID)))
      ensures id != "" && !f.Started? ==> f == NotStarted(None)
      ensures f.Started? <==> id != "" && !old(loading) && ListKey(id, asUser) !in old(fetched)
      ensures f.Started? ==> f.url == ListUrl(id, asUser)
      ensures fetched == if f.Started? then old(fetched) + {ListKey(id, asUser)} else old(fetched)
      ensures loading == (old(loading) || f.Started?)
    {
      if id == "" {
        return NotStarted(Some(ErrorToast(ENTER_LIST_ID)));
      }
      var key := ListKey(id, asUser);
      if loading || key in fetched {
        return NotStarted(None);
      }
      fetched := fetched + {key};
      loading := true;
      f := Started(ListUrl(id, asUser));
    }

    /**
     * The rest of `fetchReviewsForList` once the request has settled. An error reply or a
     * thrown error empties the reviews and the list; a good reply shows its `reviews` (any
     * non-array as `[]`) and `stockList`. The cache is not touched: a failed key stays cached.
     */
    method CompleteListFetch(reply: Reply) returns (toast: Option<Toast>)
      modifies this`reviews, this`stockList, this`viewMode, this`loading, this`initialLoadDone
      ensures !loading && initialLoadDone
      ensures reply.NotOk? ==> && toast == Some(ErrorToast(ErrorText(reply.data, LIST_FETCH_FAILED)))
                               && reviews == [] && stockList == JNull && viewMode == old(viewMode)
      ensures reply.Thrown? ==> && toast == Some(ErrorToast(reply.message))
                                && reviews == [] && stockList == JNull && viewMode == old(viewMode)
      ensures reply.Ok? ==>
        && reviews == (if Get(reply.data, "reviews").JList? then Get(reply.data, "reviews").items else [])
        && stockList == Get(reply.data, "stockList") && viewMode == ListView
        && toast == (if old(initialLoadDone) && reviews == [] then Some(InfoToast(NO_LIST_REVIEWS)) else None)
    {
      toast := None;
      match reply {
        case NotOk(data) =>
          toast := Some(ErrorToast(ErrorText(data, LIST_FETCH_FAILED)));
          reviews, stockList := [], JNull;
        case Ok(data) =>
          var payload := Get(data, "reviews");
          reviews := if payload.JList? then payload.items else [];
          stockList := Get(data, "stockList");
          viewMode := ListView;
          if initialLoadDone && reviews == [] {
            toast := Some(InfoToast(NO_LIST_REVIEWS));
          }
        case Thrown(message) =>
          toast := Some(ErrorToast(message));
          reviews, stockList := [], JNull;
      }
      loading := false;
      initialLoadDone := true;
    }

    /** `fetchUserReviews(userId)` up to its request: nothing for id 0, skipped while loading or for a cached key. */
    method FetchUserReviews(userId: int) returns (f: Fetch)
      modifies this`fetched, this`loading
      ensures !f.Started? ==> f == NotStarted(None)
      ensures f.Started? <==> userId != 0 && !old(loading) && UserKey(userId) !in old(fetched)
      ensures f.Started? ==> f.url == API + "/reviews/user/" + Text.IntToString(userId)
      ensures fetched == if f.Started? then old(fetched) + {UserKey(userId)} else old(fetched)
      ensures loading == (old(loading) || f.Started?)
    {
      if userId == 0 {
        return NotStarted(None);
      }
      var key := UserKey(userId);
      if loading || key in fetched {
        return NotStarted(None);
      }
      fetched := fetched + {key};
      loading := true;
      f := Started(API + "/reviews/user/" + Text.IntToString(userId));
    }

    /** The rest of `fetchUserReviews`: an error empties the reviews; a good reply shows them with no list. */
    method CompleteUserFetch(reply: Reply) returns (toast: Option<Toast>)
      modifies this`reviews, this`stockList, this`viewMode, this`loading, this`initialLoadDone
      ensures !loading && initialLoadDone
      ensures reply.NotOk? ==> && toast == Some(ErrorToast(ErrorText(reply.data, USER_FETCH_FAILED)))
                               && reviews == [] && stockList == old(stockList) && viewMode == old(viewMode)
      ensures reply.Thrown? ==> && toast == Some(ErrorToast(reply.message))
                                && reviews == [] && stockList == old(stockList) && viewMode == old(viewMode)
      ensures reply.Ok? ==>
        && reviews == (if Get(reply.data, "reviews").JList? then Get(reply.data, "reviews").items else [])
        && stockList == JNull && viewMode == UserView
        && toast == (if old(initialLoadDone) && reviews == [] then Some(InfoToast(NO_USER_REVIEWS)) else None)
    {
      toast := None;
      match reply {
        case NotOk(data) =>
          toast := Some(ErrorToast(ErrorText(data, USER_FETCH_FAILED)));
          reviews := [];
        case Ok(data) =>
          var payload := Get(data, "reviews");
          reviews := if payload.JList? then payload.items else [];
          stockList := JNull;
          viewMode := UserView;
          if initialLoadDone && reviews == [] {
            toast := Some(InfoToast(NO_USER_REVIEWS));
          }
        case Thrown(message) =>
          toast := Some(ErrorToast(message));
          reviews := [];
      }
      loading := false;
      initialLoadDone := true;
    }

    /**
     * The effect on the URL parameters: the cache is cleared, the stored user is taken, and
     * then the list named by `list_id` is fetched, or else the stored user's reviews. The list
     * fetch runs with the user of the closure, from before this effect.
     */
    method OnSearchParams(listIdParam: Option<string>, storedUser: Option<User>) returns (f: Fetch)
      modifies this`fetched, this`loading, this`user, this`listId, this`viewMode
      ensures user == if storedUser.Some? then storedUser else old(user)
      ensures listIdParam.Some? && listIdParam.value != "" ==>
        && listId == listIdParam.value && viewMode == ListView
        && (f.Started? <==> !old(loading)) && (f.Started? ==> f.url == ListUrl(listId, old(user)))
        && fetched == (if f.Started? then {ListKey(listId, old(user))} else {})
      ensures !(listIdParam.Some? && listIdParam.value != "") && storedUser.Some? ==>
        && listId == old(listId) && viewMode == UserView
        && (f.Started? <==> !old(loading) && storedUser.value.userId != 0)
        && fetched == (if f.Started? then {UserKey(storedUser.value.userId)} else {})
      ensures !(listIdParam.Some? && listIdParam.value != "") && storedUser.None? ==>
        && f == NotStarted(None) && fetched == {} && listId == old(listId) && viewMode == old(viewMode)
      ensures loading == (old(loading) || f.Started?)
    {
      fetched := {};
      var closureUser := user;
      if storedUser.Some? {
        user := storedUser;
      }
      if listIdParam.Some? && listIdParam.value != "" {
        listId := listIdParam.value;
        viewMode := ListView;
        f := FetchReviewsForList(listIdParam.value, closureUser);
      } else if storedUser.Some? {
        viewMode := UserView;
        f := FetchUserReviews(storedUser.value.userId);
      } else {
        f := NotStarted(None);
      }
    }

    /**
     * `handleSearch`: the cache is cleared, so the list is fetched again unless a fetch is
     * running; without a list id nothing is sent and the user is asked for one.
     */
    method HandleSearch() returns (f: Fetch)
      modifies this`fetched, this`loading
      ensures listId == "" ==> f == NotStarted(Some(ErrorToast(ENTER_LIST_ID)))
      ensures listId != "" && !f.Started? ==> f == NotStarted(None)
      ensures f.Started? <==> listId != "" && !old(loading)
      ensures f.Started? ==> f.url == ListUrl(listId, user)
      ensures fetched == if f.Started? then {ListKey(listId, user)} else {}
      ensures loading == (old(loading) || f.Started?)
    {
      fetched := {};
      f := FetchReviewsForList(listId, user);
    }

    /** `handleViewModeSwitch(userId)`: the cache is cleared and the view switches to the user's reviews. */
    method HandleViewModeSwitch(userId: int) returns (f: Fetch)
      modifies this`fetched, this`loading, this`viewMode
      ensures viewMode == UserView
      ensures f.Started? <==> userId != 0 && !old(loading)
      ensures fetched == if f.Started? then {UserKey(userId)} else {}
      ensures loading == (old(loading) || f.Started?)
    {
      fetched := {};
      viewMode := UserView;
      f := FetchUserReviews(userId);
    }
  }

  /**
   * A direct repeat of a fetch that failed is skipped: its key was cached before the request
   * went out, and the failure leaves the cache alone.
   */
  method FailedListFetchStaysCached(page: ReviewsView, id: string, message: string) returns (first: Fetch, second: Fetch)
    requires id != "" && !page.loading && ListKey(id, page.user) !in page.fetched
    modifies page
    ensures first.Started? && second == NotStarted(None)
  {
    first := page.FetchReviewsForList(id, page.user);
    var _ := page.CompleteListFetch(Thrown(message));
    second := page.FetchReviewsForList(id, page.user);
  }

  /**
   * A run of the URL effect clears the cache first. The effect runs again after a fetch settles
   * (its callback changes with `loading`), so a list fetch that failed is sent again.
   */
  method EffectRerunRefetchesList(page: ReviewsView, id: string, stored: Option<User>, message: string)
    returns (first: Fetch, again: Fetch)
    requires id != "" && !page.loading
    modifies page
    ensures first.Started? && again.Started?
    ensures again.url == ListUrl(id, if stored.Some? then stored else old(page.user))
  {
    first := page.OnSearchParams(Some(id), stored);
    var _ := page.CompleteListFetch(Thrown(message));
    again := page.OnSearchParams(Some(id), stored);
  }
}
