/**
 * The write-review page: before a review can be submitted the page checks that the stock
 * list exists and is readable by the user. `checkedListsRef` caches the keys of lists found
 * so that the check is not repeated; a key is added only after a successful check, so a
 * failed one can be retried, and the "Check List" button deletes the key first so that it
 * always checks again. Each check is split into the part before `await` and the part after
 * the reply.
 */
module WriteReviewPage {
  import opened Wrappers
  import opened Http
  import opened Ui
  import Text
  import ReviewRoutes
  import Routes

  const LOGIN_AND_ID_REQUIRED: string := "Please log in and provide a list ID"
  const LIST_CHECK_FAILED: string := "Failed to fetch stock list"
  const LIST_FOUND: string := "Stock list found: "
  const LOGIN_TO_WRITE: string := "Please log in to write reviews"
  const LOGIN_TO_SUBMIT: string := "Please log in to submit a review"
  const CHECK_FIRST: string := "Please check if the stock list exists first"
  const EMPTY_REVIEW: string := "Review content cannot be empty"
  const SUBMITTED: string := "Review submitted successfully"
  const SUBMIT_FAILED: string := "Failed to submit review"
  const LOGIN_PAGE: string := "/users/login"

  /** The cache key of a checked list: `{listId}-{user_id}`. */
  function CheckKey(id: string, userId: int): string {
    id + "-" + Text.IntToString(userId)
  }

  /** The list is read through the reviews endpoint, always with the user's id. */
  function CheckUrl(id: string, userId: int): string {
    API + "/reviews/list/" + id + "?user_id=" + Text.IntToString(userId)
  }

  /** A check's reply: a good reply reduced to its stock list's name, an error reply, or a thrown error. */
  datatype CheckReply = Found(name: string) | Refused(data: Body) | Failed(message: string)

  /** The body `handleSubmitReview` posts; `parseInt(listId)` gives `null` when it is NaN. */
  datatype ReviewPayload = ReviewPayload(userId: int, listId: Option<int>, content: string)

  /** `JSON.stringify` of the payload, as the backend's `request.json` reads it. */
  function PayloadBody(p: ReviewPayload): (b: Body)
    ensures Get(b, "user_id") == JInt(p.userId) && Get(b, "content") == JStr(p.content)
    ensures Get(b, "list_id") == if p.listId.Some? then JInt(p.listId.value) else JNull
  {
    map["user_id" := JInt(p.userId), "list_id" := (if p.listId.Some? then JInt(p.listId.value) else JNull),
        "content" := JStr(p.content)]
  }

  /** The outcome of the submit guards: a toast (and a page to go to), or the body to post. */
  datatype SubmitCheck = Refuse(toast: string, redirect: Option<string>) | Post(payload: ReviewPayload)

  /** The guards of `handleSubmitReview`, in their order: a user, a checked list, a non-blank text. */
  function CheckSubmit(user: Option<User>, listExists: bool, listId: string, content: string): (r: SubmitCheck)
    ensures user.None? ==> r == Refuse(LOGIN_TO_SUBMIT, Some(LOGIN_PAGE))
    ensures user.Some? && !listExists ==> r == Refuse(CHECK_FIRST, None)
    ensures user.Some? && listExists && Text.Trim(content) == "" ==> r == Refuse(EMPTY_REVIEW, None)
    ensures r.Post? <==> user.Some? && listExists && Text.Trim(content) != ""
    ensures r.Post? ==> r.payload == ReviewPayload(user.value.userId, Text.JsParseInt(listId), content)
  {
    if user.None? then Refuse(LOGIN_TO_SUBMIT, Some(LOGIN_PAGE))
    else if !listExists then Refuse(CHECK_FIRST, None)
    else if Text.Trim(content) == "" then Refuse(EMPTY_REVIEW, None)
    else Post(ReviewPayload(user.value.userId, Text.JsParseInt(listId), content))
  }

  /** A posted review holds at least one character that is not white space. */
  lemma PostedReviewIsNotBlank(user: Option<User>, listExists: bool, listId: string, content: string)
    requires CheckSubmit(user, listExists, listId, content).Post?
    ensures exists i :: 0 <= i < |content| && !Text.IsJsWhitespace(content[i])
  {
    Text.TrimEmptyIffBlank(content);
  }

  /**
   * `handleSubmitReview` has no length guard of its own: a text over 4000 characters with any
   * visible character passes its checks, and the endpoint then refuses it. In the page the
   * textarea's `maxLength` keeps such a text from being typed; that attribute is not modelled.
   */
  lemma LengthLimitIsServerSide(user: User, listId: string, content: string, i: int)
    requires user.userId != 0 && Text.JsParseInt(listId).Some? && Text.JsParseInt(listId).value != 0
    requires |content| > ReviewRoutes.MAX_REVIEW_LENGTH && 0 <= i < |content| && !Text.IsJsWhitespace(content[i])
    ensures CheckSubmit(Some(user), true, listId, content).Post?
    ensures ReviewRoutes.CreateReview(PayloadBody(CheckSubmit(Some(user), true, listId, content).payload))
         == Routes.Reject(ReviewRoutes.REVIEW_TOO_LONG)
  {
    assert !Text.Blank(content);
    Text.TrimEmptyIffBlank(content);
    var r := CheckSubmit(Some(user), true, listId, content);
    assert r.Post?;
    var body := PayloadBody(r.payload);
    var (u, l, c) := (JInt(user.userId), JInt(Text.JsParseInt(listId).value), JStr(content));
    assert Get(body, "user_id") == u && Get(body, "list_id") == l && Get(body, "content") == c;
    assert Truthy(u) && Truthy(l) && Truthy(c);
  }

  class WriteReview {
    var listId: string
    var content: string
    var listExists: bool
    var stockListName: string
    var isCheckingList: bool
    var isSubmitting: bool
    var user: Option<User>
    var checked: set<string>
    var firstRender: bool

    /** The page as first rendered. */
    constructor ()
      ensures listId == "" && content == "" && !listExists && stockListName == ""
      ensures !isCheckingList && !isSubmitting && user.None? && checked == {} && firstRender
    {
      listId, content, listExists, stockListName := "", "", false, "";
      isCheckingList, isSubmitting, user, checked, firstRender := false, false, None, {}, true;
    }

    /** The request part shared by both checks: skipped while checking or for a cached key. */
    method StartCheck(id: string, userId: int) returns (f: Fetch)
      modifies this`isCheckingList
      ensures !f.Started? ==> f == NotStarted(None)
      ensures f.Started? <==> !old(isCheckingList) && CheckKey(id, userId) !in checked
      ensures f.Started? ==> f.url == CheckUrl(id, userId)
      ensures isCheckingList == (old(isCheckingList) || f.Started?)
    {
      if isCheckingList || CheckKey(id, userId) in checked {
        return NotStarted(None);
      }
      isCheckingList := true;
      f := Started(CheckUrl(id, userId));
    }

    /** `checkStockListExistence(id)` up to its request: an id and a user are required. */
    method CheckStockListExistence(id: string) returns (f: Fetch)
      modifies this`isCheckingList
      ensures id == "" || user.None? ==> f == NotStarted(Some(ErrorToast(LOGIN_AND_ID_REQUIRED)))
      ensures id != "" && user.Some? && !f.Started? ==> f == NotStarted(None)
      ensures f.Started? <==> id != "" && user.Some? && !old(isCheckingList) && CheckKey(id, user.value.userId) !in checked
      ensures f.Started? ==> f.url == CheckUrl(id, user.value.userId)
      ensures isCheckingList == (old(isCheckingList) || f.Started?)
    {
      if id == "" || user.None? {
        return NotStarted(Some(ErrorToast(LOGIN_AND_ID_REQUIRED)));
      }
      f := StartCheck(id, user.value.userId);
    }

    /** `checkListDirectly(id, userData)` up to its request: the check the first render schedules. */
    method CheckListDirectly(id: string, userData: User) returns (f: Fetch)
      modifies this`isCheckingList
      ensures !f.Started? ==> f == NotStarted(None)
      ensures f.Started? <==> !old(isCheckingList) && CheckKey(id, userData.userId) !in checked
      ensures f.Started? ==> f.url == CheckUrl(id, userData.userId)
      ensures isCheckingList == (old(isCheckingList) || f.Started?)
    {
      f := StartCheck(id, userData.userId);
    }

    /**
     * The rest of either check once its request with cache key `key` has settled: only a
     * found list adds the key and sets `listExists`; a failure clears it and keeps the key out.
     */
    method CompleteCheck(key: string, reply: CheckReply) returns (toast: Toast)
      requires isCheckingList
      modifies this`checked, this`listExists, this`stockListName, this`isCheckingList
      ensures !isCheckingList
      ensures reply.Found? ==> && checked == old(checked) + {key} && listExists && stockListName == reply.name
                               && toast == SuccessToast(LIST_FOUND + reply.name, "")
      ensures !reply.Found? ==> checked == old(checked) && !listExists && stockListName == ""
      ensures reply.Refused? ==> toast == ErrorToast(ErrorText(reply.data, LIST_CHECK_FAILED))
      ensures reply.Failed? ==> toast == ErrorToast(reply.message)
    {
      match reply {
        case Refused(data) =>
          toast := ErrorToast(ErrorText(data, LIST_CHECK_FAILED));
          listExists, stockListName := false, "";
        case Found(name) =>
          checked := checked + {key};
          listExists, stockListName := true, name;
          toast := SuccessToast(LIST_FOUND + name, "");
        case Failed(message) =>
          toast := ErrorToast(message);
          listExists, stockListName := false, "";
      }
      isCheckingList := false;
    }

    /**
     * `setListId(id)` and the effect on `[listId]`: the effect runs only when the id changes,
     * and a new non-empty id is unchecked until checked again; the same id changes nothing.
     */
    method SetListId(id: string)
      modifies this`listId, this`listExists, this`stockListName
      ensures listId == id
      ensures id != old(listId) && id != "" ==> !listExists && stockListName == ""
      ensures id == old(listId) || id == "" ==> listExists == old(listExists) && stockListName == old(stockListName)
    {
      if id != listId && id != "" {
        listExists, stockListName := false, "";
      }
      listId := id;
    }

    /**
     * The effect on the URL parameters, which acts only while `firstRender` holds: it takes
     * the stored user (or warns), takes `list_id`, and with both schedules `checkListDirectly`
     * for 100 ms later, returning before `firstRender` is cleared.
     */
    method OnSearchParams(storedUser: Option<User>, listIdParam: Option<string>)
      returns (toast: Option<Toast>, scheduled: Option<(string, User)>)
      modifies this`user, this`listId, this`listExists, this`stockListName, this`firstRender
      ensures !old(firstRender) ==> toast.None? && scheduled.None? && unchanged(this)
      ensures old(firstRender) ==>
        && user == (if storedUser.Some? then storedUser else old(user))
        && toast == (if storedUser.None? then Some(ErrorToast(LOGIN_TO_WRITE)) else None)
        && listId == (if listIdParam.Some? && listIdParam.value != "" then listIdParam.value else old(listId))
        && (if listId != old(listId) then !listExists && stockListName == ""
            else listExists == old(listExists) && stockListName == old(stockListName))
        && (scheduled.Some? <==> listIdParam.Some? && listIdParam.value != "" && storedUser.Some?)
        && (scheduled.Some? ==> scheduled.value == (listIdParam.value, storedUser.value))
        && (firstRender <==> scheduled.Some?)
    {
      toast, scheduled := None, None;
      if !firstRender {
        return;
      }
      if storedUser.Some? {
        user := storedUser;
      } else {
        toast := Some(ErrorToast(LOGIN_TO_WRITE));
      }
      if listIdParam.Some? && listIdParam.value != "" {
        SetListId(listIdParam.value);
        if storedUser.Some? {
          scheduled := Some((listIdParam.value, storedUser.value));
          return;
        }
      }
      firstRender := false;
    }

    /** `handleCheckListClick`: the key is deleted first, so a check with a user always goes out unless one is running. */
    method HandleCheckListClick() returns (f: Fetch)
      modifies this`checked, this`isCheckingList
      ensures user.Some? ==> checked == old(checked) - {CheckKey(listId, user.value.userId)}
      ensures user.None? ==> checked == old(checked)
      ensures f.Started? <==> listId != "" && user.Some? && !old(isCheckingList)
      ensures isCheckingList == (old(isCheckingList) || f.Started?)
    {
      if user.Some? {
        checked := checked - {CheckKey(listId, user.value.userId)};
      }
      f := CheckStockListExistence(listId);
    }

    /** `handleSubmitReview` up to its request: the guards, and `isSubmitting` set when it posts. */
    method BeginSubmit() returns (r: SubmitCheck)
      modifies this`isSubmitting
      ensures r == CheckSubmit(user, listExists, listId, content)
      ensures isSubmitting == (old(isSubmitting) || r.Post?)
    {
      r := CheckSubmit(user, listExists, listId, content);
      if r.Post? {
        isSubmitting := true;
      }
    }

    /** The rest of `handleSubmitReview`: a success goes to the list's reviews; `isSubmitting` is reset. */
    method CompleteSubmit(reply: Reply) returns (toast: Toast, navigate: Option<string>)
      modifies this`isSubmitting
      ensures !isSubmitting
      ensures reply.Ok? ==> toast == SuccessToast(SUBMITTED, "") && navigate == Some("/reviews/view?list_id=" + listId)
      ensures reply.NotOk? ==> toast == ErrorToast(ErrorText(reply.data, SUBMIT_FAILED)) && navigate.None?
      ensures reply.Thrown? ==> toast == ErrorToast(reply.message) && navigate.None?
    {
      navigate := None;
      match reply {
        case Ok(_) =>
          toast := SuccessToast(SUBMITTED, "");
          navigate := Some("/reviews/view?list_id=" + listId);
        case NotOk(data) =>
          toast := ErrorToast(ErrorText(data, SUBMIT_FAILED));
        case Thrown(message) =>
          toast := ErrorToast(message);
      }
      isSubmitting := false;
    }
  }

  /** A failed check leaves the key out, so the same check goes out again. */
  method FailedCheckIsRetried(page: WriteReview, id: string, data: Body) returns (first: Fetch, second: Fetch)
    requires id != "" && page.user.Some? && !page.isCheckingList && CheckKey(id, page.user.value.userId) !in page.checked
    modifies page
    ensures first.Started? && second.Started?
  {
    first := page.CheckStockListExistence(id);
    var _ := page.CompleteCheck(CheckKey(id, page.user.value.userId), Refused(data));
    second := page.CheckStockListExistence(id);
  }

  /** After a list is found the same check is skipped, but the "Check List" button still re-checks. */
  method FoundListIsCachedUntilClicked(page: WriteReview, name: string) returns (repeat: Fetch, clicked: Fetch)
    requires page.listId != "" && page.user.Some? && !page.isCheckingList
    requires CheckKey(page.listId, page.user.value.userId) !in page.checked
    modifies page
    ensures repeat == NotStarted(None) && clicked.Started?
  {
    var key := CheckKey(page.listId, page.user.value.userId);
    var first := page.CheckStockListExistence(page.listId);
    var _ := page.CompleteCheck(key, Found(name));
    assert key in page.checked;
    repeat := page.CheckStockListExistence(page.listId);
    clicked := page.HandleCheckListClick();
  }

  /**
   * While the first render's check is pending the URL effect runs again (its callback changes
   * with `isCheckingList`) and sets the same list id: a list found in between stays found.
   */
  method RerunKeepsFoundList(page: WriteReview, stored: User, id: string, name: string) returns (scheduled: Option<(string, User)>)
    requires page.firstRender && !page.isCheckingList && id != "" && CheckKey(id, stored.userId) !in page.checked
    modifies page
    ensures scheduled == Some((id, stored))
    ensures page.listExists && page.stockListName == name && page.listId == id
  {
    var _, first := page.OnSearchParams(Some(stored), Some(id));
    var f := page.CheckListDirectly(first.value.0, first.value.1);
    var _ := page.CompleteCheck(CheckKey(id, stored.userId), Found(name));
    var _, again := page.OnSearchParams(Some(stored), Some(id));
    scheduled := again;
  }
}
