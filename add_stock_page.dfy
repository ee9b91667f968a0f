/**
 * The add-stock-data form: the ordered chain of checks `handleSubmit` runs before it posts
 * a price row, the date floor, the payload it builds, the effect that fills an empty high
 * from open and an empty low from close, and the clearing of the form after a success.
 * The form's text fields are the strings its inputs hold.
 */
module AddStockPage {
  import opened Wrappers
  import Schema
  import Text
  import opened Ui

  /** The earliest date the form takes, the day after the loaded price history ends. */
  const MIN_DATE: string := "2018-02-08"

  const LOGIN_REQUIRED: string := "Please log in to add stock data"
  const FIELDS_REQUIRED: string := "Symbol, date, close price, and volume are required"
  const DATE_TOO_EARLY: string := "Date must be on or after 2018-02-08"
  const INVALID_NUMBERS: string := "Please enter valid numerical values"
  const HIGH_BELOW_LOW: string := "High price must be greater than low price"
  const ADDED: string := "Stock data added successfully"
  const DEFAULT_ERROR: string := "Error adding stock data"

  /**
   * `new Date(text)` for the `YYYY-MM-DD` text a date input holds, as the number YYYYMMDD;
   * `None` stands for an Invalid Date.
   */
  function ParseIsoDate(s: string): (d: Option<Schema.Date>)
    ensures d.Some? ==>
      && |s| == 10 && s[4] == '-' && s[7] == '-'
      && Text.AllDigits(s[..4]) && Text.AllDigits(s[5..7]) && Text.AllDigits(s[8..])
      && 1 <= Text.DigitsValue(s[5..7]) <= 12 && 1 <= Text.DigitsValue(s[8..]) <= 31
      && d.value == Text.DigitsValue(s[..4]) * 10000 + Text.DigitsValue(s[5..7]) * 100 + Text.DigitsValue(s[8..])
  {
    if |s| == 10 && s[4] == '-' && s[7] == '-'
       && Text.AllDigits(s[..4]) && Text.AllDigits(s[5..7]) && Text.AllDigits(s[8..])
    then
      var (y, m, day) := (Text.DigitsValue(s[..4]), Text.DigitsValue(s[5..7]), Text.DigitsValue(s[8..]));
      if 1 <= m <= 12 && 1 <= day <= 31 then Some(y * 10000 + m * 100 + day) else None
    else None
  }

  /** The eight digits of a date text without its dashes. */
  function IsoDigits(s: string): string
    requires |s| == 10
  {
    s[..4] + (s[5..7] + s[8..])
  }

  /** Without its dashes a well-formed date text spells its YYYYMMDD number. */
  lemma IsoDigitsValue(s: string)
    requires ParseIsoDate(s).Some?
    ensures Text.AllDigits(IsoDigits(s)) && Text.DigitsValue(IsoDigits(s)) == ParseIsoDate(s).value
  {
    Text.DigitsValueAppend(s[5..7], s[8..]);
    Text.DigitsValueAppend(s[..4], s[5..7] + s[8..]);
    assert Text.Pow10(2) == 100 && Text.Pow10(4) == 10000;
  }

  /**
   * Well-formed date texts compare as text exactly as their dates compare, which is what makes
   * a date kept as `YYYY-MM-DD` text (`current_date >= "2018-02-08"`) a date comparison.
   */
  lemma IsoTextOrderIsDateOrder(a: string, b: string)
    requires ParseIsoDate(a).Some? && ParseIsoDate(b).Some?
    ensures Text.LexLe(a, b) <==> ParseIsoDate(a).value <= ParseIsoDate(b).value
  {
    var (ya, ma, da) := (a[..4], a[5..7], a[8..]);
    var (yb, mb, db) := (b[..4], b[5..7], b[8..]);
    assert a == ya + ([a[4]] + (ma + ([a[7]] + da)));
    assert b == yb + ([b[4]] + (mb + ([b[7]] + db)));
    Text.LexLeSplit(ya, [a[4]] + (ma + ([a[7]] + da)), yb, [b[4]] + (mb + ([b[7]] + db)));
    Text.LexLeSplit([a[4]], ma + ([a[7]] + da), [b[4]], mb + ([b[7]] + db));
    Text.LexLeSplit(ma, [a[7]] + da, mb, [b[7]] + db);
    Text.LexLeSplit([a[7]], da, [b[7]], db);
    Text.LexLeSplit(ya, ma + da, yb, mb + db);
    Text.LexLeSplit(ma, da, mb, db);
    IsoDigitsValue(a);
    IsoDigitsValue(b);
    Text.DigitsOrderIsNumericOrder(IsoDigits(a), IsoDigits(b));
  }

  /** The form's floor is the backend's first date for new price rows. */
  lemma MinDateIsFirstNewPriceDate()
    ensures ParseIsoDate(MIN_DATE) == Some(Schema.FIRST_NEW_PRICE_DATE)
  {
    assert MIN_DATE[..4] == "2018" && MIN_DATE[5..7] == "02" && MIN_DATE[8..] == "08";
    assert Text.DigitsValue("2018") == 2018 by {
      assert "2018"[..3] == "201" && "201"[..2] == "20" && "20"[..1] == "2" && "2"[..0] == "";
    }
    assert Text.DigitsValue("02") == 2 by {
      assert "02"[..1] == "0" && "0"[..0] == "";
    }
    assert Text.DigitsValue("08") == 8 by {
      assert "08"[..1] == "0" && "0"[..0] == "";
    }
  }

  /**
   * `validateDate(dateStr)`: false for an empty text; false, with the toast, for a date
   * before 2018-02-08; true otherwise. An Invalid Date compares false with `<`, so it passes.
   */
  function ValidateDate(dateStr: string): (r: (bool, Option<string>))
    ensures r.0 <==> dateStr != "" && (ParseIsoDate(dateStr).None? || ParseIsoDate(dateStr).value >= Schema.FIRST_NEW_PRICE_DATE)
    ensures r.1.Some? <==> dateStr != "" && !r.0
    ensures r.1.Some? ==> r.1.value == DATE_TOO_EARLY
  {
    MinDateIsFirstNewPriceDate();
    if dateStr == "" then (false, None)
    else
      match ParseIsoDate(dateStr)
      case Some(d) => if d < Schema.FIRST_NEW_PRICE_DATE then (false, Some(DATE_TOO_EARLY)) else (true, None)
      case None => (true, None)
  }

  /** The body posted to `/stocks/add`; an empty optional price goes as `null`. */
  datatype Payload = Payload(
    userId: int, symbol: string, timestamp: string,
    open: Option<real>, high: Option<real>, low: Option<real>, close: real, volume: int)

  /** The outcome of the checks: the error toast that stops the submission, or the body to post. */
  datatype Check = Refuse(toast: string) | Post(payload: Payload)

  /** `text ? parseFloat(text) : null`: `None` for an empty field, `Some(None)` for NaN. */
  function OptionalPrice(text: string): (p: Option<Option<real>>)
    ensures p.None? <==> text == ""
    ensures p.Some? ==> p.value == Text.JsParseFloat(text)
  {
    if text == "" then None else Some(Text.JsParseFloat(text))
  }

  /** `num !== null && isNaN(num)`: a filled field that does not parse. */
  predicate IsNaN(p: Option<Option<real>>) {
    p.Some? && p.value.None?
  }

  /** The value an optional price is posted with: null for an empty field, otherwise its number. */
  function Posted(p: Option<Option<real>>): Option<real> {
    if p.Some? then p.value else None
  }

  /** An optional price is NaN exactly when its field is filled and does not parse, and is posted as its parse. */
  lemma OptionalPriceReads(text: string)
    ensures IsNaN(OptionalPrice(text)) <==> !NumberOrEmpty(text)
    ensures Posted(OptionalPrice(text)) == if text == "" then None else Text.JsParseFloat(text)
  {
  }

  /** A field that is empty or parses as a number. */
  predicate NumberOrEmpty(text: string) {
    text == "" || Text.JsParseFloat(text).Some?
  }

  /** Every number the form reads parses: the optional prices, the close and the volume. */
  predicate NumbersParse(open: string, high: string, low: string, close: string, volume: string) {
    && NumberOrEmpty(open) && NumberOrEmpty(high) && NumberOrEmpty(low)
    && Text.JsParseFloat(close).Some? && Text.JsParseInt(volume).Some?
  }

  /** Both high and low are given, and high is below low. */
  predicate HighBelowLow(high: string, low: string)
    requires NumberOrEmpty(high) && NumberOrEmpty(low)
  {
    high != "" && low != "" && Text.JsParseFloat(high).value < Text.JsParseFloat(low).value
  }

  /** The checks of `handleSubmit`, in their order, and the payload it posts when they pass. */
  function Validate(user: Option<User>, symbol: string, date: string, open: string, high: string,
                    low: string, close: string, volume: string): (r: Check)
    ensures user.None? ==> r == Refuse(LOGIN_REQUIRED)
    ensures user.Some? && (symbol == "" || date == "" || close == "" || volume == "") ==> r == Refuse(FIELDS_REQUIRED)
    ensures user.Some? && symbol != "" && date != "" && close != "" && volume != "" ==>
      && (!ValidateDate(date).0 ==> r == Refuse(DATE_TOO_EARLY))
      && (ValidateDate(date).0 && !NumbersParse(open, high, low, close, volume) ==> r == Refuse(INVALID_NUMBERS))
      && (ValidateDate(date).0 && NumbersParse(open, high, low, close, volume) && HighBelowLow(high, low)
          ==> r == Refuse(HIGH_BELOW_LOW))
    ensures r.Post? <==>
      && user.Some? && symbol != "" && date != "" && close != "" && volume != ""
      && ValidateDate(date).0
      && NumbersParse(open, high, low, close, volume)
      && !HighBelowLow(high, low)
    ensures r.Post? ==>
      && r.payload.userId == user.value.userId
      && r.payload.symbol == Text.Upper(symbol) && r.payload.timestamp == date
      && (r.payload.open.None? <==> open == "") && (r.payload.high.None? <==> high == "")
      && (r.payload.low.None? <==> low == "")
      && r.payload.open == (if open == "" then None else Text.JsParseFloat(open))
      && r.payload.high == (if high == "" then None else Text.JsParseFloat(high))
      && r.payload.low == (if low == "" then None else Text.JsParseFloat(low))
      && (r.payload.high.Some? && r.payload.low.Some? ==> r.payload.high.value >= r.payload.low.value)
      && Some(r.payload.close) == Text.JsParseFloat(close) && Some(r.payload.volume) == Text.JsParseInt(volume)
  {
    if user.None? then Refuse(LOGIN_REQUIRED)
    else if symbol == "" || date == "" || close == "" || volume == "" then Refuse(FIELDS_REQUIRED)
    else if !ValidateDate(date).0 then Refuse(DATE_TOO_EARLY)
    else CheckNumbers(user.value.userId, symbol, date, open, high, low, close, volume)
  }

  /**
   * The number checks of `handleSubmit` once the date is valid: a field that does not parse,
   * then a high below the low, and otherwise the payload with each number as parsed.
   */
  function CheckNumbers(userId: int, symbol: string, date: string, open: string, high: string,
                        low: string, close: string, volume: string): (r: Check)
    ensures !NumbersParse(open, high, low, close, volume) ==> r == Refuse(INVALID_NUMBERS)
    ensures NumbersParse(open, high, low, close, volume) && HighBelowLow(high, low) ==> r == Refuse(HIGH_BELOW_LOW)
    ensures r.Post? <==> NumbersParse(open, high, low, close, volume) && !HighBelowLow(high, low)
    ensures r.Post? ==>
      && r.payload.userId == userId && r.payload.symbol == Text.Upper(symbol) && r.payload.timestamp == date
      && r.payload.open == (if open == "" then None else Text.JsParseFloat(open))
      && r.payload.high == (if high == "" then None else Text.JsParseFloat(high))
      && r.payload.low == (if low == "" then None else Text.JsParseFloat(low))
      && (r.payload.high.Some? && r.payload.low.Some? ==> r.payload.high.value >= r.payload.low.value)
      && Some(r.payload.close) == Text.JsParseFloat(close) && Some(r.payload.volume) == Text.JsParseInt(volume)
  {
    var numOpen := OptionalPrice(open);
    var numHigh := OptionalPrice(high);
    var numLow := OptionalPrice(low);
    OptionalPriceReads(open); OptionalPriceReads(high); OptionalPriceReads(low);
    if IsNaN(numOpen) || IsNaN(numHigh) || IsNaN(numLow)
       || Text.JsParseFloat(close).None? || Text.JsParseInt(volume).None?
    then Refuse(INVALID_NUMBERS)
    else if numHigh.Some? && numLow.Some? && numHigh.value.value < numLow.value.value then Refuse(HIGH_BELOW_LOW)
    else
      Post(Payload(userId, Text.Upper(symbol), date, Posted(numOpen), Posted(numHigh), Posted(numLow),
                   Text.JsParseFloat(close).value, Text.JsParseInt(volume).value))
  }

  /** Around the floor: with the other fields valid, a parsed date is taken exactly from 2018-02-08 on. */
  lemma DateFloorIsInclusive(user: User, symbol: string, date: string, close: string, volume: string, d: Schema.Date)
    requires symbol != "" && ParseIsoDate(date) == Some(d)
    requires Text.JsParseFloat(close).Some? && Text.JsParseInt(volume).Some? && close != "" && volume != ""
    ensures Validate(Some(user), symbol, date, "", "", "", close, volume).Post? <==> d >= Schema.FIRST_NEW_PRICE_DATE
    ensures d < Schema.FIRST_NEW_PRICE_DATE ==> Validate(Some(user), symbol, date, "", "", "", close, volume) == Refuse(DATE_TOO_EARLY)
  {
    assert date != "";
    assert ValidateDate(date).0 <==> d >= Schema.FIRST_NEW_PRICE_DATE;
    assert NumbersParse("", "", "", close, volume) && !HighBelowLow("", "");
  }

  /** Equal high and low prices are accepted; only a high strictly below the low is refused. */
  lemma EqualHighAndLowAccepted(user: User, symbol: string, date: string, price: string, close: string, volume: string)
    requires symbol != "" && ValidateDate(date).0 && Text.JsParseFloat(price).Some? && price != ""
    requires Text.JsParseFloat(close).Some? && Text.JsParseInt(volume).Some? && close != "" && volume != ""
    ensures Validate(Some(user), symbol, date, "", price, price, close, volume).Post?
  {
  }

  // ---------------------------------------------------------------------------
  // The form's state
  // ---------------------------------------------------------------------------

  /** The value the auto-fill effect gives a field that follows `source` while it is empty. */
  function Filled(source: string, field: string): (r: string)
    ensures r == "" <==> source == "" && field == ""
    ensures field != "" ==> r == field
  {
    if source != "" && field == "" then source else field
  }

  /** Running the effect again changes nothing: after one run it is at rest. */
  lemma FillIsIdempotent(source: string, field: string)
    ensures Filled(source, Filled(source, field)) == Filled(source, field)
  {
  }

  class AddStockForm {
    var user: Option<User>
    var symbol: string
    var date: string
    var open: string
    var high: string
    var low: string
    var close: string
    var volume: string
    var isSubmitting: bool

    /** The form as first rendered, before local storage is read. */
    constructor ()
      ensures user.None? && !isSubmitting
      ensures symbol == "" && date == "" && open == "" && high == "" && low == "" && close == "" && volume == ""
    {
      user, isSubmitting := None, false;
      symbol, date, open, high, low, close, volume := "", "", "", "", "", "", "";
    }

    /** The effect on `[open, close, high, low]`: an empty high takes open, an empty low takes close. */
    method AutoFill()
      modifies this`high, this`low
      ensures high == Filled(open, old(high)) && low == Filled(close, old(low))
    {
      if open != "" && high == "" {
        high := open;
      }
      if close != "" && low == "" {
        low := close;
      }
    }

    /**
     * The synchronous part of `handleSubmit`: the checks, and `isSubmitting` set when a
     * request goes out. No field changes.
     */
    method BeginSubmit() returns (r: Check)
      requires !isSubmitting
      modifies this`isSubmitting
      ensures r == Validate(user, symbol, date, open, high, low, close, volume)
      ensures isSubmitting <==> r.Post?
    {
      r := Validate(user, symbol, date, open, high, low, close, volume);
      if r.Post? {
        isSubmitting := true;
      }
    }

    /**
     * The rest of `handleSubmit` once the request has settled: on success the toast and an
     * empty form; on an error reply, or a thrown error, the error toast with every field
     * kept; `isSubmitting` is reset either way.
     */
    method CompleteSubmit(reply: Reply) returns (toast: Toast)
      requires isSubmitting
      modifies this
      ensures !isSubmitting && user == old(user)
      ensures reply.Ok? ==>
        && toast == SuccessToast(ADDED, "Added " + Text.Upper(old(symbol)) + " data for " + old(date))
        && symbol == "" && date == "" && open == "" && high == "" && low == "" && close == "" && volume == ""
      ensures reply.NotOk? ==> toast == ErrorToast(ErrorText(reply.data, DEFAULT_ERROR))
      ensures reply.Thrown? ==> toast == ErrorToast(reply.message)
      ensures !reply.Ok? ==>
        && symbol == old(symbol) && date == old(date) && open == old(open) && high == old(high)
        && low == old(low) && close == old(close) && volume == old(volume)
    {
      if reply.Ok? {
        toast := SuccessToast(ADDED, "Added " + Text.Upper(symbol) + " data for " + date);
        symbol, date, open, high, low, close := "", "", "", "", "", "";
        volume := "";
      } else if reply.NotOk? {
        toast := ErrorToast(ErrorText(reply.data, DEFAULT_ERROR));
      } else {
        toast := ErrorToast(reply.message);
      }
      isSubmitting := false;
    }
  }
}
