/** The front end's pure display helpers (frontend/src/utils/helpers.js):
    `truncateText`, `formatRatingChange`, `getTimeRemaining`,
    `getStatusBadgeClass` and `handleApiError`. JavaScript's `null` and
    `undefined` are `None`; the current time is the parameter `now`, in
    milliseconds like `Date` arithmetic. */
module Helpers {
  import opened Wrappers
  import opened Text

  // ----- truncateText -----

  /** The length `truncateText` uses when none is given. */
  const DefaultTruncateLength := 100

  /** `truncateText(text, length)`. A missing or empty text gives `''`;
      `substring(0, length)` treats a negative length as 0. */
  function TruncateText(text: Option<string>, length: int := DefaultTruncateLength): (r: string)
    ensures (text.None? || text.value == "") ==> r == ""
    ensures text.Some? && |text.value| <= length ==> r == text.value
    ensures text.Some? && text.value != "" && |text.value| > length ==>
      (length >= 0 ==> |r| == length + 3 && r[..length] == text.value[..length])
      && (length < 0 ==> r == "...")
      && r[|r| - 3..] == "..."
  {
    match text
    case None => ""
    case Some(t) =>
      if t == "" then ""
      else if |t| <= length then t
      else t[..if length < 0 then 0 else length] + "..."
  }

  /** A truncated text never outgrows its limit by more than the marker,
      and it is the text itself or a prefix of it followed by `...`. */
  lemma TruncateTextShape(t: string, length: int)
    requires length >= 0
    ensures |TruncateText(Some(t), length)| <= length + 3
    ensures var r := TruncateText(Some(t), length);
      r == t || (|r| >= 3 && r[|r| - 3..] == "..." && StartsWith(t, r[..|r| - 3]))
  {
    var r := TruncateText(Some(t), length);
    if t != "" && |t| > length {
      assert r[..|r| - 3] == t[..length];
    }
  }

  // ----- formatRatingChange -----

  /** `formatRatingChange(change)`: `''` for a missing change, a `+` before
      a change of at least 0, and the number's own `-` otherwise. */
  function FormatRatingChange(change: Option<int>): (s: string)
    ensures change.None? <==> s == ""
    ensures change.Some? && change.value >= 0 ==> s[0] == '+' && s[1..] == NatToString(change.value)
    ensures change.Some? && change.value < 0 ==> s[0] == '-' && s[1..] == NatToString(-change.value)
  {
    match change
    case None => ""
    case Some(c) => if c >= 0 then "+" + IntToString(c) else IntToString(c)
  }

  /** The signed number a formatted change shows. */
  function ReadRatingChange(s: string): Option<int> {
    if |s| < 2 || !IsDigits(s[1..]) then None
    else
      var magnitude: int := DigitsToNat(s[1..]);
      if s[0] == '+' then Some(magnitude)
      else if s[0] == '-' then Some(-magnitude)
      else None
  }

  /** Every change can be read back from its display, so the sign prefix
      never loses or flips the value; zero shows as `+0`. */
  lemma FormatRatingChangeRoundTrip(change: int)
    ensures ReadRatingChange(FormatRatingChange(Some(change))) == Some(change)
    ensures FormatRatingChange(Some(0)) == "+0"
  {
    var s := FormatRatingChange(Some(change));
    var magnitude: nat := if change >= 0 then change else -change;
    NatToStringRoundTrip(magnitude);
    assert s[1..] == NatToString(magnitude) && |s| >= 2;
    assert DigitsToNat(s[1..]) == magnitude;
  }

  // ----- getTimeRemaining -----

  const MsPerMinute := 60000
  const MsPerHour := 3600000
  const MsPerDay := 86400000

  /** What `getTimeRemaining` decides to show, before it is rendered. */
  datatype Remaining =
    | NoEndDate
    | Ended
    | DaysLeft(days: nat, hours: nat)
    | HoursLeft(hours: nat, minutes: nat)
    | MinutesLeft(minutes: nat)

  /** The arithmetic of `getTimeRemaining(endDate)` at time `now`: whole
      days, then the hours left over, then minutes. */
  function TimeRemaining(endDate: Option<int>, now: int): Remaining {
    match endDate
    case None => NoEndDate
    case Some(end) =>
      var diff := end - now;
      if diff <= 0 then Ended
      else
        var days := diff / MsPerDay;
        var hours := (diff % MsPerDay) / MsPerHour;
        if days > 0 then DaysLeft(days, hours)
        else if hours > 0 then HoursLeft(hours, (diff % MsPerHour) / MsPerMinute)
        else MinutesLeft(diff / MsPerMinute)
  }

  /** What each verdict says about the time left: the shown units are the
      floor of the difference, each smaller unit below its carry, and the
      most significant unit shown is never 0 except in the minutes form. */
  lemma TimeRemainingMeaning(end: int, now: int)
    ensures var diff := end - now;
      match TimeRemaining(Some(end), now)
      case NoEndDate => false
      case Ended => diff <= 0
      case DaysLeft(d, h) =>
        d >= 1 && h < 24 && d * MsPerDay + h * MsPerHour <= diff < d * MsPerDay + (h + 1) * MsPerHour
      case HoursLeft(h, m) =>
        diff < MsPerDay && 1 <= h && m < 60 && h * MsPerHour + m * MsPerMinute <= diff < h * MsPerHour + (m + 1) * MsPerMinute
      case MinutesLeft(m) =>
        0 < diff < MsPerHour && m < 60 && m * MsPerMinute <= diff < (m + 1) * MsPerMinute
  {
    var diff := end - now;
    if diff > 0 {
      var days := diff / MsPerDay;
      var rd := diff % MsPerDay;
      var hours := rd / MsPerHour;
      var rh := rd % MsPerHour;
      assert diff == days * MsPerDay + rd && 0 <= rd < MsPerDay;
      assert rd == hours * MsPerHour + rh && 0 <= rh < MsPerHour;
      DivModByHour(diff, days, rd);
      if days == 0 && hours > 0 {
        var m := (diff % MsPerHour) / MsPerMinute;
        assert diff % MsPerHour == rh;
        assert rh == m * MsPerMinute + rh % MsPerMinute;
      }
    }
  }

  /** Within a day the hours left over are what the whole difference
      leaves after its days. */
  lemma DivModByHour(diff: int, days: int, rd: int)
    requires diff >= 0 && diff == days * MsPerDay + rd && 0 <= rd < MsPerDay
    ensures diff % MsPerHour == rd % MsPerHour
  {
    assert diff == (days * 24 + rd / MsPerHour) * MsPerHour + rd % MsPerHour;
  }

  /** How a count and its unit are shown: `1 day`, `2 days`. */
  function Counted(n: nat, unit: string): string {
    NatToString(n) + " " + unit + (if n != 1 then "s" else "")
  }

  /** The text `getTimeRemaining` returns for a verdict. */
  function RenderRemaining(r: Remaining): string {
    match r
    case NoEndDate => ""
    case Ended => "Ended"
    case DaysLeft(d, h) => Counted(d, "day") + " " + NatToString(h) + "h"
    case HoursLeft(h, m) => NatToString(h) + "h " + NatToString(m) + "m"
    case MinutesLeft(m) => Counted(m, "minute")
  }

  /** A countdown starts with its leading number. */
  lemma CountdownStartsWithDigit(r: Remaining)
    ensures r.DaysLeft? || r.HoursLeft? || r.MinutesLeft? ==> '0' <= RenderRemaining(r)[0] <= '9'
  {
    match r
    case DaysLeft(d, h) => assert RenderRemaining(r)[0] == NatToString(d)[0];
    case HoursLeft(h, m) => assert RenderRemaining(r)[0] == NatToString(h)[0];
    case MinutesLeft(m) => assert RenderRemaining(r)[0] == NatToString(m)[0];
    case _ =>
  }

  /** `getTimeRemaining(endDate)` at time `now`. */
  function GetTimeRemaining(endDate: Option<int>, now: int): (s: string)
    ensures endDate.None? <==> s == ""
    ensures endDate.Some? ==> (s == "Ended" <==> endDate.value <= now)
  {
    var r := TimeRemaining(endDate, now);
    CountdownStartsWithDigit(r);
    RenderRemaining(r)
  }

  /** The unit is plural exactly when the count is not 1. */
  lemma PluralUnlessOne(n: nat, unit: string)
    ensures var s := Counted(n, unit); (s[|s| - 1] == 's' && s[..|s| - 1] == NatToString(n) + " " + unit) <==> n != 1
  {
    var s := Counted(n, unit);
    if n == 1 {
      assert |s[..|s| - 1]| != |NatToString(n) + " " + unit|;
    }
  }

  // ----- getStatusBadgeClass -----

  /** `getStatusBadgeClass(status)`: the class of a known status, or
      `badge-default`. */
  function StatusBadgeClass(status: string): (c: string)
    ensures status in {"upcoming", "ongoing", "completed"} ==> c == "badge-" + status
    ensures status !in {"upcoming", "ongoing", "completed"} <==> c == "badge-default"
  {
    if status == "upcoming" then "badge-upcoming"
    else if status == "ongoing" then "badge-ongoing"
    else if status == "completed" then "badge-completed"
    else "badge-default"
  }

  // ----- handleApiError -----

  /** A value in a JSON error body: a message or a list of messages. */
  datatype DataValue = Str(s: string) | StrList(items: seq<string>)

  /** A server response: its status code and its JSON body (`None` when
      there is none), as `(key, value)` pairs in property order. */
  datatype Response = Response(status: int, data: Option<seq<(string, DataValue)>>)

  /** An Axios error: the server's response if one came, whether a request
      was sent, and the error's own message. */
  datatype ApiError = ApiError(response: Option<Response>, request: bool, message: string)

  /** `Object.values(data).flat()`: the body's messages in order, lists
      spread one level. */
  function FlatValues(data: seq<(string, DataValue)>): (ms: seq<string>)
    decreases |data|
  {
    if |data| == 0 then []
    else
      FlatValues(data[..|data| - 1])
      + match data[|data| - 1].1
        case Str(s) => [s]
        case StrList(items) => items
  }

  /** Every message of the body appears among the flattened values. */
  lemma {:induction false} FlatValuesHasEachMessage(data: seq<(string, DataValue)>)
    ensures forall k :: 0 <= k < |data| && data[k].1.Str? ==> data[k].1.s in FlatValues(data)
    ensures forall k, m :: 0 <= k < |data| && data[k].1.StrList? && m in data[k].1.items ==> m in FlatValues(data)
    decreases |data|
  {
    if |data| > 0 {
      var front := data[..|data| - 1];
      FlatValuesHasEachMessage(front);
      assert forall k :: 0 <= k < |front| ==> front[k] == data[k];
    }
  }

  /** The value under `key`, if the body has one. */
  function Lookup(data: seq<(string, DataValue)>, key: string): Option<DataValue>
    decreases |data|
  {
    if |data| == 0 then None
    else if data[0].0 == key then Some(data[0].1)
    else Lookup(data[1..], key)
  }

  /** JavaScript truthiness of an optional body value: a non-empty string
      or any list. */
  predicate Truthy(v: Option<DataValue>) {
    v.Some? && (v.value.StrList? || v.value.s != "")
  }

  /** `handleApiError(error)`. The result is a `DataValue` because the
      fallback returns `data.message` or `data.detail` as it is, list or
      string. */
  function HandleApiError(error: ApiError): (r: DataValue)
    ensures error.response.Some? && error.response.value.status == 400 && error.response.value.data.Some? ==>
      r == Str(Join(FlatValues(error.response.value.data.value), ". "))
    ensures error.response.Some? && error.response.value.status !in {400, 401, 403, 404, 500} ==>
      var data := error.response.value.data;
      var message := if data.Some? then Lookup(data.value, "message") else None;
      var detail := if data.Some? then Lookup(data.value, "detail") else None;
      r == (if Truthy(message) then message.value else if Truthy(detail) then detail.value else Str("An error occurred."))
    ensures error.response.Some? && error.response.value.status == 400 && error.response.value.data.None? ==>
      r == Str("An error occurred.")
    ensures error.response.None? && error.request ==> r == Str("No response from server. Please check your connection.")
    ensures error.response.None? && !error.request ==>
      r == Str(if error.message != "" then error.message else "An unexpected error occurred.")
  {
    match error.response
    case Some(resp) =>
      if resp.status == 400 && resp.data.Some? then Str(Join(FlatValues(resp.data.value), ". "))
      else if resp.status == 401 then Str("Authentication required. Please login.")
      else if resp.status == 403 then Str("You do not have permission to perform this action.")
      else if resp.status == 404 then Str("Resource not found.")
      else if resp.status == 500 then Str("Server error. Please try again later.")
      else
        var message := if resp.data.Some? then Lookup(resp.data.value, "message") else None;
        var detail := if resp.data.Some? then Lookup(resp.data.value, "detail") else None;
        if Truthy(message) then message.value
        else if Truthy(detail) then detail.value
        else Str("An error occurred.")
    case None =>
      if error.request then Str("No response from server. Please check your connection.")
      else Str(if error.message != "" then error.message else "An unexpected error occurred.")
  }

  /** The fixed messages for the statuses the helper knows. */
  lemma KnownStatusMessages(data: Option<seq<(string, DataValue)>>, request: bool, message: string)
    ensures HandleApiError(ApiError(Some(Response(401, data)), request, message)) == Str("Authentication required. Please login.")
    ensures HandleApiError(ApiError(Some(Response(403, data)), request, message)) == Str("You do not have permission to perform this action.")
    ensures HandleApiError(ApiError(Some(Response(404, data)), request, message)) == Str("Resource not found.")
    ensures HandleApiError(ApiError(Some(Response(500, data)), request, message)) == Str("Server error. Please try again later.")
    ensures HandleApiError(ApiError(Some(Response(400, None)), request, message)) == Str("An error occurred.")
  {
  }

  /** A 400 response shows every validation message of its body. */
  lemma ValidationErrorShowsEachMessage(data: seq<(string, DataValue)>, request: bool, message: string)
    ensures var r := HandleApiError(ApiError(Some(Response(400, Some(data))), request, message));
      && r.Str?
      && (forall k :: 0 <= k < |data| && data[k].1.Str? ==> Contains(r.s, data[k].1.s))
      && (forall k, m :: 0 <= k < |data| && data[k].1.StrList? && m in data[k].1.items ==> Contains(r.s, m))
  {
    var ms := FlatValues(data);
    FlatValuesHasEachMessage(data);
    JoinHasEachPart(ms, ". ");
    forall m | m in ms
      ensures Contains(Join(ms, ". "), m)
    {
      var i :| 0 <= i < |ms| && ms[i] == m;
    }
  }

  /** Once the server has answered, neither the request nor the error's own
      message matters; and every message other than a 400's validation
      list is non-empty. */
  lemma ResponseDecides(error: ApiError)
    ensures error.response.Some? ==> HandleApiError(error) == HandleApiError(ApiError(error.response, false, ""))
    ensures !(error.response.Some? && error.response.value.status == 400 && error.response.value.data.Some?) ==>
      (HandleApiError(error).Str? ==> HandleApiError(error).s != "")
  {
  }
}
