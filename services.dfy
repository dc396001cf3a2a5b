/**
 * The REST client (`services.ts`): decoding of the `{success, data}`
 * envelope, the precedence of error messages, the getters that return
 * `null` or `[]` instead of failing, and the chapter-count utilities.
 *
 * An HTTP exchange is an input: the response body, or the error axios
 * raised together with the body of the error response, if any.
 */
module Services {
  import opened Wrappers
  import ClientTypes
  import Helpers
  import Text

  /** A JSON value as JavaScript sees it after parsing; `JUndefined` is a missing key. */
  datatype Json =
    | JUndefined
    | JNull
    | JBool(b: bool)
    | JNum(n: int)
    | JStr(s: string)
    | JArr(items: seq<Json>)
    | JObj(fields: map<string, Json>)

  /** JavaScript truthiness (numbers are integers here, so `NaN` does not arise). */
  predicate Truthy(j: Json) {
    match j
    case JUndefined => false
    case JNull => false
    case JBool(b) => b
    case JNum(n) => n != 0
    case JStr(s) => s != ""
    case JArr(_) => true
    case JObj(_) => true
  }

  /** `j?.key` */
  function Prop(j: Json, key: string): Json {
    if j.JObj? && key in j.fields then j.fields[key] else JUndefined
  }

  /** `a || b` */
  function Or(a: Json, b: Json): (r: Json)
    ensures Truthy(a) ==> r == a
    ensures !Truthy(a) ==> r == b
  {
    if Truthy(a) then a else b
  }

  /** An object with both a `success` and a `data` key. */
  predicate IsEnvelope(data: Json) {
    data.JObj? && "success" in data.fields && "data" in data.fields
  }

  /** What axios reports when a request fails: the error response's body (if any) and the error's message. */
  datatype AxiosError = AxiosError(responseData: Json, message: string)

  datatype Exchange = Responded(data: Json) | Failed(error: AxiosError)

  datatype Result = Ok(value: Json) | Err(message: Json)

  /** The body `apiCall` returns: the envelope's `data`, or the whole body. */
  function Unwrap(data: Json): (r: Json)
    ensures IsEnvelope(data) ==> r == data.fields["data"]
    ensures !IsEnvelope(data) ==> r == data
  {
    if IsEnvelope(data) then data.fields["data"] else data
  }

  /** The server's success envelope `{success: true, data}`. */
  function Envelope(data: Json): Json {
    JObj(map["success" := JBool(true), "data" := data])
  }

  /** Unwrapping undoes the server's envelope, whatever the payload. */
  lemma UnwrapEnvelope(data: Json)
    ensures Unwrap(Envelope(data)) == data
  {
    assert IsEnvelope(Envelope(data));
  }

  /**
   * The message of the error `apiCall` throws: the first truthy of the error
   * body's `error`, its `message`, the axios message and the default.
   */
  function ErrorMessage(e: AxiosError, default: string): (m: Json)
    ensures Truthy(Prop(e.responseData, "error")) ==> m == Prop(e.responseData, "error")
    ensures !Truthy(Prop(e.responseData, "error")) && Truthy(Prop(e.responseData, "message")) ==>
      m == Prop(e.responseData, "message")
    ensures !Truthy(Prop(e.responseData, "error")) && !Truthy(Prop(e.responseData, "message")) ==>
      m == (if e.message != "" then JStr(e.message) else JStr(default))
  {
    Or(Prop(e.responseData, "error"), Or(Prop(e.responseData, "message"), Or(JStr(e.message), JStr(default))))
  }

  /** With a non-empty default the thrown message is never empty, and it is always one of the four candidates. */
  lemma ErrorMessageChoice(e: AxiosError, default: string)
    ensures default != "" ==> Truthy(ErrorMessage(e, default))
    ensures ErrorMessage(e, default) in
      [Prop(e.responseData, "error"), Prop(e.responseData, "message"), JStr(e.message), JStr(default)]
  {
  }

  /** `apiCall` */
  function ApiCall(x: Exchange, default: string): (r: Result)
    ensures x.Responded? <==> r.Ok?
    ensures x.Responded? ==> r.value == Unwrap(x.data)
    ensures x.Failed? ==> r.message == ErrorMessage(x.error, default)
  {
    match x
    case Responded(data) => Ok(Unwrap(data))
    case Failed(e) => Err(ErrorMessage(e, default))
  }

  /** The elements of an array value, or nothing for any other value. */
  function ArrayOrEmpty(j: Json): seq<Json> {
    if j.JArr? then j.items else []
  }

  /** `novelAPI.getNovels`: the wrapped array, or the bare array, and `[]` for anything else or on failure. */
  function GetNovels(x: Exchange): (r: seq<Json>)
    ensures x.Failed? ==> r == []
    ensures x.Responded? && IsEnvelope(x.data) ==>
      r == (if x.data.fields["data"].JArr? then x.data.fields["data"].items else [])
    ensures x.Responded? && !IsEnvelope(x.data) ==> r == (if x.data.JArr? then x.data.items else [])
  {
    match x
    case Failed(_) => []
    case Responded(data) =>
      if data.JObj? && "success" in data.fields && "data" in data.fields then
        (if data.fields["data"].JArr? then data.fields["data"].items else [])
      else if data.JArr? then data.items
      else []
  }

  /** `getNovels` agrees with decoding by `apiCall` and keeping only an array result. */
  lemma GetNovelsIsApiCallThenArray(x: Exchange)
    ensures GetNovels(x) == (match ApiCall(x, "") case Ok(v) => ArrayOrEmpty(v) case Err(_) => [])
  {
  }

  /**
   * The getters that never throw (`getNovelById` and `getChapter` with `null`,
   * `searchNovels`, `getAllUsers`, `getNovelsByStatus` and `getAllNovels` with `[]`).
   */
  function OrFallback(x: Exchange, default: string, fallback: Json): (r: Json)
    ensures ApiCall(x, default).Ok? ==> r == ApiCall(x, default).value
    ensures ApiCall(x, default).Err? ==> r == fallback
  {
    match ApiCall(x, default)
    case Ok(v) => v
    case Err(_) => fallback
  }

  /** A failed lookup gives `null` and a failed listing `[]`; a success gives the unwrapped body. */
  lemma NeverThrowingGetters(x: Exchange, id: string)
    ensures x.Failed? ==> GetNovelById(x, id) == JNull && SearchNovels(x) == JArr([])
    ensures x.Responded? ==> GetNovelById(x, id) == Unwrap(x.data) && SearchNovels(x) == Unwrap(x.data)
  {
  }

  function GetNovelById(x: Exchange, id: string): Json {
    OrFallback(x, "Failed to fetch novel " + id, JNull)
  }

  function GetChapter(x: Exchange, chapterId: string): Json {
    OrFallback(x, "Failed to fetch chapter " + chapterId, JNull)
  }

  function SearchNovels(x: Exchange): Json {
    OrFallback(x, "Failed to search novels", JArr([]))
  }

  function GetAllUsers(x: Exchange): Json {
    OrFallback(x, "Failed to fetch users", JArr([]))
  }

  function GetNovelsByStatus(x: Exchange): Json {
    OrFallback(x, "Failed to fetch novels", JArr([]))
  }

  function GetAllNovels(x: Exchange): Json {
    OrFallback(x, "Failed to fetch all novels", JArr([]))
  }

  /** `incrementReadCount` and `toggleLike` log a failure and resolve anyway. */
  function FireAndForget(x: Exchange): (r: Result)
    ensures r.Ok?
  {
    Ok(JUndefined)
  }

  /** `deleteNovel`, `deleteChapter` and `deleteComment` rethrow the axios error unchanged. */
  function Rethrowing(x: Exchange): (r: Result)
    ensures r.Err? <==> x.Failed?
    ensures x.Failed? ==> r.message == JStr(x.error.message)
  {
    match x
    case Responded(_) => Ok(JUndefined)
    case Failed(e) => Err(JStr(e.message))
  }

  // ------------------------------------------------------------ utils

  /** `chapters.reduce((sum, ch) => sum + (ch.readCount || 0), 0)` */
  function SumReads(chapters: seq<ClientTypes.Chapter>): int {
    if chapters == [] then 0
    else SumReads(chapters[..|chapters| - 1]) + chapters[|chapters| - 1].readCount
  }

  /** `chapters.reduce((sum, ch) => sum + (ch.likeCount || 0), 0)` */
  function SumLikes(chapters: seq<ClientTypes.Chapter>): int {
    if chapters == [] then 0
    else SumLikes(chapters[..|chapters| - 1]) + chapters[|chapters| - 1].likeCount.GetOr(0)
  }

  /** `utils.calculateTotalReads`: no chapter list counts as 0 reads. */
  function CalculateTotalReads(chapters: Option<seq<ClientTypes.Chapter>>): (r: int)
    ensures chapters.None? ==> r == 0
    ensures chapters.Some? ==> r == SumReads(chapters.value)
    ensures chapters.Some? && (forall i :: 0 <= i < |chapters.value| ==> chapters.value[i].readCount >= 0) ==> r >= 0
  {
    match chapters
    case None => 0
    case Some(cs) => SumReadsNonNegative(cs); SumReads(cs)
  }

  /** `utils.calculateTotalLikes`: a missing count or chapter list counts as 0. */
  function CalculateTotalLikes(chapters: Option<seq<ClientTypes.Chapter>>): (r: int)
    ensures chapters.None? ==> r == 0
    ensures chapters.Some? ==> r == SumLikes(chapters.value)
    ensures chapters.Some? && (forall i :: 0 <= i < |chapters.value| ==> chapters.value[i].likeCount.GetOr(0) >= 0) ==> r >= 0
  {
    match chapters
    case None => 0
    case Some(cs) => SumLikesNonNegative(cs); SumLikes(cs)
  }

  lemma {:induction false} SumReadsNonNegative(cs: seq<ClientTypes.Chapter>)
    ensures (forall i :: 0 <= i < |cs| ==> cs[i].readCount >= 0) ==> SumReads(cs) >= 0
  {
    if cs != [] {
      SumReadsNonNegative(cs[..|cs| - 1]);
    }
  }

  lemma {:induction false} SumLikesNonNegative(cs: seq<ClientTypes.Chapter>)
    ensures (forall i :: 0 <= i < |cs| ==> cs[i].likeCount.GetOr(0) >= 0) ==> SumLikes(cs) >= 0
  {
    if cs != [] {
      SumLikesNonNegative(cs[..|cs| - 1]);
    }
  }

  /** The totals of two lists of chapters add up. */
  lemma {:induction false} SumsAppend(a: seq<ClientTypes.Chapter>, b: seq<ClientTypes.Chapter>)
    ensures SumReads(a + b) == SumReads(a) + SumReads(b)
    ensures SumLikes(a + b) == SumLikes(a) + SumLikes(b)
    decreases |b|
  {
    if b != [] {
      var b' := b[..|b| - 1];
      assert (a + b)[..|a + b| - 1] == a + b';
      SumsAppend(a, b');
    } else {
      assert a + b == a;
    }
  }

  /** Chapters with no like count contribute nothing to the likes. */
  lemma {:induction false} MissingLikesCountZero(cs: seq<ClientTypes.Chapter>)
    requires forall i :: 0 <= i < |cs| ==> cs[i].likeCount.None?
    ensures SumLikes(cs) == 0
  {
    if cs != [] {
      MissingLikesCountZero(cs[..|cs| - 1]);
    }
  }

  /** `utils.formatNumber`: `"0"` for `0`, otherwise as the helper formats it. */
  function FormatNumber(num: int): (r: Helpers.NumberText)
    ensures num == 0 ==> r == Helpers.Plain("0")
    ensures num >= 1000000 ==> r.Scaled? && r.suffix == "M"
    ensures 1000 <= num < 1000000 ==> r.Scaled? && r.suffix == "K"
  {
    if num == 0 then Helpers.Plain("0")
    else if num >= 1000000 then Helpers.Scaled(num as real / 1000000.0, "M")
    else if num >= 1000 then Helpers.Scaled(num as real / 1000.0, "K")
    else Helpers.Plain(Text.IntToString(num))
  }

  /** The two `formatNumber`s agree on every integer: the extra falsy check only catches `0`, which prints as `"0"` anyway. */
  lemma FormatNumbersAgree(num: int)
    ensures FormatNumber(num) == Helpers.FormatNumber(num)
  {
    if num == 0 {
      assert Text.IntToString(0) == "0";
    }
  }
}
