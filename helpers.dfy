/**
 * The client's formatting helpers (`helpers.ts`): relative dates, compact
 * numbers, truncation, and search highlighting for a blank query.
 *
 * `toFixed(1)` and `toLocaleDateString` are not modelled: a scaled number
 * keeps its exact quotient and suffix, and an older date keeps its timestamp.
 */
module Helpers {
  import Text

  const MinuteMillis := 60000
  const HourMillis := 3600000
  const DayMillis := 86400000

  /** A formatted number: plain digits, or a quotient to print with one decimal and a suffix. */
  datatype NumberText = Plain(text: string) | Scaled(quotient: real, suffix: string)

  /** A formatted date: a fixed text, or a date to print in the Vietnamese locale. */
  datatype DateText = Relative(text: string) | LocaleDate(timestamp: int)

  /**
   * `formatDate(timestamp)` at time `now`: "just now" under a minute
   * (including timestamps in the future), whole minutes under an hour, whole
   * hours under a day, and the calendar date beyond.
   */
  function FormatDate(now: int, timestamp: int): (r: DateText)
    ensures now - timestamp < MinuteMillis ==> r == Relative("Vừa xong")
    ensures MinuteMillis <= now - timestamp < HourMillis ==>
      r == Relative(Text.NatToString((now - timestamp) / MinuteMillis) + " phút trước")
    ensures HourMillis <= now - timestamp < DayMillis ==>
      r == Relative(Text.NatToString((now - timestamp) / HourMillis) + " giờ trước")
    ensures now - timestamp >= DayMillis ==> r == LocaleDate(timestamp)
  {
    var diff := now - timestamp;
    if diff < 60000 then Relative("Vừa xong")
    else if diff < 3600000 then Relative(Text.NatToString(diff / 60000) + " phút trước")
    else if diff < 86400000 then Relative(Text.NatToString(diff / 3600000) + " giờ trước")
    else LocaleDate(timestamp)
  }

  /** The minute and hour counts stay within their units: 1 to 59 minutes, 1 to 23 hours. */
  lemma FormatDateRanges(diff: int)
    ensures MinuteMillis <= diff < HourMillis ==> 1 <= diff / MinuteMillis <= 59
    ensures HourMillis <= diff < DayMillis ==> 1 <= diff / HourMillis <= 23
  {
    if MinuteMillis <= diff < HourMillis {
      DivBounds(diff, MinuteMillis, 1, 60);
    }
    if HourMillis <= diff < DayMillis {
      DivBounds(diff, HourMillis, 1, 24);
    }
  }

  lemma DivBounds(x: int, d: int, lo: int, hi: int)
    requires d > 0 && lo * d <= x < hi * d
    ensures lo <= x / d < hi
  {
    var q := x / d;
    assert x == q * d + x % d && 0 <= x % d < d;
    MulMonotone(q, lo - 1, d);
    MulMonotone(hi, q, d);
  }

  lemma MulMonotone(a: int, b: int, d: int)
    requires d > 0
    ensures a <= b ==> a * d <= b * d
  {
  }

  /** `formatNumber`: an `M` suffix from a million, a `K` suffix from a thousand, plain digits below. */
  function FormatNumber(num: int): (r: NumberText)
    ensures num >= 1000000 ==> r == Scaled(num as real / 1000000.0, "M")
    ensures 1000 <= num < 1000000 ==> r == Scaled(num as real / 1000.0, "K")
    ensures num < 1000 ==> r == Plain(Text.IntToString(num))
  {
    if num >= 1000000 then Scaled(num as real / 1000000.0, "M")
    else if num >= 1000 then Scaled(num as real / 1000.0, "K")
    else Plain(Text.IntToString(num))
  }

  /** A scaled quotient lies in [1, 1000) for `K` and is at least 1 for `M`, so one integer digit or more precedes the point. */
  lemma FormatNumberQuotient(num: int)
    ensures FormatNumber(num).Scaled? && FormatNumber(num).suffix == "K" ==>
      1.0 <= FormatNumber(num).quotient < 1000.0
    ensures FormatNumber(num).Scaled? && FormatNumber(num).suffix == "M" ==>
      1.0 <= FormatNumber(num).quotient
  {
  }

  /**
   * `truncateText(text, maxLength)`: unchanged when it fits, otherwise the
   * first `maxLength` characters and an ellipsis (`substring` treats a
   * negative length as 0). Callers that omit `maxLength` get 100.
   */
  function TruncateText(text: string, maxLength: int): (r: string)
    ensures |text| <= maxLength ==> r == text
    ensures |text| > maxLength >= 0 ==> |r| == maxLength + 3 && r[..maxLength] == text[..maxLength] && r[maxLength..] == "..."
    ensures maxLength < 0 ==> r == "..."
  {
    if |text| <= maxLength then text
    else
      var n := if maxLength < 0 then 0 else maxLength;
      text[..n] + "..."
  }

  /** Truncating is idempotent when nothing had to be cut, and the result never exceeds `maxLength + 3` characters. */
  lemma TruncateTextBound(text: string, maxLength: nat)
    ensures |TruncateText(text, maxLength)| <= maxLength + 3
    ensures TruncateText(TruncateText(text, maxLength), maxLength + 3) == TruncateText(text, maxLength)
  {
  }

  /** `highlightSearch` with a blank query: the text as its only part. */
  function HighlightSearch(text: string, query: string): (r: seq<string>)
    requires Text.Trim(query) == ""
    ensures r == [text]
  {
    [text]
  }
}
