/**
  Values shared by every page of the happiness dashboard: optional values
  (JavaScript's null/undefined), rejected promises, API responses and the
  records the API returns.
 */
module Common {

  datatype Option<T> = None | Some(value: T)

  /** `API_URL`, the base of every request. */
  const ApiUrl := "http://131.181.190.87:3000"
  /** The rejection of a factors request made with an empty token. */
  const NotLoggedInMessage := "You are not logged in"

  /** The reason a promise chain rejected. `Error(m)` is `new Error(m)`;
      `NotAnArray` is the TypeError raised by calling `.map` on an error
      envelope, whose message text depends on the JavaScript engine. */
  datatype Error = Error(message: string) | NotAnArray

  datatype Result<T> = Ok(value: T) | Err(error: Error)

  /** A decoded JSON body: either the API's `{error: true, message}` envelope
      or an array of records. */
  datatype Response<T> = ErrorEnvelope(message: string) | Records(records: seq<T>)

  /** One row of `GET /rankings`. Scores are taken as already numeric. */
  datatype Ranking = Ranking(rank: int, country: string, score: real, year: int)

  /** The fields a rankings row keeps: rank, country, score and year. */
  function RankingRow(r: Ranking): Ranking {
    Ranking(r.rank, r.country, r.score, r.year)
  }

  /** The request `getRankings(countryName)` and `getUniqueYears(countryName)`
      issue: the country inserted as template text. */
  function RankingsUrl(countryName: Option<string>): string {
    ApiUrl + "/rankings?country=" + JsText(countryName)
  }

  /** The years of rankings records, in record order. */
  function YearsOf(rs: seq<Ranking>): (ys: seq<int>)
    ensures |ys| == |rs|
    ensures forall i | 0 <= i < |rs| :: ys[i] == rs[i].year
  {
    seq(|rs|, i requires 0 <= i < |rs| => rs[i].year)
  }

  /** One row of `GET /factors/<year>`; `rank` is absent when the API omits it. */
  datatype FactorRecord = FactorRecord(
    rank: Option<int>, country: string,
    economy: real, family: real, health: real,
    freedom: real, generosity: real, trust: real)

  /** The six factor columns a chart can be drawn for (`factor[type]`). */
  datatype Dimension = Economy | Family | Health | Freedom | Generosity | Trust

  /** The text a template literal produces for a string that may be null. */
  function JsText(s: Option<string>): (t: string)
    ensures s.Some? ==> t == s.value
    ensures s.None? ==> t == "null"
  {
    match s
    case Some(v) => v
    case None => "null"
  }

  /** Which view a page shows, given its error and loading signals. */
  datatype Screen = ErrorScreen(error: Error) | LoadingScreen | DataScreen

  /** Every page renders `error ? <error view> : loading ? <wait> : <data>`:
      an error wins over loading, and data shows only when neither is set. */
  function ScreenFor(error: Option<Error>, loading: bool): (s: Screen)
    ensures s.ErrorScreen? <==> error.Some?
    ensures s.ErrorScreen? ==> s.error == error.value
    ensures s.LoadingScreen? <==> error.None? && loading
    ensures s.DataScreen? <==> error.None? && !loading
  {
    if error.Some? then ErrorScreen(error.value)
    else if loading then LoadingScreen
    else DataScreen
  }

  predicate IsDigit(c: char) {
    '0' <= c <= '9'
  }

  function DigitChar(d: nat): (c: char)
    requires d < 10
    ensures IsDigit(c)
    ensures c as int - '0' as int == d
  {
    ('0' as int + d) as char
  }

  /** The number a string of decimal digits denotes. */
  function DigitsValue(s: string): nat
    requires forall i | 0 <= i < |s| :: IsDigit(s[i])
    decreases |s|
  {
    if s == [] then 0
    else
      assert IsDigit(s[|s| - 1]);
      DigitsValue(s[..|s| - 1]) * 10 + (s[|s| - 1] as int - '0' as int)
  }

  /** JavaScript's decimal rendering of a non-negative integer. */
  function NatToString(n: nat): (s: string)
    ensures |s| > 0
    ensures forall i | 0 <= i < |s| :: IsDigit(s[i])
    decreases n
  {
    if n < 10 then [DigitChar(n)]
    else NatToString(n / 10) + [DigitChar(n % 10)]
  }

  /** The text is the decimal form of `n`: its digits denote `n`. */
  lemma {:induction false} NatToStringValue(n: nat)
    ensures DigitsValue(NatToString(n)) == n
    decreases n
  {
    var s := NatToString(n);
    if n >= 10 {
      NatToStringValue(n / 10);
      assert s[..|s| - 1] == NatToString(n / 10);
    }
  }

  /** Different numbers are rendered as different texts. */
  lemma NatToStringInjective(a: nat, b: nat)
    requires NatToString(a) == NatToString(b)
    ensures a == b
  {
    NatToStringValue(a);
    NatToStringValue(b);
  }

  /** JavaScript's decimal rendering of an integer (a year). */
  function IntToString(i: int): (s: string)
    ensures |s| > 0
    ensures forall k | 0 <= k < |s| :: IsDigit(s[k]) || s[k] == '-'
  {
    if i < 0 then "-" + NatToString(-i) else NatToString(i)
  }

  /** Different integers (years) are rendered as different texts: the sign
      shows in the first character, and the digits denote the magnitude. */
  lemma IntToStringInjective(a: int, b: int)
    requires IntToString(a) == IntToString(b)
    ensures a == b
  {
    IntToStringSign(a);
    IntToStringSign(b);
    if a < 0 {
      var s := IntToString(a);
      assert NatToString(-a) == s[1..] == NatToString(-b);
      NatToStringInjective(-a, -b);
    } else {
      NatToStringInjective(a, b);
    }
  }

  /** The text of an integer starts with '-' exactly when it is negative. */
  lemma IntToStringSign(i: int)
    ensures IntToString(i)[0] == '-' <==> i < 0
  {
    if i >= 0 {
      assert IsDigit(NatToString(i)[0]);
    }
  }

  /** The value an HTML `<select>` reads back after `select.value = chosen`:
      the option with that value becomes selected, and when no option has it
      none is selected and the element reads back "". */
  function SelectValue(options: seq<string>, chosen: string): (v: string)
    ensures v in options || v == ""
    ensures chosen in options ==> v == chosen
    ensures chosen !in options ==> v == ""
  {
    if chosen in options then chosen else ""
  }

  /** The options of the year dropdown (`CustomFilters`): a blank option,
      then one option per year, labelled with the year. */
  function YearOptions(years: seq<int>): (opts: seq<string>)
    ensures |opts| == |years| + 1 && opts[0] == ""
    ensures forall i | 0 <= i < |years| :: opts[i + 1] == IntToString(years[i])
  {
    [""] + seq(|years|, i requires 0 <= i < |years| => IntToString(years[i]))
  }

  /** Distinct years give distinct dropdown options, none of them blank. */
  lemma YearOptionsDistinct(years: seq<int>)
    requires forall i, j | 0 <= i < j < |years| :: years[i] != years[j]
    ensures var opts := YearOptions(years);
            forall i, j | 0 <= i < j < |opts| :: opts[i] != opts[j]
  {
    var opts := YearOptions(years);
    forall i, j | 0 <= i < j < |opts| ensures opts[i] != opts[j] {
      if i == 0 {
        assert opts[j] == IntToString(years[j - 1]);
      } else if opts[i] == opts[j] {
        IntToStringInjective(years[i - 1], years[j - 1]);
      }
    }
  }
}
