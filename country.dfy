/**
  `Country.js`: one country across the years. Its rankings are fetched, one
  factors request is fanned out per ranked year, and both are charted over
  the years.
 */
module Country {
  import opened Common

  const AllCountriesMessage := "Cannot get all countries"
  const CountryNotFoundMessage := "Country not found"

  /** The request `getFactors(countryName, year)` issues. */
  function FactorsUrl(countryName: Option<string>, year: int): string {
    ApiUrl + "/factors/" + IntToString(year) + "?country=" + JsText(countryName)
  }

  /** A row of the country's factors table: the six factors and the year. */
  datatype YearFactors = YearFactors(
    economy: real, family: real, health: real,
    freedom: real, generosity: real, trust: real, year: int)

  /** `getRankings(countryName)` once the body is decoded: asking for the
      empty country is refused whatever the API said; then the error
      envelope, then an empty result; otherwise every record is kept. */
  function GetRankings(countryName: Option<string>, response: Response<Ranking>)
    : (r: Result<seq<Ranking>>)
    ensures countryName == Some("") ==> r == Err(Error(AllCountriesMessage))
    ensures countryName != Some("") && response.ErrorEnvelope? ==> r == Err(Error(response.message))
    ensures countryName != Some("") && response == Records([]) ==> r == Err(Error(CountryNotFoundMessage))
    ensures r.Ok? <==> countryName != Some("") && response.Records? && |response.records| > 0
    ensures r.Ok? ==> |r.value| == |response.records|
                      && forall i | 0 <= i < |r.value| :: r.value[i] == response.records[i]
  {
    if countryName == Some("") then Err(Error(AllCountriesMessage))
    else match response
      case ErrorEnvelope(message) => Err(Error(message))
      case Records(rs) =>
        if |rs| == 0 then Err(Error(CountryNotFoundMessage))
        else Ok(seq(|rs|, i requires 0 <= i < |rs| => RankingRow(rs[i])))
  }

  /** A factors row tagged with the year that was asked for. */
  function Tagged(f: FactorRecord, year: int): YearFactors {
    YearFactors(f.economy, f.family, f.health, f.freedom, f.generosity, f.trust, year)
  }

  /** `getFactors(countryName, year)` once the body is decoded: an empty token
      is refused before the envelope is looked at; every row returned carries
      the requested year, never one taken from the response. */
  function GetFactors(year: int, token: Option<string>, response: Response<FactorRecord>)
    : (r: Result<seq<YearFactors>>)
    ensures token == Some("") ==> r == Err(Error(NotLoggedInMessage))
    ensures token != Some("") && response.ErrorEnvelope? ==> r == Err(Error(response.message))
    ensures r.Ok? <==> token != Some("") && response.Records?
    ensures r.Ok? ==> |r.value| == |response.records|
    ensures r.Ok? ==> forall i | 0 <= i < |r.value| ::
                        r.value[i].year == year
                        && r.value[i].economy == response.records[i].economy
                        && r.value[i].family == response.records[i].family
                        && r.value[i].health == response.records[i].health
                        && r.value[i].freedom == response.records[i].freedom
                        && r.value[i].generosity == response.records[i].generosity
                        && r.value[i].trust == response.records[i].trust
  {
    if token == Some("") then Err(Error(NotLoggedInMessage))
    else match response
      case ErrorEnvelope(message) => Err(Error(message))
      case Records(fs) => Ok(seq(|fs|, i requires 0 <= i < |fs| => Tagged(fs[i], year)))
  }

  // ---------------------------------------------------------------------------
  // The per-year fan-out (UseRankingsFactorsAPI)
  // ---------------------------------------------------------------------------

  /** `factorsIn[0]`: undefined when the year came back empty. */
  function First(fs: seq<YearFactors>): (f: Option<YearFactors>)
    ensures f.None? <==> fs == []
    ensures f.Some? ==> f.value == fs[0]
  {
    if fs == [] then None else Some(fs[0])
  }

  /** The outcome of the factors request for one year. */
  function Fetch(countryName: Option<string>, token: Option<string>, year: int,
                 server: string -> Response<FactorRecord>): Result<seq<YearFactors>>
  {
    GetFactors(year, token, server(FactorsUrl(countryName, year)))
  }

  /** The answers of the fan-out, one per year, in issue order. */
  function Answers(countryName: Option<string>, token: Option<string>, years: seq<int>,
                   server: string -> Response<FactorRecord>): (rs: seq<Result<seq<YearFactors>>>)
    ensures |rs| == |years|
    ensures forall i | 0 <= i < |years| :: rs[i] == Fetch(countryName, token, years[i], server)
  {
    seq(|years|, i requires 0 <= i < |years| => Fetch(countryName, token, years[i], server))
  }

  /** What one answer adds to `factorsTemp`: its first row on success,
      nothing on failure. */
  function Contribution(r: Result<seq<YearFactors>>): seq<Option<YearFactors>> {
    match r
    case Ok(fs) => [First(fs)]
    case Err(_) => []
  }

  /** What `factorsTemp` holds once every answer is in, in issue order: the
      first row of each answer that succeeded. */
  function Collected(answers: seq<Result<seq<YearFactors>>>): seq<Option<YearFactors>>
    decreases |answers|
  {
    if answers == [] then []
    else Collected(answers[..|answers| - 1]) + Contribution(answers[|answers| - 1])
  }

  /** The factors error after the fan-out: the last failure if there was
      one, and the earlier value otherwise. */
  function Override(failure: Option<Error>, earlier: Option<Error>): Option<Error> {
    if failure.Some? then failure else earlier
  }

  /** What one answer does to `errorFactors`: a failure sets it. */
  function Failure(r: Result<seq<YearFactors>>): Option<Error> {
    match r
    case Err(e) => Some(e)
    case Ok(_) => None
  }

  /** The error `errorFactors` ends with: that of the last answer that failed. */
  function LastFailure(answers: seq<Result<seq<YearFactors>>>): Option<Error>
    decreases |answers|
  {
    if answers == [] then None
    else Override(Failure(answers[|answers| - 1]), LastFailure(answers[..|answers| - 1]))
  }

  /** The requests of the fan-out, one per year, in the order of the years. */
  function FactorsUrls(countryName: Option<string>, years: seq<int>): (urls: seq<string>)
    ensures |urls| == |years|
    decreases |years|
  {
    if years == [] then []
    else FactorsUrls(countryName, years[..|years| - 1]) + [FactorsUrl(countryName, years[|years| - 1])]
  }

  /** One more answer is added after the others'. */
  lemma AnswerSnoc(rs: seq<Result<seq<YearFactors>>>, r: Result<seq<YearFactors>>)
    ensures Collected(rs + [r]) == Collected(rs) + Contribution(r)
    ensures LastFailure(rs + [r]) == Override(Failure(r), LastFailure(rs))
  {
    assert (rs + [r])[..|rs|] == rs;
  }

  /** Answers are independent: a row is collected exactly when some
      answer succeeded with it as its first row (`None` for an empty year),
      so a failing year takes nothing away from the others. */
  lemma {:induction false} CollectedMembers(answers: seq<Result<seq<YearFactors>>>, x: Option<YearFactors>)
    ensures x in Collected(answers) <==>
              exists k | 0 <= k < |answers| :: answers[k].Ok? && x == First(answers[k].value)
    decreases |answers|
  {
    if answers != [] {
      var init, r := answers[..|answers| - 1], answers[|answers| - 1];
      CollectedMembers(init, x);
      assert forall k | 0 <= k < |init| :: init[k] == answers[k];
      if x in Collected(answers) && x !in Collected(init) {
        assert x in Contribution(r);
        assert answers[|answers| - 1].Ok? && x == First(answers[|answers| - 1].value);
      }
      if exists k | 0 <= k < |answers| :: answers[k].Ok? && x == First(answers[k].value) {
        var k :| 0 <= k < |answers| && answers[k].Ok? && x == First(answers[k].value);
        if k == |answers| - 1 {
          assert x in Contribution(r);
        } else {
          assert init[k] == answers[k];
        }
      }
    }
  }

  /** `errorFactors` is set exactly when some answer failed, and then holds
      the error of one of the failed answers. */
  lemma {:induction false} LastFailureIff(answers: seq<Result<seq<YearFactors>>>)
    ensures var e := LastFailure(answers);
            (e.Some? <==> exists k | 0 <= k < |answers| :: answers[k].Err?)
            && (e.Some? ==> exists k | 0 <= k < |answers| :: answers[k] == Err(e.value))
    decreases |answers|
  {
    if answers != [] {
      var init := answers[..|answers| - 1];
      LastFailureIff(init);
      assert forall k | 0 <= k < |init| :: init[k] == answers[k];
    }
  }

  /** The answers for one more year are the earlier ones and that year's. */
  lemma AnswersStep(countryName: Option<string>, token: Option<string>, years: seq<int>, i: nat,
                    server: string -> Response<FactorRecord>)
    requires i < |years|
    ensures Answers(countryName, token, years[..i + 1], server)
            == Answers(countryName, token, years[..i], server) + [Fetch(countryName, token, years[i], server)]
  {
    var u := Answers(countryName, token, years[..i + 1], server);
    var v := Answers(countryName, token, years[..i], server) + [Fetch(countryName, token, years[i], server)];
    assert |u| == |v|;
    forall k | 0 <= k < |u| ensures u[k] == v[k] {
      assert years[..i + 1][k] == years[k];
    }
  }

  /** Every collected row carries one of the requested years, and a year
      contributes at most one row. */
  lemma {:induction false} CollectedTagged(countryName: Option<string>, token: Option<string>,
                                           years: seq<int>, server: string -> Response<FactorRecord>)
    ensures var c := Collected(Answers(countryName, token, years, server));
            |c| <= |years| && forall k | 0 <= k < |c| :: c[k].Some? ==> c[k].value.year in years
    decreases |years|
  {
    if years != [] {
      var n := |years| - 1;
      var init := years[..n];
      CollectedTagged(countryName, token, init, server);
      AnswersStep(countryName, token, years, n, server);
      assert years[..n + 1] == years;
      AnswerSnoc(Answers(countryName, token, init, server), Fetch(countryName, token, years[n], server));
      assert forall y | y in init :: y in years;
    }
  }

  /** A year whose request succeeded with at least one row contributes that
      first row, tagged with the year. */
  lemma {:induction false} SucceededYearCollected(countryName: Option<string>, token: Option<string>,
                                                  years: seq<int>, k: nat,
                                                  server: string -> Response<FactorRecord>)
    requires k < |years|
    requires Fetch(countryName, token, years[k], server).Ok?
    requires Fetch(countryName, token, years[k], server).value != []
    ensures var f := Fetch(countryName, token, years[k], server).value[0];
            f.year == years[k] && Some(f) in Collected(Answers(countryName, token, years, server))
  {
    var rs := Answers(countryName, token, years, server);
    CollectedMembers(rs, First(rs[k].value));
  }

  /** With the rankings of two years, a failing first year and a succeeding
      second year leave both the factors error set and the second year's
      row collected. */
  lemma PartialFailure(r1: Result<seq<YearFactors>>, r2: Result<seq<YearFactors>>)
    requires r1.Err? && r2.Ok? && r2.value != []
    ensures LastFailure([r1, r2]) == Some(r1.error)
    ensures Collected([r1, r2]) == [Some(r2.value[0])]
  {
    AnswerSnoc([], r1);
    AnswerSnoc([r1], r2);
    assert [] + [r1] == [r1] && [r1] + [r2] == [r1, r2];
  }

  // ---------------------------------------------------------------------------
  // Chart series
  // ---------------------------------------------------------------------------

  predicate Ascending(s: seq<int>) {
    forall i, j | 0 <= i < j < |s| :: s[i] <= s[j]
  }

  predicate StrictlyDescending(s: seq<int>) {
    forall i, j | 0 <= i < j < |s| :: s[i] > s[j]
  }

  function Reverse<T>(s: seq<T>): (r: seq<T>)
    ensures |r| == |s|
    ensures forall i | 0 <= i < |s| :: r[i] == s[|s| - 1 - i]
  {
    if s == [] then [] else Reverse(s[1..]) + [s[0]]
  }

  lemma {:induction false} ReverseMultiset(s: seq<int>)
    ensures multiset(Reverse(s)) == multiset(s)
  {
    if s != [] {
      ReverseMultiset(s[1..]);
      assert s == [s[0]] + s[1..];
    }
  }

  /** Putting an element no larger than the head in front keeps a sequence
      ascending. */
  lemma ConsAscending(h: int, t: seq<int>)
    requires Ascending(t) && (t == [] || h <= t[0])
    ensures Ascending([h] + t)
  {
    var r := [h] + t;
    forall i, j | 0 <= i < j < |r| ensures r[i] <= r[j] {
      assert r[j] == t[j - 1];
      if i > 0 {
        assert r[i] == t[i - 1];
      } else {
        assert t[0] <= t[j - 1];
      }
    }
  }

  /** Inserting into an ascending sequence keeps it ascending; the result
      starts with `x` or with the old first element. */
  function Insert(x: int, s: seq<int>): (r: seq<int>)
    requires Ascending(s)
    ensures Ascending(r)
    ensures multiset(r) == multiset(s) + multiset{x}
    ensures r[0] == x || (s != [] && r[0] == s[0])
  {
    if s == [] || x <= s[0] then
      ConsAscending(x, s);
      [x] + s
    else
      assert Ascending(s[1..]);
      var rest := Insert(x, s[1..]);
      assert s == [s[0]] + s[1..];
      ConsAscending(s[0], rest);
      [s[0]] + rest
  }

  /** `.sort((a, b) => a - b)` on numbers: ascending, a permutation. */
  function SortAscending(s: seq<int>): (r: seq<int>)
    ensures Ascending(r)
    ensures multiset(r) == multiset(s)
  {
    if s == [] then []
    else
      assert s == [s[0]] + s[1..];
      Insert(s[0], SortAscending(s[1..]))
  }

  /** The head of an ascending sequence is at most any of its elements. */
  lemma HeadIsLeast(a: seq<int>, x: int)
    requires Ascending(a) && x in multiset(a)
    ensures a[0] <= x
  {
    assert x in a;
    var i :| 0 <= i < |a| && a[i] == x;
    if i > 0 {
      assert a[0] <= a[i];
    }
  }

  /** Dropping the head of an ascending sequence leaves an ascending
      sequence holding the other elements. */
  lemma AscendingTail(a: seq<int>)
    requires Ascending(a) && a != []
    ensures Ascending(a[1..])
    ensures multiset(a[1..]) == multiset(a) - multiset{a[0]}
  {
    assert a == [a[0]] + a[1..];
    var t := a[1..];
    forall i, j | 0 <= i < j < |t| ensures t[i] <= t[j] {
      assert t[i] == a[i + 1] && t[j] == a[j + 1];
    }
  }

  /** Two ascending orders of one collection start with the same element. */
  lemma SameHead(a: seq<int>, b: seq<int>)
    requires Ascending(a) && Ascending(b) && multiset(a) == multiset(b) && a != []
    ensures b != [] && a[0] == b[0]
  {
    assert a[0] in multiset(a);
    assert b != [];
    assert b[0] in multiset(b);
    HeadIsLeast(a, b[0]);
    HeadIsLeast(b, a[0]);
  }

  /** An ascending order of a multiset is unique. */
  lemma {:induction false} AscendingUnique(a: seq<int>, b: seq<int>)
    requires Ascending(a) && Ascending(b) && multiset(a) == multiset(b)
    ensures a == b
    decreases |a|
  {
    if a == [] {
      assert |multiset(b)| == 0;
    } else {
      SameHead(a, b);
      AscendingTail(a);
      AscendingTail(b);
      var ta, tb := a[1..], b[1..];
      AscendingUnique(ta, tb);
      assert a == [a[0]] + ta;
      assert b == [b[0]] + tb;
    }
  }

  /** A chart: x-axis labels and the plotted values. */
  datatype Series = Series(labels: seq<int>, data: seq<real>)

  function Scores(rs: seq<Ranking>): (ss: seq<real>)
    ensures |ss| == |rs| && forall i | 0 <= i < |rs| :: ss[i] == rs[i].score
  {
    seq(|rs|, i requires 0 <= i < |rs| => rs[i].score)
  }

  /** `rankingData`: the years in ascending order, and the scores in reverse
      of the order the rankings arrived in. */
  function RankingSeries(rankings: seq<Ranking>): (s: Series)
    ensures |s.labels| == |s.data| == |rankings|
    ensures Ascending(s.labels) && multiset(s.labels) == multiset(YearsOf(rankings))
    ensures forall i | 0 <= i < |rankings| :: s.data[i] == rankings[|rankings| - 1 - i].score
  {
    var labels := SortAscending(YearsOf(rankings));
    assert |labels| == |multiset(labels)| == |YearsOf(rankings)|;
    Series(labels, Reverse(Scores(rankings)))
  }

  /** Years that strictly fall become ascending once reversed. */
  lemma ReverseDescending(ys: seq<int>)
    requires StrictlyDescending(ys)
    ensures Ascending(Reverse(ys))
  {
    var rev := Reverse(ys);
    forall i, j | 0 <= i < j < |rev| ensures rev[i] <= rev[j] {
      assert rev[i] == ys[|ys| - 1 - i] && rev[j] == ys[|ys| - 1 - j];
    }
  }

  /** Labels and values line up, each point being one record's year and
      score, when the rankings arrived newest year first. */
  lemma RankingSeriesAligned(rankings: seq<Ranking>)
    requires StrictlyDescending(YearsOf(rankings))
    ensures var s := RankingSeries(rankings);
            forall i | 0 <= i < |rankings| ::
              s.labels[i] == rankings[|rankings| - 1 - i].year
              && s.data[i] == rankings[|rankings| - 1 - i].score
  {
    var ys := YearsOf(rankings);
    var labels := RankingSeries(rankings).labels;
    ReverseDescending(ys);
    ReverseMultiset(ys);
    AscendingUnique(labels, Reverse(ys));
  }

  /** When the rankings arrive oldest year first, the labels and values do
      not line up: the first label is the oldest year, the first value the
      newest year's score. */
  lemma RankingSeriesMisaligned(older: Ranking, newer: Ranking)
    requires older.year < newer.year
    ensures RankingSeries([older, newer]).labels == [older.year, newer.year]
    ensures RankingSeries([older, newer]).data == [newer.score, older.score]
  {
    var ys := [older.year, newer.year];
    assert YearsOf([older, newer]) == ys;
    assert Ascending(ys);
    AscendingUnique(SortAscending(ys), ys);
  }

  function YearFactorValue(f: YearFactors, d: Dimension): real {
    match d
    case Economy => f.economy
    case Family => f.family
    case Health => f.health
    case Freedom => f.freedom
    case Generosity => f.generosity
    case Trust => f.trust
  }

  predicate AllDefined(fs: seq<Option<YearFactors>>) {
    forall k | 0 <= k < |fs| :: fs[k].Some?
  }

  /** The years of the collected rows, in collection order. */
  function RowYears(factors: seq<Option<YearFactors>>): (ys: seq<int>)
    requires AllDefined(factors)
    ensures |ys| == |factors| && forall k | 0 <= k < |factors| :: ys[k] == factors[k].value.year
  {
    seq(|factors|, k requires 0 <= k < |factors| => factors[k].value.year)
  }

  /** One factor of the collected rows, in collection order. */
  function RowValues(factors: seq<Option<YearFactors>>, d: Dimension): (vs: seq<real>)
    requires AllDefined(factors)
    ensures |vs| == |factors| && forall k | 0 <= k < |factors| :: vs[k] == YearFactorValue(factors[k].value, d)
  {
    seq(|factors|, k requires 0 <= k < |factors| => YearFactorValue(factors[k].value, d))
  }

  /** `factorData(type, …)`: like the rankings chart, years ascending and
      values reversed. An undefined row (a year that came back empty) makes
      `factor.year` throw while rendering: no chart. */
  function FactorSeries(factors: seq<Option<YearFactors>>, d: Dimension): (s: Option<Series>)
    ensures s.None? <==> !AllDefined(factors)
    ensures s.Some? ==>
              |s.value.labels| == |s.value.data| == |factors|
              && Ascending(s.value.labels)
              && multiset(s.value.labels) == multiset(RowYears(factors))
              && forall i | 0 <= i < |factors| :: s.value.data[i] == YearFactorValue(factors[|factors| - 1 - i].value, d)
  {
    if !AllDefined(factors) then None
    else
      var years := RowYears(factors);
      var labels := SortAscending(years);
      assert |labels| == |multiset(labels)| == |years|;
      Some(Series(labels, Reverse(RowValues(factors, d))))
  }

  // ---------------------------------------------------------------------------
  // The heading
  // ---------------------------------------------------------------------------

  /** `heading1`: the country's own name once rankings are in; before that
      (or after a failure) a search message for a non-empty parameter, and
      "Invalid country" otherwise. */
  function Heading(param: Option<string>, rankings: seq<Ranking>): (h: string)
    ensures rankings != [] ==> h == rankings[0].country
    ensures rankings == [] && param.Some? && param.value != "" ==> h == "Searching for " + param.value + "..."
    ensures rankings == [] && (param.None? || param.value == "") ==> h == "Invalid country"
  {
    var initial := if param.Some? && param.value != "" then "Searching for " + param.value + "..." else "Invalid country";
    if |rankings| != 0 then rankings[0].country else initial
  }

  /** After a successful load the heading is the first returned record's
      country; asking for the empty country never gets past "Invalid
      country" on a fresh page. */
  lemma HeadingAfterLoad(param: Option<string>, response: Response<Ranking>)
    ensures GetRankings(param, response).Ok? ==>
              Heading(param, GetRankings(param, response).value) == response.records[0].country
    ensures param == Some("") ==> GetRankings(param, response).Err? && Heading(param, []) == "Invalid country"
  {
  }

  // ---------------------------------------------------------------------------
  // The page's state
  // ---------------------------------------------------------------------------

  /** One more request of the fan-out, issued after the others. */
  lemma FactorsUrlsStep(countryName: Option<string>, years: seq<int>, i: nat)
    requires i < |years|
    ensures FactorsUrls(countryName, years[..i + 1])
            == FactorsUrls(countryName, years[..i]) + [FactorsUrl(countryName, years[i])]
  {
    assert years[..i + 1][..i] == years[..i];
  }

  /** The fan-out issues one request per ranked year, in ranking order:
      the `k`-th request is the one for the `k`-th year. */
  lemma {:induction false} FactorsUrlsAt(countryName: Option<string>, years: seq<int>)
    ensures forall k | 0 <= k < |years| :: FactorsUrls(countryName, years)[k] == FactorsUrl(countryName, years[k])
    decreases |years|
  {
    if years != [] {
      var n := |years| - 1;
      var init := years[..n];
      FactorsUrlsAt(countryName, init);
      var u, w := FactorsUrls(countryName, years), FactorsUrls(countryName, init);
      assert u == w + [FactorsUrl(countryName, years[n])];
      forall k | 0 <= k < |years| ensures u[k] == FactorsUrl(countryName, years[k]) {
        if k < n {
          assert u[k] == w[k] && init[k] == years[k];
        }
      }
    }
  }

  /** Different years are asked for with different requests. */
  lemma FactorsUrlInjective(countryName: Option<string>, y1: int, y2: int)
    requires FactorsUrl(countryName, y1) == FactorsUrl(countryName, y2)
    ensures y1 == y2
  {
    var p, q := ApiUrl + "/factors/", "?country=" + JsText(countryName);
    var s1, s2 := IntToString(y1), IntToString(y2);
    assert FactorsUrl(countryName, y1) == (p + s1) + q;
    assert FactorsUrl(countryName, y2) == (p + s2) + q;
    assert p + s1 == ((p + s1) + q)[..|p + s1|];
    assert p + s2 == ((p + s2) + q)[..|p + s2|];
    assert s1 == (p + s1)[|p|..] && s2 == (p + s2)[|p|..];
    IntToStringInjective(y1, y2);
  }

  class CountryPage {
    /** The `country` URL parameter. */
    const param: Option<string>
    var loading: bool
    var rankings: seq<Ranking>
    var error: Option<Error>
    var loadingFactors: bool
    var factors: seq<Option<YearFactors>>
    var errorFactors: Option<Error>
    /** The rows the factors table shows. */
    var loadFactors: seq<Option<YearFactors>>

    constructor (param: Option<string>)
      ensures this.param == param
      ensures loading && rankings == [] && error == None
      ensures loadingFactors && factors == [] && errorFactors == None && loadFactors == []
    {
      this.param := param;
      loading := true;
      rankings := [];
      error := None;
      loadingFactors := true;
      factors := [];
      errorFactors := None;
      loadFactors := [];
    }

    /** The callbacks of one factors request: a success appends the
        year's first row, a failure sets the factors error, and either way
        `loadingFactors` is cleared. */
    method Receive(res: Result<seq<YearFactors>>)
      modifies this`loadingFactors, this`factors, this`errorFactors
      ensures factors == old(factors) + Contribution(res)
      ensures errorFactors == Override(Failure(res), old(errorFactors))
      ensures !loadingFactors
    {
      match res {
        case Ok(fs) =>
          factors := factors + [First(fs)];
        case Err(e) =>
          errorFactors := Some(e);
      }
      loadingFactors := false;
    }

    /** The `years.forEach` fan-out: one factors request per year, in order;
        each success appends its first row, each failure sets the factors
        error, and every answer clears `loadingFactors`. */
    method FanOut(token: Option<string>, years: seq<int>,
                  server: string -> Response<FactorRecord>) returns (urls: seq<string>)
      modifies this`loadingFactors, this`factors, this`errorFactors
      ensures urls == FactorsUrls(param, years)
      ensures factors == Collected(Answers(param, token, years, server))
      ensures errorFactors == Override(LastFailure(Answers(param, token, years, server)), old(errorFactors))
      ensures loadingFactors == (old(loadingFactors) && years == [])
    {
      urls := [];
      factors := [];
      var i := 0;
      while i < |years|
        invariant 0 <= i <= |years|
        invariant urls == FactorsUrls(param, years[..i])
        invariant factors == Collected(Answers(param, token, years[..i], server))
        invariant errorFactors == Override(LastFailure(Answers(param, token, years[..i], server)), old(errorFactors))
        invariant loadingFactors == (old(loadingFactors) && i == 0)
      {
        var year := years[i];
        var url := FactorsUrl(param, year);
        urls := urls + [url];
        FactorsUrlsStep(param, years, i);
        AnswersStep(param, token, years, i, server);
        var res := Fetch(param, token, year, server);
        AnswerSnoc(Answers(param, token, years[..i], server), res);
        Receive(res);
        i := i + 1;
      }
      assert years[..i] == years;
    }

    /** `UseRankingsFactorsAPI(param)`, in issue order: the rankings first;
        on success one factors request per ranking, in ranking order, each
        success adding its first row and each failure setting the factors
        error without stopping the others. A rankings failure sets only
        `error`. Returns the requests issued. */
    method Load(token: Option<string>, rankingsResponse: Response<Ranking>,
                server: string -> Response<FactorRecord>) returns (issued: seq<string>)
      modifies this`loading, this`rankings, this`error, this`loadingFactors, this`factors, this`errorFactors
      ensures !loading
      ensures var r := GetRankings(param, rankingsResponse);
              r.Err? ==>
                error == Some(r.error) && issued == [RankingsUrl(param)]
                && rankings == old(rankings) && factors == old(factors)
                && errorFactors == old(errorFactors) && loadingFactors == old(loadingFactors)
      ensures var r := GetRankings(param, rankingsResponse);
              r.Ok? ==>
                var years := YearsOf(r.value);
                var answers := Answers(param, token, years, server);
                rankings == r.value && error == old(error)
                && issued == [RankingsUrl(param)] + FactorsUrls(param, years)
                && factors == Collected(answers)
                && errorFactors == Override(LastFailure(answers), old(errorFactors))
                && !loadingFactors
    {
      issued := [RankingsUrl(param)];
      var r := GetRankings(param, rankingsResponse);
      match r {
        case Err(e) =>
          error := Some(e);
        case Ok(rs) =>
          rankings := rs;
          var years := YearsOf(rs);
          assert years != [] by { assert |years| == |rs| == |rankingsResponse.records| > 0; }
          var urls := FanOut(token, years, server);
          issued := issued + urls;
      }
      loading := false;
    }

    /** The "Load" button: the factors table shows the rows collected so far. */
    method HandleLoad()
      modifies this`loadFactors
      ensures loadFactors == factors
    {
      loadFactors := factors;
    }

    /** Which view the rankings half of the page shows: the shared precedence
        `ScreenFor` applied to the rankings error and loading flag. */
    method RenderRankings() returns (screen: Screen)
      ensures screen == ScreenFor(error, loading)
      ensures screen.DataScreen? ==> error == None && !loading
    {
      screen := ScreenFor(error, loading);
    }

    /** Which view the factors half of the page shows: the shared precedence
        `ScreenFor` applied to the factors error and loading flag. */
    method RenderFactors() returns (screen: Screen)
      ensures screen == ScreenFor(errorFactors, loadingFactors)
      ensures screen.DataScreen? ==> errorFactors == None && !loadingFactors
    {
      screen := ScreenFor(errorFactors, loadingFactors);
    }
  }
}
