/**
  `Factors.js`: the factors page. It lists the years a country was ranked in,
  fetches the top ten countries' factors for the chosen year, appends the
  chosen country's own factors as a spotlight entry, and charts them.
 */
module Factors {
  import opened Common
  import opened QueryString

  const InvalidYearMessage := "Invalid year. Please select a year in the dropdown box on the left."
  const InvalidCountryMessage := "Invalid country"
  const InvalidCountryHelp := "Invalid country. Please select a country from the home page."

  /** The request `getFactors(countryName, year)` issues (always with limit 10). */
  function FactorsUrl(countryName: string, year: Option<string>): string {
    ApiUrl + "/factors/" + JsText(year) + "?limit=10&country=" + countryName
  }

  /** The opposite of `year === '' || year === null`. */
  predicate ValidYear(year: Option<string>) {
    year.Some? && year.value != ""
  }

  /** The fields a table row keeps: rank, country and the six factors. */
  function FactorRow(f: FactorRecord): FactorRecord {
    FactorRecord(f.rank, f.country, f.economy, f.family, f.health, f.freedom, f.generosity, f.trust)
  }

  /** `getFactors(countryName, year)` once the body is decoded. The checks run
      in a fixed order: a blank or missing year, then an empty token, then
      the error envelope; a response passing all three is kept row by row. */
  function GetFactors(year: Option<string>, token: Option<string>, response: Response<FactorRecord>)
    : (r: Result<seq<FactorRecord>>)
    ensures !ValidYear(year) ==> r == Err(Error(InvalidYearMessage))
    ensures ValidYear(year) && token == Some("") ==> r == Err(Error(NotLoggedInMessage))
    ensures ValidYear(year) && token != Some("") && response.ErrorEnvelope? ==>
              r == Err(Error(response.message))
    ensures r.Ok? <==> ValidYear(year) && token != Some("") && response.Records?
    ensures r.Ok? ==> |r.value| == |response.records|
                      && forall i | 0 <= i < |r.value| :: r.value[i] == response.records[i]
  {
    if !ValidYear(year) then Err(Error(InvalidYearMessage))
    else if token == Some("") then Err(Error(NotLoggedInMessage))
    else match response
      case ErrorEnvelope(message) => Err(Error(message))
      case Records(fs) => Ok(seq(|fs|, i requires 0 <= i < |fs| => FactorRow(fs[i])))
  }

  /** `getUniqueYears(countryName)` once the body is decoded: an empty array
      rejects with "Invalid country", an envelope fails in `.map`, otherwise
      one year per record, in response order, duplicates kept. */
  function GetYearList(response: Response<Ranking>): (r: Result<seq<int>>)
    ensures r == Err(Error(InvalidCountryMessage)) <==> response == Records([])
    ensures r == Err(NotAnArray) <==> response.ErrorEnvelope?
    ensures r.Ok? <==> response.Records? && |response.records| > 0
    ensures r.Ok? ==> |r.value| == |response.records|
                      && forall i | 0 <= i < |r.value| :: r.value[i] == response.records[i].year
  {
    match response
    case ErrorEnvelope(_) => Err(NotAnArray)
    case Records(rs) =>
      if |rs| == 0 then Err(Error(InvalidCountryMessage))
      else Ok(seq(|rs|, i requires 0 <= i < |rs| => rs[i].year))
  }

  /** The catch of `UseFactorsAPI` for a failed year list: with no country
      selected, or when the country was not found, the error becomes the
      "select a country" hint; any other error is kept. */
  function MapYearsError(countryName: Option<string>, e: Error): (r: Error)
    ensures countryName == Some("") || countryName == None || e == Error(InvalidCountryMessage) ==>
              r == Error(InvalidCountryHelp)
    ensures !(countryName == Some("") || countryName == None || e == Error(InvalidCountryMessage)) ==>
              r == e
  {
    if countryName == Some("") || countryName == None || (e.Error? && e.message == InvalidCountryMessage)
    then Error(InvalidCountryHelp)
    else e
  }

  /** A country the rankings do not know always reaches the user as the
      "select a country" hint, whatever country was asked for. */
  lemma UnknownCountryHint(countryName: Option<string>)
    ensures GetYearList(Records([])).Err?
    ensures MapYearsError(countryName, GetYearList(Records([])).error) == Error(InvalidCountryHelp)
  {
  }

  // ---------------------------------------------------------------------------
  // Charts (factorData)
  // ---------------------------------------------------------------------------

  function FactorValue(f: FactorRecord, d: Dimension): real {
    match d
    case Economy => f.economy
    case Family => f.family
    case Health => f.health
    case Freedom => f.freedom
    case Generosity => f.generosity
    case Trust => f.trust
  }

  datatype Chart = Chart(labels: seq<string>, data: seq<real>)

  function Countries(fs: seq<FactorRecord>): (cs: seq<string>)
    ensures |cs| == |fs| && forall i | 0 <= i < |fs| :: cs[i] == fs[i].country
  {
    seq(|fs|, i requires 0 <= i < |fs| => fs[i].country)
  }

  function Values(fs: seq<FactorRecord>, d: Dimension): (vs: seq<real>)
    ensures |vs| == |fs| && forall i | 0 <= i < |fs| :: vs[i] == FactorValue(fs[i], d)
  {
    seq(|fs|, i requires 0 <= i < |fs| => FactorValue(fs[i], d))
  }

  /** `factorData(type, …)`: the top countries, then the spotlight rows; label
      and value at each position come from the same record. */
  function FactorData(factors: seq<FactorRecord>, selected: seq<FactorRecord>, d: Dimension): (chart: Chart)
    ensures |chart.labels| == |chart.data| == |factors| + |selected|
    ensures forall i | 0 <= i < |factors| ::
              chart.labels[i] == factors[i].country && chart.data[i] == FactorValue(factors[i], d)
    ensures forall i | 0 <= i < |selected| ::
              chart.labels[|factors| + i] == selected[i].country
              && chart.data[|factors| + i] == FactorValue(selected[i], d)
  {
    Chart(Countries(factors) + Countries(selected), Values(factors, d) + Values(selected, d))
  }

  /** One spotlight row adds exactly one entry, after all the top entries. */
  lemma SpotlightIsLast(factors: seq<FactorRecord>, spot: FactorRecord, d: Dimension)
    ensures FactorData(factors, [spot], d).labels == Countries(factors) + [spot.country]
    ensures FactorData(factors, [spot], d).data == Values(factors, d) + [FactorValue(spot, d)]
  {
  }

  // ---------------------------------------------------------------------------
  // Navigation (yearChange, resetFilters, setupParams)
  // ---------------------------------------------------------------------------

  /** `/Factors?country=<country>&year=<year>`, written as the page writes it;
      it is the factors path followed by the two parameters. */
  function FactorsLink(country: string, year: string): (link: string)
    ensures link == "/Factors" + Render([Param("country", country), Param("year", year)])
  {
    var link := "/Factors?country=" + country + "&year=" + year;
    RenderTwo("country", country, "year", year);
    assert "/Factors" + "?" + "country" + "=" == "/Factors?country=";
    assert "&" + "year" + "=" == "&year=";
    link
  }

  /** The factors page reached through a link reads back the same country
      and year (for values the browser does not re-encode). */
  lemma {:induction false} FactorsLinkRoundTrip(country: string, year: string)
    requires CleanValue(country) && CleanValue(year)
    ensures var ps := ParseSearch(SearchOf(FactorsLink(country, year)));
            Get(ps, "country") == Some(country) && Get(ps, "year") == Some(year)
  {
    var ps := [Param("country", country), Param("year", year)];
    AppKeysClean();
    assert CleanParams(ps) by {
      assert CleanPair(ps[0]) && CleanPair(ps[1]);
    }
    RenderRoundTrip("/Factors", ps);
    assert ps[1..] == [Param("year", year)];
  }

  class FactorsPage {
    /** The `country` and `year` URL parameters. */
    const country: Option<string>
    const year: Option<string>
    var loading: bool
    var factors: seq<FactorRecord>
    var selectFactors: seq<FactorRecord>
    var error: Option<Error>
    var uniqueYears: seq<int>
    /** The value the year dropdown reads back. */
    var dropdown: string

    constructor (params: Params)
      ensures country == Get(params, "country") && year == Get(params, "year")
      ensures loading && factors == [] && selectFactors == [] && error == None
      ensures uniqueYears == [] && dropdown == ""
    {
      country := Get(params, "country");
      year := Get(params, "year");
      loading := true;
      factors := [];
      selectFactors := [];
      error := None;
      uniqueYears := [];
      dropdown := "";
    }

    /** `UseFactorsAPI(country, year)`, in issue order. The year list comes
        first; its failure is mapped to the country hint. Then the top ten
        are fetched; their failure is set as it is. Then, unless the country
        is the empty string, the spotlight country is fetched; its failure is
        never reported. Returns the requests issued. */
    method Load(token: Option<string>, rankingsResponse: Response<Ranking>,
                server: string -> Response<FactorRecord>) returns (issued: seq<string>)
      modifies this`loading, this`factors, this`selectFactors, this`error, this`uniqueYears
      ensures !loading
      ensures |issued| >= 1 && issued[0] == RankingsUrl(country)
      ensures var years := GetYearList(rankingsResponse);
              years.Err? ==>
                error == Some(MapYearsError(country, years.error)) && issued == [RankingsUrl(country)]
                && factors == old(factors) && selectFactors == old(selectFactors)
                && uniqueYears == old(uniqueYears)
      ensures var years := GetYearList(rankingsResponse);
              var top := GetFactors(year, token, server(FactorsUrl("", year)));
              years.Ok? ==>
                uniqueYears == years.value && |issued| >= 2 && issued[1] == FactorsUrl("", year)
                && (top.Err? ==> error == Some(top.error) && |issued| == 2
                                 && factors == old(factors) && selectFactors == old(selectFactors))
                && (top.Ok? ==> factors == top.value && error == old(error))
      ensures var years := GetYearList(rankingsResponse);
              var top := GetFactors(year, token, server(FactorsUrl("", year)));
              var spotUrl := FactorsUrl(JsText(country), year);
              var spot := GetFactors(year, token, server(spotUrl));
              years.Ok? && top.Ok? ==>
                (country == Some("") ==> |issued| == 2 && selectFactors == old(selectFactors))
                && (country != Some("") ==>
                      issued == [RankingsUrl(country), FactorsUrl("", year), spotUrl]
                      && selectFactors == (if spot.Ok? then spot.value else old(selectFactors)))
    {
      issued := [RankingsUrl(country)];
      var years := GetYearList(rankingsResponse);
      match years {
        case Err(e) =>
          error := Some(MapYearsError(country, e));
        case Ok(ys) =>
          uniqueYears := ys;
          var topUrl := FactorsUrl("", year);
          issued := issued + [topUrl];
          var top := GetFactors(year, token, server(topUrl));
          match top {
            case Err(e) =>
              error := Some(e);
            case Ok(fs) =>
              factors := fs;
              if country != Some("") {
                var spotUrl := FactorsUrl(JsText(country), year);
                issued := issued + [spotUrl];
                var spot := GetFactors(year, token, server(spotUrl));
                if spot.Ok? {
                  selectFactors := spot.value;
                }
              }
          }
      }
      loading := false;
    }

    /** Which view the page shows: the shared precedence `ScreenFor` applied
        to this page's error and loading flag. */
    method Render() returns (screen: Screen)
      ensures screen == ScreenFor(error, loading)
      ensures screen.DataScreen? ==> error == None && !loading
    {
      screen := ScreenFor(error, loading);
    }

    /** `yearChange`: the blank option is ignored; any other year navigates
        to the same country in that year. The page then reloads from the new
        URL, so the dropdown's own read-back is not kept as state here. */
    method YearChange(input: string) returns (nav: Option<string>)
      ensures input == "" <==> nav.None?
      ensures input != "" ==> nav == Some(FactorsLink(JsText(country), input))
    {
      if input == "" {
        return None;
      }
      nav := Some(FactorsLink(JsText(country), input));
    }

    /** `resetFilters`: selects the first listed year (nothing when the list
        is empty) and navigates to it. */
    method ResetFilters() returns (nav: string)
      modifies this`dropdown
      ensures dropdown == (if uniqueYears == [] then "" else IntToString(uniqueYears[0]))
      ensures nav == FactorsLink(JsText(country), dropdown)
    {
      var first := if uniqueYears == [] then "undefined" else IntToString(uniqueYears[0]);
      dropdown := SelectValue(YearOptions(uniqueYears), first);
      nav := FactorsLink(JsText(country), dropdown);
    }

    /** `setupParams`: selects the URL's year in the dropdown and navigates
        to what the dropdown then reads back. */
    method SetupParams() returns (nav: string)
      modifies this`dropdown
      ensures dropdown == SelectValue(YearOptions(uniqueYears), JsText(year))
      ensures nav == FactorsLink(JsText(country), dropdown)
    {
      dropdown := SelectValue(YearOptions(uniqueYears), JsText(year));
      nav := FactorsLink(JsText(country), dropdown);
    }
  }
}
