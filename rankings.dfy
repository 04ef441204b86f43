/**
  `Rankings.js`: the rankings table page. The rankings response is reshaped,
  the distinct years feed the year dropdown, and the grid's filter model is
  kept in step with the URL's `country`/`year` parameters.
 */
module Rankings {
  import opened Common
  import opened QueryString

  // ---------------------------------------------------------------------------
  // The rankings response (getRankings, after the fetch)
  // ---------------------------------------------------------------------------

  /** `getRankings()` once the body is decoded: an empty array rejects with
      "Rankings not found"; an error envelope is not an array, passes the
      length test and then fails in `.map`; otherwise every record is kept,
      in order, with its four fields. */
  function GetRankings(response: Response<Ranking>): (r: Result<seq<Ranking>>)
    ensures r == Err(Error("Rankings not found")) <==> response == Records([])
    ensures r == Err(NotAnArray) <==> response.ErrorEnvelope?
    ensures r.Ok? <==> response.Records? && |response.records| > 0
    ensures r.Ok? ==> |r.value| == |response.records|
    ensures r.Ok? ==> forall i | 0 <= i < |r.value| ::
                        r.value[i].rank == response.records[i].rank
                        && r.value[i].country == response.records[i].country
                        && r.value[i].score == response.records[i].score
                        && r.value[i].year == response.records[i].year
  {
    match response
    case ErrorEnvelope(_) => Err(NotAnArray)
    case Records(rs) =>
      if |rs| == 0 then Err(Error("Rankings not found"))
      else Ok(seq(|rs|, i requires 0 <= i < |rs| => RankingRow(rs[i])))
  }

  // ---------------------------------------------------------------------------
  // Distinct years (getUniqueYears)
  // ---------------------------------------------------------------------------

  predicate Distinct(s: seq<int>) {
    forall i, j | 0 <= i < j < |s| :: s[i] != s[j]
  }

  predicate Descending(s: seq<int>) {
    forall i, j | 0 <= i < j < |s| :: s[i] >= s[j]
  }

  /** The push loop of `getUniqueYears`: each year is appended to `acc`
      unless `acc` already includes it. */
  function AppendNew(acc: seq<int>, years: seq<int>): seq<int>
    decreases |years|
  {
    if years == [] then acc
    else
      var before := AppendNew(acc, years[..|years| - 1]);
      var y := years[|years| - 1];
      if y in before then before else before + [y]
  }

  /** Nothing is lost and nothing new appears: a year ends up in the output
      exactly when it was there before or occurs in the input. */
  lemma {:induction false} AppendNewMembers(acc: seq<int>, years: seq<int>)
    ensures forall y :: y in AppendNew(acc, years) <==> y in acc || y in years
    decreases |years|
  {
    if years != [] {
      var init := years[..|years| - 1];
      AppendNewMembers(acc, init);
      assert years == init + [years[|years| - 1]];
    }
  }

  /** A year already present is never pushed again, so a duplicate-free
      output stays duplicate-free. */
  lemma {:induction false} AppendNewDistinct(acc: seq<int>, years: seq<int>)
    requires Distinct(acc)
    ensures Distinct(AppendNew(acc, years))
    decreases |years|
  {
    if years != [] {
      AppendNewDistinct(acc, years[..|years| - 1]);
    }
  }

  /** Existing entries keep their places; new years are only appended. */
  lemma {:induction false} AppendNewExtends(acc: seq<int>, years: seq<int>)
    ensures |AppendNew(acc, years)| >= |acc|
    ensures AppendNew(acc, years)[..|acc|] == acc
    decreases |years|
  {
    if years != [] {
      var init := years[..|years| - 1];
      AppendNewExtends(acc, init);
      var before := AppendNew(acc, init);
      assert (before + [years[|years| - 1]])[..|acc|] == before[..|acc|];
    }
  }

  /** A sequence has no duplicates exactly when no value occurs twice in it. */
  lemma {:induction false} DistinctCounts(s: seq<int>)
    ensures Distinct(s) <==> forall y :: multiset(s)[y] <= 1
  {
    if s != [] {
      var t := s[1..];
      DistinctCounts(t);
      assert s == [s[0]] + t;
      assert multiset(s) == multiset{s[0]} + multiset(t);
      if Distinct(s) {
        forall j | 0 <= j < |t| ensures t[j] != s[0] {
          assert t[j] == s[j + 1];
        }
        assert Distinct(t) by {
          forall i, j | 0 <= i < j < |t| ensures t[i] != t[j] {
            assert t[i] == s[i + 1] && t[j] == s[j + 1];
          }
        }
      } else {
        var i, j :| 0 <= i < j < |s| && s[i] == s[j];
        if i == 0 {
          assert s[j] == t[j - 1];
          assert s[0] in multiset(t);
          assert multiset(s)[s[0]] >= 2;
        } else {
          assert t[i - 1] == t[j - 1];
          assert !Distinct(t);
          var y :| multiset(t)[y] > 1;
          assert multiset(s)[y] > 1;
        }
      }
    }
  }

  /** Putting `x` at a position where everything before is at least `x` and
      everything after is below it keeps a descending sequence descending. */
  lemma InsertKeepsDescending(r: seq<int>, j: nat, x: int)
    requires Descending(r) && j <= |r|
    requires forall k | 0 <= k < j :: r[k] >= x
    requires forall k | j <= k < |r| :: r[k] < x
    ensures Descending(r[..j] + [x] + r[j..])
  {
    var t := r[..j] + [x] + r[j..];
    forall a, b | 0 <= a < b < |t| ensures t[a] >= t[b] {
      if b < j {
        assert t[a] == r[a] && t[b] == r[b];
      } else if b == j {
        assert t[a] == r[a];
      } else if a < j {
        assert t[a] == r[a] && t[b] == r[b - 1];
      } else if a == j {
        assert t[b] == r[b - 1];
      } else {
        assert t[a] == r[a - 1] && t[b] == r[b - 1];
      }
    }
  }

  /** Inserting `x` anywhere adds exactly `x` to the multiset. */
  lemma InsertMultiset(r: seq<int>, j: nat, x: int)
    requires j <= |r|
    ensures multiset(r[..j] + [x] + r[j..]) == multiset(r) + multiset{x}
  {
    assert r == r[..j] + r[j..];
  }

  /** `yearsOut.sort((a, b) => b - a)`: a descending insertion sort. */
  method SortDescending(s: seq<int>) returns (r: seq<int>)
    ensures Descending(r)
    ensures multiset(r) == multiset(s)
  {
    r := [];
    var i := 0;
    while i < |s|
      invariant 0 <= i <= |s|
      invariant Descending(r)
      invariant multiset(r) == multiset(s[..i])
    {
      var x := s[i];
      var j := 0;
      while j < |r| && r[j] >= x
        invariant 0 <= j <= |r|
        invariant forall k | 0 <= k < j :: r[k] >= x
      {
        j := j + 1;
      }
      assert forall k | j <= k < |r| :: r[k] < x by {
        forall k | j <= k < |r| ensures r[k] < x {
          assert r[j] < x && r[j] >= r[k];
        }
      }
      InsertKeepsDescending(r, j, x);
      InsertMultiset(r, j, x);
      r := r[..j] + [x] + r[j..];
      assert s[..i + 1] == s[..i] + [x];
      i := i + 1;
    }
    assert s[..i] == s;
  }

  // ---------------------------------------------------------------------------
  // The grid's filter model and the URL (gridReady, filterChange)
  // ---------------------------------------------------------------------------

  /** One column filter: `{type, filterType, filter}`. */
  datatype FilterEntry = FilterEntry(kind: string, filterType: string, filter: string)

  /** The filter model the page reads and writes: its `country` and `year`
      entries (the only filterable columns). */
  datatype FilterModel = FilterModel(country: Option<FilterEntry>, year: Option<FilterEntry>)

  const NoFilters := FilterModel(None, None)

  function CountryFilter(value: string): FilterEntry {
    FilterEntry("contains", "text", value)
  }

  function YearFilter(value: string): FilterEntry {
    FilterEntry("equals", "number", value)
  }

  /** The filter model `gridReady` builds from the URL: a `country` parameter
      gives a text "contains" entry, a `year` parameter a number "equals"
      entry, an absent key no entry. */
  function DecodeFilter(ps: Params): (m: FilterModel)
    ensures m.country.Some? <==> Has(ps, "country")
    ensures m.year.Some? <==> Has(ps, "year")
    ensures m.country.Some? ==> Get(ps, "country").Some? && m.country.value == CountryFilter(Get(ps, "country").value)
    ensures m.year.Some? ==> Get(ps, "year").Some? && m.year.value == YearFilter(Get(ps, "year").value)
  {
    HasIffGet(ps, "country");
    HasIffGet(ps, "year");
    FilterModel(
      if Has(ps, "country") then Some(CountryFilter(Get(ps, "country").value)) else None,
      if Has(ps, "year") then Some(YearFilter(Get(ps, "year").value)) else None)
  }

  /** The parameters a filter model stands for: country first, then year. */
  function FilterParams(m: FilterModel): Params {
    (if m.country.Some? then [Param("country", m.country.value.filter)] else [])
    + (if m.year.Some? then [Param("year", m.year.value.filter)] else [])
  }

  /** Where `filterChange` navigates: the unfiltered page when there is no
      filter, otherwise the query of the filter's parameters, `country=`
      first, `&` only between two parameters. */
  function EncodeFilter(m: FilterModel): (target: string)
    ensures m.country.None? && m.year.None? ==> target == "/Rankings"
    ensures m.country.Some? && m.year.None? ==> target == "?country=" + m.country.value.filter
    ensures m.country.None? && m.year.Some? ==> target == "?year=" + m.year.value.filter
    ensures m.country.Some? && m.year.Some? ==>
              target == "?country=" + m.country.value.filter + "&year=" + m.year.value.filter
  {
    var ps := FilterParams(m);
    if ps == [] then "/Rankings"
    else
      RenderFilterParams(m);
      Render(ps)
  }

  /** The query string of a non-empty filter model, written out. */
  lemma RenderFilterParams(m: FilterModel)
    requires m.country.Some? || m.year.Some?
    ensures m.country.Some? && m.year.None? ==> Render(FilterParams(m)) == "?country=" + m.country.value.filter
    ensures m.country.None? && m.year.Some? ==> Render(FilterParams(m)) == "?year=" + m.year.value.filter
    ensures m.country.Some? && m.year.Some? ==>
              Render(FilterParams(m)) == "?country=" + m.country.value.filter + "&year=" + m.year.value.filter
  {
    if m.year.None? {
      var v := m.country.value.filter;
      assert FilterParams(m) == [Param("country", v)] + [];
      RenderOne("country", v);
      assert "?" + "country" + "=" == "?country=";
    } else if m.country.None? {
      var v := m.year.value.filter;
      assert FilterParams(m) == [] + [Param("year", v)];
      RenderOne("year", v);
      assert "?" + "year" + "=" == "?year=";
    } else {
      var c, y := m.country.value.filter, m.year.value.filter;
      assert FilterParams(m) == [Param("country", c)] + [Param("year", y)];
      RenderTwo("country", c, "year", y);
      assert "?" + "country" + "=" == "?country=";
      var head := "?country=" + c;
      assert head + "&" + "year" + "=" + y == head + "&year=" + y;
    }
  }

  /** The entries `gridReady` would build for the same values. */
  function Canonical(m: FilterModel): FilterModel {
    FilterModel(
      if m.country.Some? then Some(CountryFilter(m.country.value.filter)) else None,
      if m.year.Some? then Some(YearFilter(m.year.value.filter)) else None)
  }

  predicate CleanFilters(m: FilterModel) {
    (m.country.Some? ==> CleanValue(m.country.value.filter))
    && (m.year.Some? ==> CleanValue(m.year.value.filter))
  }

  /** The parameters of a filter model decode to its canonical form. */
  lemma DecodeFilterParams(m: FilterModel)
    ensures DecodeFilter(FilterParams(m)) == Canonical(m)
  {
    var ps := FilterParams(m);
    HasIffGet(ps, "country");
    HasIffGet(ps, "year");
    if m.country.Some? && m.year.Some? {
      assert ps[1..] == [Param("year", m.year.value.filter)];
    }
  }

  /** The parameters of clean filters are clean. */
  lemma FilterParamsClean(m: FilterModel)
    requires CleanFilters(m)
    ensures CleanParams(FilterParams(m))
  {
    var ps := FilterParams(m);
    AppKeysClean();
    forall i | 0 <= i < |ps| ensures CleanPair(ps[i]) {
      assert ps[i].key == "country" || ps[i].key == "year";
    }
  }

  /** Decoding the URL `filterChange` pushes gives back the same country and
      year filter values (with the entry kinds `gridReady` uses). */
  lemma {:induction false} FilterRoundTrip(m: FilterModel)
    requires CleanFilters(m)
    ensures DecodeFilter(ParseSearch(SearchOf(EncodeFilter(m)))) == Canonical(m)
  {
    var ps := FilterParams(m);
    if ps == [] {
      NoQueryNoParams("/Rankings");
      assert EncodeFilter(m) == "/Rankings";
      assert Get([], "country") == None && Get([], "year") == None;
    } else {
      var target := EncodeFilter(m);
      assert target == Render(ps);
      FilterParamsClean(m);
      RenderRoundTrip("", ps);
      assert "" + Render(ps) == Render(ps);
      assert ParseSearch(SearchOf(target)) == ps;
      DecodeFilterParams(m);
    }
  }

  /** The URL pushed after `gridReady` decodes to the filter model `gridReady`
      set, so re-reading it does not change the filters. */
  lemma {:induction false} DecodeEncodeFixpoint(ps: Params)
    requires Get(ps, "country").Some? ==> CleanValue(Get(ps, "country").value)
    requires Get(ps, "year").Some? ==> CleanValue(Get(ps, "year").value)
    ensures DecodeFilter(ParseSearch(SearchOf(EncodeFilter(DecodeFilter(ps))))) == DecodeFilter(ps)
  {
    FilterRoundTrip(DecodeFilter(ps));
  }

  // ---------------------------------------------------------------------------
  // The page's state
  // ---------------------------------------------------------------------------

  class RankingsPage {
    /** The URL search parameters the page was opened with. */
    const params: Params
    var loading: bool
    var rankings: seq<Ranking>
    var error: Option<Error>
    var uniqueYears: seq<int>
    /** The grid's filter model. */
    var filterModel: FilterModel
    /** The value the year dropdown reads back. */
    var dropdown: string

    constructor (params: Params)
      ensures this.params == params
      ensures loading && rankings == [] && error == None && uniqueYears == []
      ensures filterModel == NoFilters && dropdown == ""
    {
      this.params := params;
      loading := true;
      rankings := [];
      error := None;
      uniqueYears := [];
      filterModel := NoFilters;
      dropdown := "";
    }

    /** `UseRankingsAPI`: the response either fills the rankings or sets the
        error; loading ends either way. */
    method Load(response: Response<Ranking>)
      modifies this`loading, this`rankings, this`error
      ensures !loading
      ensures GetRankings(response).Ok? ==> rankings == GetRankings(response).value && error == old(error)
      ensures GetRankings(response).Err? ==> rankings == old(rankings) && error == Some(GetRankings(response).error)
    {
      var r := GetRankings(response);
      match r {
        case Ok(rs) => rankings := rs;
        case Err(e) => error := Some(e);
      }
      loading := false;
    }

    /** `getUniqueYears(rankingsIn, uniqueYears)`: push every year not yet
        included, then sort descending. */
    method GetUniqueYears(rankingsIn: seq<Ranking>)
      modifies this`uniqueYears
      ensures Descending(uniqueYears)
      ensures multiset(uniqueYears) == multiset(AppendNew(old(uniqueYears), YearsOf(rankingsIn)))
      ensures forall y :: y in uniqueYears <==> y in old(uniqueYears) || y in YearsOf(rankingsIn)
      ensures Distinct(old(uniqueYears)) ==> Distinct(uniqueYears)
    {
      ghost var years := YearsOf(rankingsIn);
      var i := 0;
      while i < |rankingsIn|
        invariant 0 <= i <= |rankingsIn|
        invariant uniqueYears == AppendNew(old(uniqueYears), years[..i])
      {
        var year := rankingsIn[i].year;
        assert years[..i + 1][..i] == years[..i];
        if year !in uniqueYears {
          uniqueYears := uniqueYears + [year];
        }
        i := i + 1;
      }
      assert years[..i] == years;
      ghost var pushed := uniqueYears;
      uniqueYears := SortDescending(uniqueYears);
      AppendNewMembers(old(uniqueYears), years);
      assert forall y :: y in uniqueYears <==> y in pushed by {
        forall y ensures y in uniqueYears <==> y in pushed {
          assert y in uniqueYears <==> y in multiset(uniqueYears);
          assert y in pushed <==> y in multiset(pushed);
        }
      }
      if Distinct(old(uniqueYears)) {
        AppendNewDistinct(old(uniqueYears), years);
        DistinctCounts(pushed);
        DistinctCounts(uniqueYears);
      }
    }

    /** One render: the distinct years are computed only while the list is
        still empty and rankings have arrived; then the page shows its error,
        its loading message or the table, in that order of precedence. */
    method Render() returns (screen: Screen)
      modifies this`uniqueYears
      ensures screen == ScreenFor(error, loading)
      ensures old(uniqueYears) == [] && rankings != [] ==>
                Descending(uniqueYears) && Distinct(uniqueYears)
                && multiset(uniqueYears) == multiset(AppendNew([], YearsOf(rankings)))
                && (forall y :: y in uniqueYears <==> y in YearsOf(rankings))
      ensures !(old(uniqueYears) == [] && rankings != []) ==> uniqueYears == old(uniqueYears)
      ensures rankings != [] ==> uniqueYears != []
    {
      if |uniqueYears| == 0 && |rankings| != 0 {
        GetUniqueYears(rankings);
        assert rankings[0].year in YearsOf(rankings);
      }
      screen := ScreenFor(error, loading);
    }

    /** `gridReady`: the URL parameters become the grid's filter model, and a
        `year` parameter also selects that year in the dropdown. */
    method GridReady()
      modifies this`filterModel, this`dropdown
      ensures filterModel == DecodeFilter(params)
      ensures Has(params, "year") ==> dropdown == SelectValue(YearOptions(uniqueYears), Get(params, "year").value)
      ensures !Has(params, "year") ==> dropdown == old(dropdown)
    {
      HasIffGet(params, "country");
      HasIffGet(params, "year");
      var filter := NoFilters;
      if Has(params, "country") {
        filter := filter.(country := Some(CountryFilter(Get(params, "country").value)));
      }
      if Has(params, "year") {
        filter := filter.(year := Some(YearFilter(Get(params, "year").value)));
        dropdown := SelectValue(YearOptions(uniqueYears), Get(params, "year").value);
      }
      filterModel := filter;
    }

    /** `filterChange`: builds the query text piece by piece and returns the
        URL it pushes. */
    method FilterChange() returns (target: string)
      ensures target == EncodeFilter(filterModel)
    {
      var pushText := "?";
      if filterModel.country.Some? {
        pushText := pushText + "country=" + filterModel.country.value.filter;
      }
      if filterModel.year.Some? {
        if pushText != "?" {
          pushText := pushText + "&";
        }
        pushText := pushText + "year=" + filterModel.year.value.filter;
      }
      if pushText == "?" {
        target := "/Rankings";
      } else {
        target := pushText;
      }
    }

    /** `resetFilters`: clears the filter model and blanks the dropdown. */
    method ResetFilters()
      modifies this`filterModel, this`dropdown
      ensures filterModel == NoFilters && dropdown == ""
    {
      filterModel := NoFilters;
      dropdown := "";
    }

    /** `yearChange`: the user has picked `value` in the dropdown, which from
        then on reads it back; the year entry becomes that year and the
        country entry is left as it was. */
    method YearChange(value: string)
      modifies this`filterModel, this`dropdown
      ensures dropdown == value
      ensures filterModel.year == Some(YearFilter(value))
      ensures filterModel.country == old(filterModel.country)
    {
      dropdown := value;
      filterModel := filterModel.(year := Some(YearFilter(value)));
    }
  }
}
