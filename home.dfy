/**
  `Home.js`: the country search box. The input is matched against the
  country list without regard to case: an exact match navigates to the
  country's page, otherwise the box is filled with the first country that
  contains the input, and failing that the user is alerted.
 */
module Home {
  import opened Common
  import opened QueryString

  const NotFoundMessage := "Please type or select an appropriately named country"

  /** `toLowerCase` on one character (letters A-Z only). */
  function LowerChar(c: char): (l: char)
    ensures 'A' <= c <= 'Z' ==> l as int == c as int + 32
    ensures !('A' <= c <= 'Z') ==> l == c
    ensures !('A' <= l <= 'Z')
  {
    if 'A' <= c <= 'Z' then (c as int + 32) as char else c
  }

  /** `s.toLowerCase()`. */
  function Lower(s: string): (l: string)
    ensures |l| == |s|
    ensures forall i | 0 <= i < |s| :: l[i] == LowerChar(s[i])
  {
    seq(|s|, i requires 0 <= i < |s| => LowerChar(s[i]))
  }

  /** `countries.map(country => country.toLowerCase())`. */
  function LowerAll(countries: seq<string>): (ls: seq<string>)
    ensures |ls| == |countries|
    ensures forall i | 0 <= i < |countries| :: ls[i] == Lower(countries[i])
  {
    seq(|countries|, i requires 0 <= i < |countries| => Lower(countries[i]))
  }

  /** Lowercasing twice is lowercasing once. */
  lemma LowerIdempotent(s: string)
    ensures Lower(Lower(s)) == Lower(s)
  {
    var l := Lower(s);
    assert forall i | 0 <= i < |l| :: LowerChar(l[i]) == l[i];
  }

  /** `needle` occurs in `hay` starting at position `i`. */
  predicate OccursAt(hay: string, needle: string, i: int) {
    0 <= i && i + |needle| <= |hay| && hay[i..i + |needle|] == needle
  }

  /** `hay.match(new RegExp(".*" + needle + ".*"))` with `needle` read
      literally: `needle` occurs somewhere in `hay`. */
  predicate Contains(hay: string, needle: string)
    ensures Contains(hay, needle) ==> |needle| <= |hay|
    ensures needle == [] ==> Contains(hay, needle)
  {
    assert needle == [] ==> OccursAt(hay, needle, 0);
    exists i | 0 <= i <= |hay| - |needle| :: OccursAt(hay, needle, i)
  }

  /** Every string contains itself. */
  lemma ContainsSelf(s: string)
    ensures Contains(s, s)
  {
    assert OccursAt(s, s, 0);
  }

  /** `countries.find(c => c.match(reg))`, as an index: the first country in
      list order that contains the input. */
  function FirstContaining(countries: seq<string>, input: string): (r: Option<nat>)
    ensures r.None? <==> forall i | 0 <= i < |countries| :: !Contains(countries[i], input)
    ensures r.Some? ==> r.value < |countries| && Contains(countries[r.value], input)
                        && forall j | 0 <= j < r.value :: !Contains(countries[j], input)
  {
    if countries == [] then None
    else if Contains(countries[0], input) then Some(0)
    else
      var r := FirstContaining(countries[1..], input);
      assert forall i | 1 <= i < |countries| :: countries[i] == countries[1..][i - 1];
      if r.None? then None else Some(r.value + 1)
  }

  /** What submitting the search form does. */
  datatype Outcome =
    | Navigate(url: string)       // history.push(url)
    | Autofill(value: string)     // countrySearch.value = value
    | Alert(message: string)      // alert(message)

  /** `handleSearch`: an exact case-insensitive match navigates with the
      lowercased input; otherwise the first lowercased country containing the
      lowercased input (when it is a non-empty string) fills the box;
      otherwise the user is alerted. */
  function Search(countries: seq<string>, input: string): (o: Outcome)
    ensures o.Navigate? <==> Lower(input) in LowerAll(countries)
    ensures o.Navigate? ==> o.url == "/Country?country=" + Lower(input)
    ensures o.Autofill? ==>
              Lower(input) !in LowerAll(countries)
              && exists i | 0 <= i < |countries| ::
                   o.value == Lower(countries[i]) && Contains(o.value, Lower(input))
                   && forall j | 0 <= j < i :: !Contains(Lower(countries[j]), Lower(input))
    ensures o.Alert? ==> o.message == NotFoundMessage
  {
    var query := Lower(input);
    var lowered := LowerAll(countries);
    if query in lowered then Navigate("/Country?country=" + query)
    else
      var first := FirstContaining(lowered, query);
      if first.Some? && lowered[first.value] != "" then Autofill(lowered[first.value])
      else Alert(NotFoundMessage)
  }

  /** The user is alerted exactly when no country contains the input, case
      aside: a country that contains it is never an empty name, since the
      empty name would have been an exact match. */
  lemma {:induction false} AlertIff(countries: seq<string>, input: string)
    ensures Search(countries, input).Alert? <==>
              forall i | 0 <= i < |countries| :: !Contains(Lower(countries[i]), Lower(input))
  {
    var query := Lower(input);
    var lowered := LowerAll(countries);
    var first := FirstContaining(lowered, query);
    if query in lowered {
      var i :| 0 <= i < |lowered| && lowered[i] == query;
      ContainsSelf(query);
      assert Contains(Lower(countries[i]), Lower(input));
    } else if first.Some? {
      var c := lowered[first.value];
      var k :| 0 <= k <= |c| - |query| && OccursAt(c, query, k);
      assert c == "" ==> c == query;
      assert c != "";
      assert Contains(Lower(countries[first.value]), Lower(input));
    }
  }

  /** Matching ignores case: inputs that agree once lowercased lead to the
      same outcome, and so do country lists that agree once lowercased. */
  lemma SearchIgnoresCase(countries: seq<string>, others: seq<string>, a: string, b: string)
    requires Lower(a) == Lower(b) && LowerAll(countries) == LowerAll(others)
    ensures Search(countries, a) == Search(others, b)
  {
  }

  /** Submitting again after an autofill navigates to the filled-in country. */
  lemma {:induction false} AutofillThenSubmit(countries: seq<string>, input: string)
    requires Search(countries, input).Autofill?
    ensures Search(countries, Search(countries, input).value)
            == Navigate("/Country?country=" + Search(countries, input).value)
  {
    var v := Search(countries, input).value;
    var i :| 0 <= i < |countries| && v == Lower(countries[i]);
    LowerIdempotent(countries[i]);
    assert Lower(v) == LowerAll(countries)[i];
  }

  /** The country page opened by an exact match reads back the lowercased
      input as its `country` parameter (for input the browser does not
      re-encode). */
  lemma {:induction false} NavigateRoundTrip(countries: seq<string>, input: string)
    requires Search(countries, input).Navigate?
    requires CleanValue(Lower(input))
    ensures ParseSearch(SearchOf(Search(countries, input).url)) == [Param("country", Lower(input))]
  {
    var p := Param("country", Lower(input));
    RenderOne("country", Lower(input));
    assert "?" + "country" + "=" == "?country=";
    assert "/Country" + "?country=" == "/Country?country=";
    assert Search(countries, input).url == "/Country" + Render([p]);
    AppKeysClean();
    assert CleanParams([p]) by {
      assert CleanPair(p);
    }
    RenderRoundTrip("/Country", [p]);
  }

  /** The page's state: the country list and the search box. */
  class HomePage {
    var loading: bool
    var countries: seq<string>
    var error: Option<Error>
    /** The text in the search box. */
    var searchValue: string
    /** URLs pushed onto the history, oldest first. */
    var history: seq<string>
    /** Alerts shown, oldest first. */
    var alerts: seq<string>

    constructor ()
      ensures loading && countries == [] && error == None
      ensures searchValue == "" && history == [] && alerts == []
    {
      loading := true;
      countries := [];
      error := None;
      searchValue := "";
      history := [];
      alerts := [];
    }

    /** `UseCountriesAPI`: the list is kept in the order the API sent it. */
    method Load(response: Result<seq<string>>)
      modifies this`loading, this`countries, this`error
      ensures !loading
      ensures response.Ok? ==> countries == response.value && error == old(error)
      ensures response.Err? ==> countries == old(countries) && error == Some(response.error)
    {
      match response {
        case Ok(cs) =>
          countries := cs;
        case Err(e) =>
          error := Some(e);
      }
      loading := false;
    }

    /** Typing into the search box. */
    method Type(text: string)
      modifies this`searchValue
      ensures searchValue == text
    {
      searchValue := text;
    }

    /** `handleSearch`, applied to the page. */
    method HandleSearch()
      modifies this`searchValue, this`history, this`alerts
      ensures var o := Search(countries, old(searchValue));
              match o
              case Navigate(url) =>
                history == old(history) + [url] && searchValue == old(searchValue) && alerts == old(alerts)
              case Autofill(value) =>
                searchValue == value && history == old(history) && alerts == old(alerts)
              case Alert(message) =>
                alerts == old(alerts) + [message] && searchValue == old(searchValue) && history == old(history)
    {
      var input := Lower(searchValue);
      var lowered := LowerAll(countries);
      if input in lowered {
        history := history + ["/Country?country=" + input];
      } else {
        var first := FirstContaining(lowered, input);
        if first.Some? && lowered[first.value] != "" {
          searchValue := lowered[first.value];
        } else {
          alerts := alerts + [NotFoundMessage];
        }
      }
    }
  }
}
