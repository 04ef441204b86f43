/** `App.js`: `linkParams`, the exported helper that builds a `?country=`
    suffix from a page's parameters. */
module App {
  import opened Common
  import opened QueryString

  /** `linkParams(params)`: "" without a `country` parameter, otherwise
      `?country=` followed by its raw value; no other key is carried. */
  function LinkParams(ps: Params): (link: string)
    ensures Get(ps, "country").None? <==> link == ""
    ensures Get(ps, "country").Some? ==> link == "?country=" + Get(ps, "country").value
  {
    match Get(ps, "country")
    case None => ""
    case Some(v) => "?country=" + v
  }

  /** The link depends on the `country` parameter alone: pages that agree on
      it get the same link, whatever their other parameters (`year`, …). */
  lemma LinkParamsOnlyCountry(ps: Params, qs: Params)
    requires Get(ps, "country") == Get(qs, "country")
    ensures LinkParams(ps) == LinkParams(qs)
  {
  }

  /** The link is either empty or starts with `?country=`. */
  lemma LinkParamsShape(ps: Params)
    ensures var link := LinkParams(ps);
            link == "" || (|link| >= 9 && link[..9] == "?country=")
  {
  }

  /** Following a link to `path + LinkParams(ps)` lands on a page whose only
      search parameter is the original country, unchanged (for a value the
      browser does not re-encode). */
  lemma {:induction false} LinkParamsRoundTrip(path: string, ps: Params)
    requires '?' !in path && '#' !in path
    requires Get(ps, "country").Some? && CleanValue(Get(ps, "country").value)
    ensures ParseSearch(SearchOf(path + LinkParams(ps))) == [Param("country", Get(ps, "country").value)]
  {
    var v := Get(ps, "country").value;
    var p := Param("country", v);
    var link := LinkParams(ps);
    assert link == "?country=" + v;
    RenderOne("country", v);
    assert "?" + "country" + "=" == "?country=";
    assert link == Render([p]);
    assert CleanParams([p]) by {
      AppKeysClean();
      assert CleanPair(p);
    }
    RenderRoundTrip(path, [p]);
  }
}
