/**
  The part of the browser's URL handling the pages rely on: the search part
  of a pushed URL and the `URLSearchParams` view of it (`get`, `has`).
  Percent-decoding and '+'-to-space decoding are not modelled, so values are
  the raw text between the separators.
 */
module QueryString {
  import opened Common

  datatype Param = Param(key: string, value: string)
  type Params = seq<Param>

  /** `params.get(key)`: the value of the first pair with that key, or null. */
  function Get(ps: Params, key: string): (r: Option<string>)
    ensures r.None? <==> forall i | 0 <= i < |ps| :: ps[i].key != key
    ensures r.Some? ==> exists i | 0 <= i < |ps| :: ps[i] == Param(key, r.value)
                          && forall j | 0 <= j < i :: ps[j].key != key
  {
    if ps == [] then None
    else if ps[0].key == key then Some(ps[0].value)
    else
      var r := Get(ps[1..], key);
      assert r.Some? ==> exists i | 1 <= i < |ps| :: ps[i] == Param(key, r.value)
                           && forall j | 0 <= j < i :: ps[j].key != key by {
        if r.Some? {
          var i :| 0 <= i < |ps| - 1 && ps[1..][i] == Param(key, r.value)
                   && forall j | 0 <= j < i :: ps[1..][j].key != key;
          assert ps[i + 1] == Param(key, r.value);
          assert forall j | 0 <= j < i + 1 :: ps[j].key != key by {
            forall j | 0 <= j < i + 1 ensures ps[j].key != key {
              if j > 0 { assert ps[j] == ps[1..][j - 1]; }
            }
          }
        }
      }
      r
  }

  /** `params.has(key)`: some pair has that key. */
  predicate Has(ps: Params, key: string) {
    exists i | 0 <= i < |ps| :: ps[i].key == key
  }

  /** Position of the first occurrence of `c` in `s`. */
  function IndexOf(s: string, c: char): (i: nat)
    requires c in s
    ensures i < |s| && s[i] == c && c !in s[..i]
  {
    if s[0] == c then 0
    else
      var i := 1 + IndexOf(s[1..], c);
      assert s[..i] == [s[0]] + s[1..][..i - 1];
      i
  }

  /** `s.split(sep)`: the pieces between consecutive separators. */
  function Split(s: string, sep: char): (parts: seq<string>)
    ensures |parts| >= 1
    ensures forall k | 0 <= k < |parts| :: sep !in parts[k]
    decreases |s|
  {
    if sep !in s then [s]
    else
      var i := IndexOf(s, sep);
      [s[..i]] + Split(s[i + 1..], sep)
  }

  /** One `key=value` piece; the key ends at the first '=', and a piece
      without '=' is a key with the empty value. */
  function ParsePair(piece: string): Param {
    if '=' in piece then
      var i := IndexOf(piece, '=');
      Param(piece[..i], piece[i + 1..])
    else Param(piece, "")
  }

  /** The pairs of the non-empty pieces, in order. */
  function ParsePieces(pieces: seq<string>): Params {
    if pieces == [] then []
    else if pieces[0] == "" then ParsePieces(pieces[1..])
    else [ParsePair(pieces[0])] + ParsePieces(pieces[1..])
  }

  /** `new URLSearchParams(search)`: a leading '?' is dropped, the rest is
      split on '&' and every non-empty piece becomes a pair. */
  function ParseSearch(search: string): (ps: Params)
    ensures search == "" || search == "?" ==> ps == []
  {
    var body := if |search| > 0 && search[0] == '?' then search[1..] else search;
    assert body == "" ==> Split(body, '&') == [""] && ParsePieces([""]) == [];
    ParsePieces(Split(body, '&'))
  }

  /** `location.search` after `history.push(url)`: from the first '?' up to
      the fragment, or "" when the URL has no query. */
  function SearchOf(url: string): (search: string)
    ensures search == "" || search[0] == '?'
    ensures '#' !in search
  {
    var noFragment := if '#' in url then url[..IndexOf(url, '#')] else url;
    if '?' in noFragment then noFragment[IndexOf(noFragment, '?')..] else ""
  }

  /** The `key=value` text of one pair. */
  function PairText(p: Param): string {
    p.key + "=" + p.value
  }

  /** Pairs joined with '&'. */
  function JoinPairs(ps: Params): string {
    if |ps| == 0 then ""
    else if |ps| == 1 then PairText(ps[0])
    else PairText(ps[0]) + "&" + JoinPairs(ps[1..])
  }

  /** The query `?k1=v1&k2=v2…` the pages build by concatenation. */
  function Render(ps: Params): string {
    "?" + JoinPairs(ps)
  }

  /** A pair the parser gives back unchanged: the key holds no separator,
      and the value holds no '&', no fragment mark and nothing the real
      decoder would rewrite ('%', '+'). */
  predicate CleanValue(v: string) {
    '&' !in v && '#' !in v && '%' !in v && '+' !in v
  }

  predicate CleanPair(p: Param) {
    CleanValue(p.key) && '=' !in p.key && CleanValue(p.value)
  }

  predicate CleanParams(ps: Params) {
    forall i | 0 <= i < |ps| :: CleanPair(ps[i])
  }

  lemma {:induction false} SplitAtFirst(a: string, b: string, sep: char)
    requires sep !in a
    ensures Split(a + [sep] + b, sep) == [a] + Split(b, sep)
  {
    var s := a + [sep] + b;
    assert s[|a|] == sep;
    var i := IndexOf(s, sep);
    assert s[..|a|] == a;
    assert i == |a|;
    assert s[..i] == a;
    assert s[i + 1..] == b;
  }

  lemma {:induction false} ParsePairText(p: Param)
    requires '=' !in p.key
    ensures ParsePair(PairText(p)) == p
  {
    var piece := PairText(p);
    assert piece[|p.key|] == '=';
    var i := IndexOf(piece, '=');
    assert piece[..|p.key|] == p.key;
    assert i == |p.key|;
    assert piece[..i] == p.key;
    assert piece[i + 1..] == p.value;
  }

  lemma {:induction false} JoinPairsNoFragment(ps: Params)
    requires CleanParams(ps)
    ensures '#' !in JoinPairs(ps)
  {
    if |ps| > 1 {
      JoinPairsNoFragment(ps[1..]);
      assert JoinPairs(ps) == PairText(ps[0]) + "&" + JoinPairs(ps[1..]);
    }
  }

  /** A non-empty first piece becomes the first pair. */
  lemma ParsePiecesCons(head: string, rest: seq<string>)
    requires head != ""
    ensures ParsePieces([head] + rest) == [ParsePair(head)] + ParsePieces(rest)
  {
    assert ([head] + rest)[1..] == rest;
  }

  /** The text of a clean pair is non-empty and holds no '&'. */
  lemma PairTextClean(p: Param)
    requires CleanPair(p)
    ensures PairText(p) != "" && '&' !in PairText(p)
    ensures ParsePair(PairText(p)) == p
  {
    assert PairText(p)[|p.key|] == '=';
    ParsePairText(p);
  }

  /** Splitting joined pairs on '&' splits off the first pair's text. */
  lemma SplitJoinStep(ps: Params)
    requires |ps| > 1 && CleanPair(ps[0])
    ensures Split(JoinPairs(ps), '&') == [PairText(ps[0])] + Split(JoinPairs(ps[1..]), '&')
  {
    PairTextClean(ps[0]);
    SplitAtFirst(PairText(ps[0]), JoinPairs(ps[1..]), '&');
    assert JoinPairs(ps) == PairText(ps[0]) + ['&'] + JoinPairs(ps[1..]);
  }

  /** Parsing the joined pairs gives back exactly those pairs. */
  lemma {:induction false} ParseJoinPairs(ps: Params)
    requires CleanParams(ps)
    ensures ParsePieces(Split(JoinPairs(ps), '&')) == ps
  {
    if |ps| == 0 {
      assert Split("", '&') == [""];
    } else {
      var head := PairText(ps[0]);
      PairTextClean(ps[0]);
      if |ps| == 1 {
        assert Split(head, '&') == [head];
        ParsePiecesCons(head, []);
      } else {
        var tail := ps[1..];
        assert CleanParams(tail) by {
          forall i | 0 <= i < |tail| ensures CleanPair(tail[i]) {
            assert tail[i] == ps[i + 1];
          }
        }
        ParseJoinPairs(tail);
        SplitJoinStep(ps);
        ParsePiecesCons(head, Split(JoinPairs(tail), '&'));
        assert ps == [ps[0]] + tail;
      }
    }
  }

  /** The query of one pair. */
  lemma RenderOne(k: string, v: string)
    ensures Render([Param(k, v)]) == "?" + k + "=" + v
  {
  }

  /** The query of two pairs. */
  lemma RenderTwo(k1: string, v1: string, k2: string, v2: string)
    ensures Render([Param(k1, v1), Param(k2, v2)]) == "?" + k1 + "=" + v1 + "&" + k2 + "=" + v2
  {
    var ps := [Param(k1, v1), Param(k2, v2)];
    assert ps[1..] == [Param(k2, v2)];
    assert JoinPairs(ps) == PairText(ps[0]) + "&" + PairText(ps[1]);
  }

  /** Query-string round trip: pushing `path + Render(ps)` and reading the
      new location's search parameters gives back `ps`, for clean pairs and
      a path without a query or a fragment. */
  lemma {:induction false} RenderRoundTrip(path: string, ps: Params)
    requires CleanParams(ps)
    requires '?' !in path && '#' !in path
    ensures SearchOf(path + Render(ps)) == Render(ps)
    ensures ParseSearch(Render(ps)) == ps
  {
    var url := path + Render(ps);
    JoinPairsNoFragment(ps);
    assert '#' !in url by {
      assert url == path + ['?'] + JoinPairs(ps);
    }
    assert url[|path|] == '?';
    var i := IndexOf(url, '?');
    assert url[..|path|] == path;
    assert i == |path|;
    assert url[i..] == Render(ps);
    ParseJoinPairs(ps);
    assert Render(ps)[1..] == JoinPairs(ps);
  }

  /** The keys the pages write, `country` and `year`, need no escaping. */
  lemma AppKeysClean()
    ensures CleanValue("country") && '=' !in "country"
    ensures CleanValue("year") && '=' !in "year"
  {
  }

  /** A URL without a query string leaves no search parameters. */
  lemma NoQueryNoParams(path: string)
    requires '?' !in path
    ensures SearchOf(path) == ""
    ensures ParseSearch(SearchOf(path)) == []
  {
    var noFragment := if '#' in path then path[..IndexOf(path, '#')] else path;
    assert forall k | 0 <= k < |noFragment| :: noFragment[k] == path[k];
    assert '?' !in noFragment;
    assert Split("", '&') == [""];
    assert ParsePieces([""]) == ParsePieces([]);
  }

  /** `has` and `get` agree: a key is present exactly when `get` finds it. */
  lemma HasIffGet(ps: Params, key: string)
    ensures Has(ps, key) <==> Get(ps, key).Some?
  {
  }
}
