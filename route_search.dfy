/**
 * The search box (handleSearch in frontend/src/components/RouteSearch.tsx).
 * Its state is the typed query, the last results, a loading flag and an
 * error message. One search is one call of HandleSearch; the outcome of the
 * request it issues is a parameter.
 */
module RouteSearch {
  import opened Wrappers
  import opened Types

  // ---------------------------------------------------------------------
  // String.prototype.trim
  // ---------------------------------------------------------------------

  /** The WhiteSpace and LineTerminator code points that `trim` removes (ECMA-262, section 22.1.3.32). */
  predicate IsJsWhitespace(c: char)
  {
    || c == '\t' || c == '\U{000B}' || c == '\U{000C}' || c == ' '
    || c == '\U{00A0}' || c == '\U{FEFF}' || c == '\U{1680}'
    || ('\U{2000}' <= c <= '\U{200A}')
    || c == '\U{202F}' || c == '\U{205F}' || c == '\U{3000}'
    || c == '\n' || c == '\r' || c == '\U{2028}' || c == '\U{2029}'
  }

  predicate AllWhitespace(s: string)
  {
    forall k :: 0 <= k < |s| ==> IsJsWhitespace(s[k])
  }

  /** Drops leading whitespace: the result is a suffix of s that is empty or starts with a non-space. */
  function TrimStart(s: string): (r: string)
    ensures |r| <= |s| && r == s[|s| - |r|..]
    ensures r == [] || !IsJsWhitespace(r[0])
    ensures AllWhitespace(s[..|s| - |r|])
  {
    if s == [] || !IsJsWhitespace(s[0]) then s
    else
      var r := TrimStart(s[1..]);
      assert s[..|s| - |r|] == [s[0]] + s[1..][..|s| - 1 - |r|];
      r
  }

  /** Drops trailing whitespace: the result is a prefix of s that is empty or ends with a non-space. */
  function TrimEnd(s: string): (r: string)
    ensures |r| <= |s| && r == s[..|r|]
    ensures r == [] || !IsJsWhitespace(r[|r| - 1])
    ensures AllWhitespace(s[|r|..])
  {
    if s == [] || !IsJsWhitespace(s[|s| - 1]) then s
    else
      var r := TrimEnd(s[..|s| - 1]);
      assert s[|r|..] == s[..|s| - 1][|r|..] + [s[|s| - 1]];
      r
  }

  /** `s.trim()`: a slice of s that is empty or starts and ends with a non-space, with only whitespace around it. */
  function Trim(s: string): (r: string)
    ensures |r| <= |TrimStart(s)| <= |s|
    ensures r == [] || (!IsJsWhitespace(r[0]) && !IsJsWhitespace(r[|r| - 1]))
    ensures r == s[|s| - |TrimStart(s)|..][..|r|]
    ensures AllWhitespace(s[..|s| - |TrimStart(s)|]) && AllWhitespace(s[|s| - |TrimStart(s)| + |r|..])
  {
    var t := TrimStart(s);
    var r := TrimEnd(t);
    assert s[|s| - |t| + |r|..] == t[|r|..];
    r
  }

  /** `!query.trim()` holds exactly for a query made only of whitespace. */
  lemma TrimEmptyIffBlank(s: string)
    ensures Trim(s) == "" <==> AllWhitespace(s)
  {
    var t := TrimStart(s);
    if Trim(s) == "" {
      assert t == [];
      assert s[..|s|] == s;
    }
  }

  /** `!query.trim()`. */
  method IsBlankQuery(query: string) returns (blank: bool)
    ensures blank <==> AllWhitespace(query)
  {
    TrimEmptyIffBlank(query);
    blank := Trim(query) == "";
  }

  // ---------------------------------------------------------------------
  // The search state and one search
  // ---------------------------------------------------------------------

  const SearchFailedMessage: string := "Failed to search routes. Please try again."

  /** The component's four pieces of state. */
  datatype SearchView = SearchView(query: string, results: seq<Route>, loading: bool, error: Option<string>)

  /** The query sent and the state on screen while the request is outstanding. */
  datatype SearchRequest = SearchRequest(query: string, loading: bool, error: Option<string>)

  /**
   * One handleSearch: the state afterwards and the requests it issued.
   * A blank query issues nothing and changes nothing; otherwise exactly one
   * request goes out, with loading shown and the old error cleared, and
   * afterwards loading is off and the outcome is on screen.
   */
  function Search(v: SearchView, outcome: Result<seq<Route>, FetchError>): (r: (SearchView, seq<SearchRequest>))
    ensures AllWhitespace(v.query) ==> r == (v, [])
    ensures !AllWhitespace(v.query) ==> r.1 == [SearchRequest(v.query, true, None)]
    ensures !AllWhitespace(v.query) ==> !r.0.loading && r.0.query == v.query
    ensures !AllWhitespace(v.query) && outcome.Ok? ==> r.0.results == outcome.value && r.0.error == None
    ensures !AllWhitespace(v.query) && outcome.Err? ==> r.0.results == v.results && r.0.error == Some(SearchFailedMessage)
  {
    if AllWhitespace(v.query) then (v, [])
    else
      var pending := v.(loading := true, error := None);
      var request := SearchRequest(pending.query, pending.loading, pending.error);
      var settled := match outcome
        case Ok(routes) => pending.(results := routes)
        case Err(_) => pending.(error := Some(SearchFailedMessage));
      (settled.(loading := false), [request])
  }

  /** Outside a search the box is never loading, and every search keeps it so. */
  predicate Idle(v: SearchView)
  {
    !v.loading
  }

  lemma SearchKeepsIdle(v: SearchView, outcome: Result<seq<Route>, FetchError>)
    requires Idle(v)
    ensures Idle(Search(v, outcome).0)
  {
  }

  /** After any search the error is set exactly when the last request failed. */
  lemma SearchErrorIffFailure(v: SearchView, outcome: Result<seq<Route>, FetchError>)
    requires !AllWhitespace(v.query)
    ensures Search(v, outcome).0.error.Some? <==> outcome.Err?
    ensures Search(v, outcome).0.error.Some? ==> Search(v, outcome).0.error.value == SearchFailedMessage
  {
  }

  /** The component, with its state as fields; `requests` records what each search sent. */
  class SearchBox {
    var query: string
    var results: seq<Route>
    var loading: bool
    var error: Option<string>
    ghost var requests: seq<SearchRequest>

    function State(): SearchView
      reads this
    {
      SearchView(query, results, loading, error)
    }

    predicate Valid()
      reads this
    {
      Idle(State())
    }

    /** The initial `useState` values. */
    constructor ()
      ensures Valid()
      ensures State() == SearchView("", [], false, None)
      ensures requests == []
    {
      query := "";
      results := [];
      loading := false;
      error := None;
      requests := [];
    }

    /** The input's onChange: `setQuery(e.target.value)`. */
    method SetQuery(text: string)
      modifies this
      ensures State() == old(State()).(query := text)
      ensures requests == old(requests)
    {
      query := text;
    }

    /** handleSearch, with the request's outcome given. */
    method HandleSearch(outcome: Result<seq<Route>, FetchError>)
      modifies this
      ensures old(Valid()) || !AllWhitespace(old(query)) ==> Valid()
      ensures State() == Search(old(State()), outcome).0
      ensures requests == old(requests) + Search(old(State()), outcome).1
    {
      var blank := IsBlankQuery(query);
      if blank {
        return;
      }
      loading := true;
      error := None;
      requests := requests + [SearchRequest(query, loading, error)];
      match outcome {
        case Ok(routes) =>
          results := routes;
        case Err(_) =>
          error := Some(SearchFailedMessage);
      }
      loading := false;
    }
  }
}
