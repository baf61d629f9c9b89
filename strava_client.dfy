/**
 * The activity search of the backend's Strava client
 * (search_activities in backend/strava_client.py): the athlete's activities
 * are fetched, then kept, in order, when their lowercased name contains the
 * lowercased query. The HTTP exchange is a parameter: its outcome is either
 * the decoded list of activities or an HTTP error.
 */
module StravaClient {
  import opened Wrappers

  /** The "name" entry of an activity's JSON object. */
  datatype NameField = Missing | Null | Name(text: string)

  /** The parts of an activity's JSON object the filter looks at. */
  datatype Activity = Activity(id: int, name: NameField)

  /** `httpx.HTTPError`: a failed request or a non-2xx status. */
  datatype HttpError = HttpError

  /** The exception escaping the search: `None.lower()` for a null name. */
  datatype SearchError = AttributeError

  // ---------------------------------------------------------------------
  // Lowercasing and substring search
  // ---------------------------------------------------------------------

  predicate IsUpper(c: char)
  {
    'A' <= c <= 'Z'
  }

  /** `str.lower()` on one character, for ASCII letters. */
  function AsciiLower(c: char): (l: char)
    ensures !IsUpper(l)
    ensures !IsUpper(c) ==> l == c
    ensures IsUpper(c) ==> l as int == c as int + 32
  {
    if IsUpper(c) then (c as int + 32) as char else c
  }

  /** `str.lower()`, folding ASCII letters only. */
  function Lower(s: string): (r: string)
    ensures |r| == |s|
    ensures forall i :: 0 <= i < |s| ==> !IsUpper(r[i])
    ensures forall i :: 0 <= i < |s| ==> r[i] == s[i] || (IsUpper(s[i]) && r[i] as int == s[i] as int + 32)
  {
    seq(|s|, i requires 0 <= i < |s| => AsciiLower(s[i]))
  }

  /** Lowercasing twice is lowercasing once. */
  lemma LowerIdempotent(s: string)
    ensures Lower(Lower(s)) == Lower(s)
  {
    var l := Lower(s);
    assert forall i :: 0 <= i < |s| ==> Lower(l)[i] == l[i];
  }

  /** Python's `needle in hay` on strings: needle starts at some position of hay. */
  predicate Contains(hay: string, needle: string): (c: bool)
    ensures needle <= hay ==> c
    ensures c ==> |needle| <= |hay|
    decreases |hay|
  {
    needle <= hay || (hay != [] && Contains(hay[1..], needle))
  }

  /** The reference reading of `in`: some slice of hay equals needle. */
  predicate OccursAt(hay: string, needle: string, i: int)
  {
    0 <= i && i + |needle| <= |hay| && hay[i..i + |needle|] == needle
  }

  lemma {:induction false} ContainsOccurs(hay: string, needle: string)
    ensures Contains(hay, needle) <==> exists i :: OccursAt(hay, needle, i)
    decreases |hay|
  {
    if needle <= hay {
      assert OccursAt(hay, needle, 0);
    } else if hay != [] {
      ContainsOccurs(hay[1..], needle);
      if exists i :: OccursAt(hay[1..], needle, i) {
        var i :| OccursAt(hay[1..], needle, i);
        assert hay[i + 1..i + 1 + |needle|] == hay[1..][i..i + |needle|];
        assert OccursAt(hay, needle, i + 1);
      }
      if exists i :: OccursAt(hay, needle, i) {
        var i :| OccursAt(hay, needle, i);
        assert i != 0;
        assert hay[1..][i - 1..i - 1 + |needle|] == hay[i..i + |needle|];
        assert OccursAt(hay[1..], needle, i - 1);
      }
    }
  }

  /** The empty string is in every string, and only it is in the empty string. */
  lemma ContainsEmpty(hay: string, needle: string)
    ensures Contains(hay, "")
    ensures Contains("", needle) <==> needle == ""
  {
  }

  // ---------------------------------------------------------------------
  // The filter
  // ---------------------------------------------------------------------

  /** `activity.get("name", "")`, when the name is not null. */
  function NameText(name: NameField): (t: string)
    requires !name.Null?
    ensures name.Missing? ==> t == ""
    ensures name.Name? ==> t == name.text
  {
    if name.Missing? then "" else name.text
  }

  /** No activity has a null name, so `.lower()` never meets `None`. */
  predicate NoNullName(acts: seq<Activity>)
  {
    forall k :: 0 <= k < |acts| ==> !acts[k].name.Null?
  }

  /** The comprehension's condition: `query_lower in activity.get("name", "").lower()`. */
  predicate Matches(a: Activity, queryLower: string): (m: bool)
    requires !a.name.Null?
    ensures queryLower == "" ==> m
    ensures m ==> |queryLower| <= |NameText(a.name)|
  {
    Contains(Lower(NameText(a.name)), queryLower)
  }

  /** The comprehension: the matching activities in their original order. */
  function Filter(acts: seq<Activity>, queryLower: string): (kept: seq<Activity>)
    requires NoNullName(acts)
    ensures |kept| <= |acts|
  {
    if acts == [] then []
    else
      var rest := Filter(acts[1..], queryLower);
      if Matches(acts[0], queryLower) then [acts[0]] + rest else rest
  }

  /**
   * search_activities: an HTTP error yields the empty list; a null name
   * raises out of the comprehension; otherwise the filtered list.
   */
  function SearchActivities(response: Result<seq<Activity>, HttpError>, query: string): (r: Result<seq<Activity>, SearchError>)
    ensures response.Err? ==> r == Ok([])
    ensures response.Ok? ==> (r.Err? <==> !NoNullName(response.value))
    ensures response.Ok? && r.Ok? ==> |r.value| <= |response.value|
  {
    match response
    case Err(_) => Ok([])
    case Ok(acts) =>
      if !NoNullName(acts) then Err(AttributeError)
      else Ok(Filter(acts, Lower(query)))
  }

  lemma NoNullNameSplit(a: seq<Activity>, b: seq<Activity>)
    ensures NoNullName(a + b) <==> NoNullName(a) && NoNullName(b)
  {
    assert forall k :: 0 <= k < |a| ==> (a + b)[k] == a[k];
    assert forall k :: 0 <= k < |b| ==> (a + b)[|a| + k] == b[k];
  }

  /** Filtering distributes over concatenation. */
  lemma {:induction false} FilterConcat(a: seq<Activity>, b: seq<Activity>, q: string)
    requires NoNullName(a) && NoNullName(b)
    ensures NoNullName(a + b)
    ensures Filter(a + b, q) == Filter(a, q) + Filter(b, q)
    decreases |a|
  {
    NoNullNameSplit(a, b);
    if a != [] {
      assert (a + b)[1..] == a[1..] + b;
      FilterConcat(a[1..], b, q);
    } else {
      assert a + b == b;
    }
  }

  /** One activity is kept exactly when it matches. */
  lemma FilterSingleton(a: Activity, q: string)
    requires !a.name.Null?
    ensures NoNullName([a])
    ensures Filter([a], q) == if Matches(a, q) then [a] else []
  {
    assert [a][1..] == [];
  }

  /** An activity is in the result exactly when it is in the input and matches. */
  lemma {:induction false} FilterMembers(acts: seq<Activity>, q: string, a: Activity)
    requires NoNullName(acts)
    ensures a in Filter(acts, q) <==> a in acts && !a.name.Null? && Matches(a, q)
    decreases |acts|
  {
    if acts != [] {
      FilterMembers(acts[1..], q, a);
      assert acts == [acts[0]] + acts[1..];
    }
  }

  /** Every kept activity has a non-null name, so the result can be filtered again. */
  lemma FilterNoNull(acts: seq<Activity>, q: string)
    requires NoNullName(acts)
    ensures NoNullName(Filter(acts, q))
  {
    forall k | 0 <= k < |Filter(acts, q)|
      ensures !Filter(acts, q)[k].name.Null?
    {
      FilterMembers(acts, q, Filter(acts, q)[k]);
    }
  }

  /** Refiltering with the same query changes nothing. */
  lemma {:induction false} FilterIdempotent(acts: seq<Activity>, q: string)
    requires NoNullName(acts)
    ensures NoNullName(Filter(acts, q))
    ensures Filter(Filter(acts, q), q) == Filter(acts, q)
    decreases |acts|
  {
    FilterNoNull(acts, q);
    if acts != [] {
      FilterIdempotent(acts[1..], q);
      FilterNoNull(acts[1..], q);
      var rest := Filter(acts[1..], q);
      if Matches(acts[0], q) {
        assert ([acts[0]] + rest)[1..] == rest;
      }
    }
  }

  /** The empty query keeps every activity. */
  lemma {:induction false} EmptyQueryKeepsAll(acts: seq<Activity>)
    requires NoNullName(acts)
    ensures Filter(acts, "") == acts
    decreases |acts|
  {
    if acts != [] {
      ContainsEmpty(Lower(NameText(acts[0].name)), "");
      EmptyQueryKeepsAll(acts[1..]);
    }
  }

  /** An activity without a name matches only the empty query. */
  lemma NamelessMatchesOnlyEmpty(id: int, q: string)
    ensures Matches(Activity(id, Missing), q) <==> q == ""
  {
    ContainsEmpty("", q);
  }

  /** The search sees the query only through its lowercase form. */
  lemma SearchSeesLowercase(response: Result<seq<Activity>, HttpError>, q1: string, q2: string)
    requires Lower(q1) == Lower(q2)
    ensures SearchActivities(response, q1) == SearchActivities(response, q2)
  {
  }

  /** Searching a search result again with the same query returns it unchanged. */
  lemma SearchIdempotent(response: Result<seq<Activity>, HttpError>, q: string)
    requires SearchActivities(response, q).Ok?
    ensures SearchActivities(Ok(SearchActivities(response, q).value), q) == SearchActivities(response, q)
  {
    if response.Ok? {
      LowerIdempotent(q);
      FilterIdempotent(response.value, Lower(q));
    }
  }
}
