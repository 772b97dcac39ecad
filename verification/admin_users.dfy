/** The admin users page (app/admin/users/page.js): the query built from the
    four optional filters, the page's loading flag, and how each user row
    classifies and displays priority and ticket counts. */
module AdminUsers {
  import opened Results

  /** The four filter inputs; an empty string means "no filter". */
  datatype Filters = Filters(role: string, priority: string, assignedAfter: string, resolvedBefore: string)

  const NoFilters: Filters := Filters("", "", "", "")

  /** The query keys in the order the page appends them. */
  const ParamKeys: seq<string> := ["role", "priority", "assignedAfter", "resolvedBefore"]

  /** Position of a key in `ParamKeys`, or 4 for any other key. */
  function Rank(key: string): (n: nat)
    ensures n < 4 <==> key in ParamKeys
    ensures n < 4 ==> ParamKeys[n] == key
  {
    if key == "role" then 0
    else if key == "priority" then 1
    else if key == "assignedAfter" then 2
    else if key == "resolvedBefore" then 3
    else 4
  }

  /** The filter named by a query key; "" for a key that is not a filter. */
  function FilterValue(f: Filters, key: string): string {
    if key == "role" then f.role
    else if key == "priority" then f.priority
    else if key == "assignedAfter" then f.assignedAfter
    else if key == "resolvedBefore" then f.resolvedBefore
    else ""
  }

  /** The pair for one filter, present only when the filter is non-empty. */
  function Param(key: string, value: string): seq<(string, string)> {
    if value == "" then [] else [(key, value)]
  }

  /** The ordered key/value pairs of the `/admin/users` query. */
  function QueryParams(f: Filters): (r: seq<(string, string)>)
    ensures |r| <= 4
    ensures forall i :: 0 <= i < |r| ==> Rank(r[i].0) < 4 && r[i].1 != "" && r[i].1 == FilterValue(f, r[i].0)
    ensures forall i, j :: 0 <= i < j < |r| ==> Rank(r[i].0) < Rank(r[j].0)
    ensures forall k :: k in ParamKeys && FilterValue(f, k) != "" ==> (k, FilterValue(f, k)) in r
  {
    Param("role", f.role) + Param("priority", f.priority)
      + Param("assignedAfter", f.assignedAfter) + Param("resolvedBefore", f.resolvedBefore)
  }

  /** The value of the first pair with this key, as a query parser reads it. */
  function Lookup(params: seq<(string, string)>, key: string): (r: Option<string>)
    ensures r.Some? <==> exists i :: 0 <= i < |params| && params[i].0 == key
  {
    if |params| == 0 then None
    else if params[0].0 == key then Some(params[0].1)
    else Lookup(params[1..], key)
  }

  /** Reads the filters back out of a query; a missing key is an empty filter. */
  function FiltersOf(params: seq<(string, string)>): Filters {
    Filters(Lookup(params, "role").GetOr(""), Lookup(params, "priority").GetOr(""),
            Lookup(params, "assignedAfter").GetOr(""), Lookup(params, "resolvedBefore").GetOr(""))
  }

  /** The query loses nothing: the filters can be read back from it. */
  lemma QueryParamsRoundTrip(f: Filters)
    ensures FiltersOf(QueryParams(f)) == f
  {
    var r := QueryParams(f);
    forall k | k in ParamKeys ensures Lookup(r, k).GetOr("") == FilterValue(f, k) {
      LookupUniqueKey(r, k);
      if FilterValue(f, k) == "" {
        assert forall i :: 0 <= i < |r| ==> r[i].0 != k;
      }
    }
    assert "role" in ParamKeys && "priority" in ParamKeys;
    assert "assignedAfter" in ParamKeys && "resolvedBefore" in ParamKeys;
  }

  /** In a query whose keys all differ, a lookup finds the one pair with the key. */
  lemma {:induction false} LookupUniqueKey(params: seq<(string, string)>, key: string)
    requires forall i, j :: 0 <= i < j < |params| ==> Rank(params[i].0) < Rank(params[j].0)
    ensures forall i :: 0 <= i < |params| && params[i].0 == key ==> Lookup(params, key) == Some(params[i].1)
  {
    if |params| > 0 {
      LookupUniqueKey(params[1..], key);
      forall i | 0 < i < |params| && params[i].0 == key
        ensures Lookup(params, key) == Some(params[i].1)
      {
        assert Rank(params[0].0) < Rank(params[i].0);
        assert params[i] == params[1..][i - 1];
      }
    }
  }

  /** Each non-empty filter contributes exactly one pair; with every filter
      empty the query is empty. */
  lemma QueryParamsSize(f: Filters)
    ensures |QueryParams(f)| == |set k | k in ParamKeys && FilterValue(f, k) != ""|
    ensures QueryParams(NoFilters) == []
  {
    var r := QueryParams(f);
    var present := set k | k in ParamKeys && FilterValue(f, k) != "";
    var ks := set i | 0 <= i < |r| :: r[i].0;
    assert ks == present by {
      forall k | k in present ensures k in ks {
        assert k == ParamKeys[Rank(k)];
      }
    }
    KeysDistinctSize(r);
  }

  /** Keys in strictly increasing rank are distinct, so there are as many of
      them as pairs. */
  lemma {:induction false} KeysDistinctSize(params: seq<(string, string)>)
    requires forall i, j :: 0 <= i < j < |params| ==> Rank(params[i].0) < Rank(params[j].0)
    ensures |set i | 0 <= i < |params| :: params[i].0| == |params|
  {
    if |params| > 0 {
      var tail := params[1..];
      KeysDistinctSize(tail);
      var all := set i | 0 <= i < |params| :: params[i].0;
      var rest := set i | 0 <= i < |tail| :: tail[i].0;
      assert all == rest + {params[0].0} by {
        forall k | k in all ensures k in rest + {params[0].0} {
          var i :| 0 <= i < |params| && params[i].0 == k;
          if i > 0 {
            assert tail[i - 1].0 == k;
          }
        }
      }
      assert params[0].0 !in rest by {
        forall i | 0 <= i < |tail| ensures tail[i].0 != params[0].0 {
          assert Rank(params[0].0) < Rank(params[i + 1].0);
        }
      }
    }
  }

  /** A user row as the page receives it. */
  datatype AdminUser = AdminUser(
    id: string,
    name: string,
    email: string,
    role: string,
    priority: Option<string>,
    ticketsRaised: Option<int>,
    ticketsResolved: Option<int>)

  datatype PriorityClass = HighClass | MediumClass | LowClass | NeutralClass

  /** `toLowerCase` on the ASCII letters; other characters are kept. */
  function LowerChar(c: char): char {
    if 'A' <= c <= 'Z' then (c as int + 32) as char else c
  }

  function Lower(s: string): (r: string)
    ensures |r| == |s|
    ensures forall i :: 0 <= i < |s| ==> r[i] == LowerChar(s[i])
  {
    if |s| == 0 then [] else [LowerChar(s[0])] + Lower(s[1..])
  }

  function UpperChar(c: char): char {
    if 'a' <= c <= 'z' then (c as int - 32) as char else c
  }

  /** Character-by-character comparison ignoring ASCII case. */
  predicate EqualsIgnoreCase(a: string, b: string) {
    |a| == |b| && forall i :: 0 <= i < |a| ==> LowerChar(a[i]) == LowerChar(b[i])
  }

  /** The badge class: the priority, or the empty text when it is missing, is
      lower-cased and compared with the three priority names. */
  function Classify(p: Option<string>): PriorityClass {
    var v := Lower(p.GetOr(""));
    if v == "high" then HighClass
    else if v == "medium" then MediumClass
    else if v == "low" then LowClass
    else NeutralClass
  }

  /** The classification is case-insensitive over high/medium/low; a missing,
      empty or any other priority is neutral. */
  lemma ClassifyCaseInsensitive(p: Option<string>)
    ensures Classify(p) == HighClass <==> p.Some? && EqualsIgnoreCase(p.value, "high")
    ensures Classify(p) == MediumClass <==> p.Some? && EqualsIgnoreCase(p.value, "medium")
    ensures Classify(p) == LowClass <==> p.Some? && EqualsIgnoreCase(p.value, "low")
    ensures p.None? ==> Classify(p) == NeutralClass
  {
  }

  /** `Lower`'s counterpart: upper-cases the ASCII letters. */
  function Upper(s: string): (r: string)
    ensures |r| == |s|
    ensures forall i :: 0 <= i < |s| ==> r[i] == UpperChar(s[i])
  {
    if |s| == 0 then [] else [UpperChar(s[0])] + Upper(s[1..])
  }

  /** ASCII upper-casing never changes the class. */
  lemma ClassifyIgnoresUpperCase(s: string)
    ensures Classify(Some(Upper(s))) == Classify(Some(s))
  {
    assert Lower(Upper(s)) == Lower(s) by {
      forall i | 0 <= i < |s| ensures Lower(Upper(s))[i] == Lower(s)[i] {
        assert LowerChar(UpperChar(s[i])) == LowerChar(s[i]);
      }
    }
  }


  /** The priority text, with "N/A" standing in for a missing or empty priority. */
  function PriorityText(p: Option<string>): (t: string)
    ensures t != ""
    ensures p.Some? && p.value != "" ==> t == p.value
    ensures p.None? || p.value == "" ==> t == "N/A"
  {
    if p.Some? && p.value != "" then p.value else "N/A"
  }

  /** A ticket count, with 0 standing in for a missing one. */
  function CountText(c: Option<int>): (n: int)
    ensures c.None? ==> n == 0
    ensures c.Some? ==> n == c.value
  {
    if c.Some? && c.value != 0 then c.value else 0
  }

  /** What one table row shows. */
  datatype Row = Row(name: string, email: string, role: string, priorityClass: PriorityClass,
                     priority: string, raised: int, resolved: int)

  function RenderRow(u: AdminUser): (r: Row)
    ensures r.name == u.name && r.email == u.email && r.role == u.role
    ensures r.priority == PriorityText(u.priority) && r.priorityClass == Classify(u.priority)
    ensures r.raised == u.ticketsRaised.GetOr(0) && r.resolved == u.ticketsResolved.GetOr(0)
  {
    Row(u.name, u.email, u.role, Classify(u.priority), PriorityText(u.priority),
        CountText(u.ticketsRaised), CountText(u.ticketsResolved))
  }

  /** The page state: the listed users and whether the first load is pending. */
  datatype Page = Page(users: seq<AdminUser>, loading: bool)

  /** The page mounts showing "Loading users...". */
  const InitialPage: Page := Page([], true)

  /** `fetchUsers`: the parsed response body replaces the list; a failure is
      logged and keeps it. Either way `loading` ends false and the table shows. */
  function FetchUsers(p: Page, res: Outcome<seq<AdminUser>>): (r: Page)
    ensures !r.loading
    ensures res.Ok? ==> r.users == res.value
    ensures res.Err? ==> r.users == p.users
  {
    match res
    case Ok(data) => Page(data, false)
    case Err(_) => p.(loading := false)
  }

  /** A priority that gets a coloured badge is always shown as given, never as
      "N/A"; only a neutral priority can read "N/A". */
  lemma ClassifiedPriorityShownAsGiven(p: Option<string>)
    ensures Classify(p) != NeutralClass ==> p.Some? && PriorityText(p) == p.value
    ensures PriorityText(p) == "N/A" ==> Classify(p) == NeutralClass
  {
  }

  /** Runs the page's fetches in order, one per filter change. */
  function FetchAll(p: Page, results: seq<Outcome<seq<AdminUser>>>): Page
    decreases |results|
  {
    if |results| == 0 then p else FetchAll(FetchUsers(p, results[0]), results[1..])
  }

  /** The page shows "Loading users..." only until its first fetch settles:
      after any non-empty series of fetches the table is shown, and the users
      listed are those of the last fetch when it succeeded. */
  lemma {:induction false} PageSettles(p: Page, results: seq<Outcome<seq<AdminUser>>>)
    requires |results| > 0
    ensures !FetchAll(p, results).loading
    ensures results[|results| - 1].Ok? ==> FetchAll(p, results).users == results[|results| - 1].value
    decreases |results|
  {
    if |results| > 1 {
      PageSettles(FetchUsers(p, results[0]), results[1..]);
      assert results[1..][|results| - 2] == results[|results| - 1];
    }
  }

  /** Fetch `j` succeeded and every later fetch failed. */
  predicate LastSuccess(results: seq<Outcome<seq<AdminUser>>>, j: int) {
    0 <= j < |results| && results[j].Ok? && forall k :: j < k < |results| ==> results[k].Err?
  }

  /** A failed fetch only logs, so the page lists the users of the last
      successful fetch, or the users it had before when every fetch failed. */
  lemma {:induction false} PageKeepsLastSuccess(p: Page, results: seq<Outcome<seq<AdminUser>>>)
    ensures forall j :: LastSuccess(results, j) ==> FetchAll(p, results).users == results[j].value
    ensures (forall k :: 0 <= k < |results| ==> results[k].Err?) ==> FetchAll(p, results).users == p.users
    decreases |results|
  {
    if |results| > 0 {
      var next := FetchUsers(p, results[0]);
      var tail := results[1..];
      PageKeepsLastSuccess(next, tail);
      forall j | LastSuccess(results, j) ensures FetchAll(p, results).users == results[j].value {
        if j > 0 {
          assert LastSuccess(tail, j - 1) by {
            forall k | j - 1 < k < |tail| ensures tail[k].Err? {
              assert tail[k] == results[k + 1];
            }
          }
        } else {
          forall k | 0 <= k < |tail| ensures tail[k].Err? {
            assert tail[k] == results[k + 1];
          }
        }
      }
      if forall k :: 0 <= k < |results| ==> results[k].Err? {
        forall k | 0 <= k < |tail| ensures tail[k].Err? {
          assert tail[k] == results[k + 1];
        }
      }
    }
  }

  /** The page mounts loading, with no users, and its first fetch ends the
      loading state whatever its outcome. */
  lemma InitialPageLoads(res: Outcome<seq<AdminUser>>)
    ensures InitialPage.loading && InitialPage.users == []
    ensures !FetchUsers(InitialPage, res).loading
    ensures res.Err? ==> FetchUsers(InitialPage, res).users == []
  {
  }
}
