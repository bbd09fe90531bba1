/**
 * `AppComponent.loadParamsFromURL`: on first mount the application reads the
 * location's path and query parameters and emits, in a fixed order, filter
 * updates for the browse page, an initial search, and filter updates for the
 * search page.  The callbacks it calls are modelled as the sequence of
 * intents it emits; the query parameters as an already-decoded map.
 */
module App {
  import opened Text
  import opened Wrappers

  /** Which page's filter callback an update goes to. */
  datatype Target = BrowsePage | SearchPage

  /**
   * The callbacks `loadParamsFromURL` calls: `updateBrowseFilters` or
   * `updateSearchFilters(category, values)`, and `loadInitialSearch(query)`.
   */
  datatype UrlIntent =
    | UpdateFilters(target: Target, category: string, values: seq<string>)
    | LoadInitialSearch(query: string)

  /** The categories read from the URL, in the order their updates are emitted. */
  const UrlCategories: seq<string> := ["languages", "agencies", "licenses"]

  function CategoryRank(c: string): nat {
    if c == "languages" then 0 else if c == "agencies" then 1 else 2
  }

  /** The position of an intent in the fixed emission order. */
  function Rank(i: UrlIntent): nat {
    match i
    case UpdateFilters(BrowsePage, c, _) => CategoryRank(c)
    case LoadInitialSearch(_) => 3
    case UpdateFilters(SearchPage, c, _) => 4 + CategoryRank(c)
  }

  /** `normalize(params.get(key).split(','))`: one normalized value per comma-separated piece. */
  function ParamValues(params: map<string, string>, key: string): (vs: seq<string>)
    requires key in params
    ensures |vs| == |Split(params[key], ',')| >= 1
  {
    NormalizeAll(Split(params[key], ','))
  }

  /** Each value read from the URL is the normalized comma-separated piece at its position. */
  lemma ParamValuesNormalized(params: map<string, string>, key: string)
    requires key in params
    ensures forall k :: 0 <= k < |ParamValues(params, key)| ==>
      IsNormalized(ParamValues(params, key)[k]) &&
      ParamValues(params, key)[k] == Normalize(Split(params[key], ',')[k])
  {
    var pieces := Split(params[key], ',');
    forall k | 0 <= k < |pieces|
      ensures IsNormalized(Normalize(pieces[k]))
    {
      NormalizeNormalized(pieces[k]);
    }
  }

  predicate IsBrowsePath(pathname: string) {
    Contains(pathname, "browse-projects")
  }

  predicate IsSearchPath(pathname: string) {
    Contains(pathname, "search")
  }

  /** `params.get('query')` is truthy: present and not empty. */
  predicate HasQuery(params: map<string, string>) {
    "query" in params && params["query"] != ""
  }

  /** The branch of `loadParamsFromURL` that calls a target's filter callback. */
  predicate TargetPath(pathname: string, t: Target) {
    if t == BrowsePage then IsBrowsePath(pathname) else IsSearchPath(pathname)
  }

  /** An intent the path and the parameters call for, taken on its own. */
  predicate Warranted(pathname: string, params: map<string, string>, i: UrlIntent) {
    match i
    case UpdateFilters(t, c, vs) =>
      TargetPath(pathname, t) && c in UrlCategories && c in params && vs == ParamValues(params, c)
    case LoadInitialSearch(q) =>
      IsSearchPath(pathname) && HasQuery(params) && q == params["query"]
  }

  /** Every intent is called for by the path and the parameters. */
  ghost predicate Sound(pathname: string, params: map<string, string>, s: seq<UrlIntent>) {
    forall k :: 0 <= k < |s| ==> Warranted(pathname, params, s[k])
  }

  /** Intents come in strictly increasing rank: the fixed order, at most one of each. */
  ghost predicate InRankOrder(s: seq<UrlIntent>) {
    forall k, l :: 0 <= k < l < |s| ==> Rank(s[k]) < Rank(s[l])
  }

  /** Every intent the path and the parameters call for is emitted. */
  ghost predicate Complete(pathname: string, params: map<string, string>, s: seq<UrlIntent>) {
    (forall t, c :: c in UrlCategories && c in params && TargetPath(pathname, t) ==>
      UpdateFilters(t, c, ParamValues(params, c)) in s) &&
    (IsSearchPath(pathname) && HasQuery(params) ==> LoadInitialSearch(params["query"]) in s)
  }

  /** `if (values) { callback(category, values) }`: at most one update. */
  function OptionalUpdate(params: map<string, string>, t: Target, c: string): seq<UrlIntent> {
    if c in params then [UpdateFilters(t, c, ParamValues(params, c))] else []
  }

  /** The three updates of one branch, in the order the source calls them. */
  function BranchUpdates(params: map<string, string>, t: Target): seq<UrlIntent> {
    OptionalUpdate(params, t, "languages") + OptionalUpdate(params, t, "agencies") +
    OptionalUpdate(params, t, "licenses")
  }

  /** The `loadInitialSearch` call of the search branch, when the query is truthy. */
  function InitialSearch(params: map<string, string>): seq<UrlIntent> {
    if HasQuery(params) then [LoadInitialSearch(params["query"])] else []
  }

  /** The first `if`: what the browse branch appends to `acc`. */
  function BrowseBranch(pathname: string, params: map<string, string>, acc: seq<UrlIntent>): seq<UrlIntent> {
    if IsBrowsePath(pathname) then acc + BranchUpdates(params, BrowsePage) else acc
  }

  /** The second `if`: what the search branch appends to `acc`. */
  function SearchBranch(pathname: string, params: map<string, string>, acc: seq<UrlIntent>): seq<UrlIntent> {
    if IsSearchPath(pathname) then acc + InitialSearch(params) + BranchUpdates(params, SearchPage) else acc
  }

  /** The intents `loadParamsFromURL` emits: the browse branch, then the search branch. */
  function UrlIntents(pathname: string, params: map<string, string>): seq<UrlIntent> {
    SearchBranch(pathname, params, BrowseBranch(pathname, params, []))
  }

  ghost predicate RanksWithin(s: seq<UrlIntent>, lo: nat, hi: nat) {
    forall k :: 0 <= k < |s| ==> lo <= Rank(s[k]) < hi
  }

  /** Two ordered runs whose ranks do not interleave form an ordered run. */
  lemma ConcatInOrder(a: seq<UrlIntent>, b: seq<UrlIntent>, lo: nat, mid: nat, hi: nat)
    requires lo <= mid <= hi
    requires InRankOrder(a) && InRankOrder(b) && RanksWithin(a, lo, mid) && RanksWithin(b, mid, hi)
    ensures InRankOrder(a + b) && RanksWithin(a + b, lo, hi)
  {
    forall k, l | 0 <= k < l < |a + b|
      ensures Rank((a + b)[k]) < Rank((a + b)[l])
    {
      if l < |a| {
        assert (a + b)[k] == a[k] && (a + b)[l] == a[l];
      } else if k >= |a| {
        assert (a + b)[k] == b[k - |a|] && (a + b)[l] == b[l - |a|];
      } else {
        assert (a + b)[k] == a[k] && (a + b)[l] == b[l - |a|];
      }
    }
    forall k | 0 <= k < |a + b|
      ensures lo <= Rank((a + b)[k]) < hi
    {
      if k < |a| {
        assert (a + b)[k] == a[k];
      } else {
        assert (a + b)[k] == b[k - |a|];
      }
    }
  }

  lemma ConcatSound(pathname: string, params: map<string, string>, a: seq<UrlIntent>, b: seq<UrlIntent>)
    requires Sound(pathname, params, a) && Sound(pathname, params, b)
    ensures Sound(pathname, params, a + b)
  {
    forall k | 0 <= k < |a + b|
      ensures Warranted(pathname, params, (a + b)[k])
    {
      if k < |a| {
        assert (a + b)[k] == a[k];
      } else {
        assert (a + b)[k] == b[k - |a|];
      }
    }
  }

  /** A branch's updates are called for whenever the branch runs. */
  lemma BranchUpdatesSound(pathname: string, params: map<string, string>, t: Target)
    requires TargetPath(pathname, t)
    ensures Sound(pathname, params, BranchUpdates(params, t))
  {
    var la, ag, li := OptionalUpdate(params, t, "languages"), OptionalUpdate(params, t, "agencies"),
      OptionalUpdate(params, t, "licenses");
    ConcatSound(pathname, params, la, ag);
    ConcatSound(pathname, params, la + ag, li);
  }

  /** One optional update is ordered on its own and carries its category's rank. */
  lemma OptionalUpdateRanked(params: map<string, string>, t: Target, c: string, rank: nat)
    requires rank == (if t == BrowsePage then 0 else 4) + CategoryRank(c)
    ensures InRankOrder(OptionalUpdate(params, t, c))
    ensures RanksWithin(OptionalUpdate(params, t, c), rank, rank + 1)
  {
    var u := OptionalUpdate(params, t, c);
    assert |u| <= 1;
    if |u| == 1 {
      assert Rank(u[0]) == rank;
    }
  }

  /** A branch's updates come in category order, with ranks in the branch's band. */
  lemma BranchUpdatesOrdered(params: map<string, string>, t: Target, base: nat)
    requires base == if t == BrowsePage then 0 else 4
    ensures InRankOrder(BranchUpdates(params, t))
    ensures RanksWithin(BranchUpdates(params, t), base, base + 3)
  {
    var la, ag, li := OptionalUpdate(params, t, "languages"), OptionalUpdate(params, t, "agencies"),
      OptionalUpdate(params, t, "licenses");
    OptionalUpdateRanked(params, t, "languages", base);
    OptionalUpdateRanked(params, t, "agencies", base + 1);
    OptionalUpdateRanked(params, t, "licenses", base + 2);
    ConcatInOrder(la, ag, base, base + 1, base + 2);
    ConcatInOrder(la + ag, li, base, base + 2, base + 3);
  }

  /** A branch emits an update for every URL category present in the parameters. */
  lemma BranchUpdatesComplete(params: map<string, string>, t: Target, c: string)
    requires c in UrlCategories && c in params
    ensures UpdateFilters(t, c, ParamValues(params, c)) in BranchUpdates(params, t)
  {
    var i := UpdateFilters(t, c, ParamValues(params, c));
    assert i in OptionalUpdate(params, t, c);
  }

  /** Every emitted intent is called for by the path and the parameters. */
  lemma UrlIntentsSound(pathname: string, params: map<string, string>)
    ensures Sound(pathname, params, UrlIntents(pathname, params))
  {
    var browse := BrowseBranch(pathname, params, []);
    var initial := if IsSearchPath(pathname) then InitialSearch(params) else [];
    var search := if IsSearchPath(pathname) then BranchUpdates(params, SearchPage) else [];
    if IsBrowsePath(pathname) {
      BranchUpdatesSound(pathname, params, BrowsePage);
      assert browse == BranchUpdates(params, BrowsePage);
    }
    if IsSearchPath(pathname) {
      BranchUpdatesSound(pathname, params, SearchPage);
    }
    assert UrlIntents(pathname, params) == browse + initial + search;
    ConcatSound(pathname, params, browse, initial);
    ConcatSound(pathname, params, browse + initial, search);
  }

  /** The browse branch's updates are ordered and ranked below the initial search. */
  lemma BrowseBranchOrdered(pathname: string, params: map<string, string>)
    ensures InRankOrder(BrowseBranch(pathname, params, []))
    ensures RanksWithin(BrowseBranch(pathname, params, []), 0, 3)
  {
    BranchUpdatesOrdered(params, BrowsePage, 0);
    if IsBrowsePath(pathname) {
      assert BrowseBranch(pathname, params, []) == BranchUpdates(params, BrowsePage);
    }
  }

  /**
   * The intents come in the fixed order languages, agencies, licenses on the
   * browse branch, then the initial search, then languages, agencies,
   * licenses on the search branch; none is emitted twice.
   */
  lemma UrlIntentsInOrder(pathname: string, params: map<string, string>)
    ensures InRankOrder(UrlIntents(pathname, params))
  {
    var browse := BrowseBranch(pathname, params, []);
    BrowseBranchOrdered(pathname, params);
    if IsSearchPath(pathname) {
      var initial, search := InitialSearch(params), BranchUpdates(params, SearchPage);
      BranchUpdatesOrdered(params, SearchPage, 4);
      assert InRankOrder(initial) && RanksWithin(initial, 3, 4);
      ConcatInOrder(browse, initial, 0, 3, 4);
      ConcatInOrder(browse + initial, search, 0, 4, 7);
    }
  }

  /** Every intent the path and the parameters call for is emitted: both branches run when the path names both pages. */
  lemma UrlIntentsComplete(pathname: string, params: map<string, string>)
    ensures Complete(pathname, params, UrlIntents(pathname, params))
  {
    var browse := BrowseBranch(pathname, params, []);
    var initial := if IsSearchPath(pathname) then InitialSearch(params) else [];
    var search := if IsSearchPath(pathname) then BranchUpdates(params, SearchPage) else [];
    assert UrlIntents(pathname, params) == browse + initial + search;
    forall t, c | c in UrlCategories && c in params && TargetPath(pathname, t)
      ensures UpdateFilters(t, c, ParamValues(params, c)) in UrlIntents(pathname, params)
    {
      BranchUpdatesComplete(params, t, c);
    }
  }

  /** The two tests are independent `if`s: a path naming neither page emits nothing, one naming both runs both branches. */
  lemma BranchesIndependent(pathname: string, params: map<string, string>)
    ensures !IsBrowsePath(pathname) && !IsSearchPath(pathname) ==> UrlIntents(pathname, params) == []
    ensures IsBrowsePath(pathname) && IsSearchPath(pathname) ==>
      UrlIntents(pathname, params) ==
        BranchUpdates(params, BrowsePage) + InitialSearch(params) + BranchUpdates(params, SearchPage)
  {
  }

  /**
   * The three statements `if (languages) {...}`, `if (agencies) {...}`,
   * `if (licenses) {...}` of one branch: each present category's update is
   * appended, in that order.
   */
  method EmitFilterUpdates(
    intents: seq<UrlIntent>, params: map<string, string>, t: Target,
    languages: Option<seq<string>>, agencies: Option<seq<string>>, licenses: Option<seq<string>>
  ) returns (out: seq<UrlIntent>)
    requires languages == if "languages" in params then Some(ParamValues(params, "languages")) else None
    requires agencies == if "agencies" in params then Some(ParamValues(params, "agencies")) else None
    requires licenses == if "licenses" in params then Some(ParamValues(params, "licenses")) else None
    ensures out == intents + BranchUpdates(params, t)
  {
    out := intents;
    if languages.Some? { out := out + [UpdateFilters(t, "languages", languages.value)]; }
    assert out == intents + OptionalUpdate(params, t, "languages");
    if agencies.Some? { out := out + [UpdateFilters(t, "agencies", agencies.value)]; }
    assert out == intents + (OptionalUpdate(params, t, "languages") + OptionalUpdate(params, t, "agencies"));
    if licenses.Some? { out := out + [UpdateFilters(t, "licenses", licenses.value)]; }
  }

  /** `loadParamsFromURL`: the callbacks it calls, in order. */
  method LoadParamsFromURL(pathname: string, params: map<string, string>) returns (intents: seq<UrlIntent>)
    ensures intents == UrlIntents(pathname, params)
    ensures Sound(pathname, params, intents) && InRankOrder(intents)
    ensures Complete(pathname, params, intents)
  {
    var agencies := if "agencies" in params then Some(ParamValues(params, "agencies")) else None;
    var languages := if "languages" in params then Some(ParamValues(params, "languages")) else None;
    var licenses := if "licenses" in params then Some(ParamValues(params, "licenses")) else None;

    intents := [];
    if IsBrowsePath(pathname) {
      intents := EmitFilterUpdates(intents, params, BrowsePage, languages, agencies, licenses);
    }
    assert intents == BrowseBranch(pathname, params, []);
    ghost var browse := intents;
    if IsSearchPath(pathname) {
      var query := if "query" in params then params["query"] else "";
      if query != "" { intents := intents + [LoadInitialSearch(query)]; }
      assert intents == browse + InitialSearch(params);
      intents := EmitFilterUpdates(intents, params, SearchPage, languages, agencies, licenses);
    }
    assert intents == SearchBranch(pathname, params, browse);
    UrlIntentsSound(pathname, params);
    UrlIntentsInOrder(pathname, params);
    UrlIntentsComplete(pathname, params);
  }

  /** `" JAVA"` and `"Python"` normalize to `"java"` and `"python"`. */
  lemma ExampleValuesNormalize()
    ensures Normalize("Python") == "python"
    ensures Normalize(" JAVA") == "java"
  {
    var p := LowerAll("Python");
    assert p == "python" by {
      assert p[0] == LowerChar('P') == 'p';
    }
    TrimStartFixpoint(p);
    TrimEndFixpoint(p);
    var j := LowerAll(" JAVA");
    assert j == " java" by {
      assert j[1] == LowerChar('J') == 'j';
      assert j[2] == LowerChar('A') == 'a';
      assert j[3] == LowerChar('V') == 'v';
      assert j[4] == LowerChar('A') == 'a';
    }
    assert TrimStart(j) == TrimStart("java") by {
      assert j[1..] == "java";
    }
    TrimStartFixpoint("java");
    TrimEndFixpoint("java");
  }

  /** The example path names the browse page. */
  lemma ExampleIsBrowse()
    ensures IsBrowsePath("/browse-projects")
  {
    ContainsInside("/", "browse-projects", "");
    assert "/" + "browse-projects" + "" == "/browse-projects";
  }

  /** The example path does not name the search page: it has no `h`, which `search` has. */
  lemma ExampleNotSearch()
    ensures !IsSearchPath("/browse-projects")
  {
    var path := "/browse-projects";
    ContainsChars(path, "search", 5);
    assert "search"[5] == 'h';
    assert 'h' !in path;
  }

  /** The language list of the example link, split at the comma and normalized. */
  lemma ExampleParamValues()
    ensures ParamValues(map["languages" := "Python, JAVA"], "languages") == ["python", "java"]
  {
    var params := map["languages" := "Python, JAVA"];
    assert NormalizeAll(["Python", " JAVA"]) == ["python", "java"] by {
      ExampleValuesNormalize();
    }
    assert ParamValues(params, "languages") == NormalizeAll(["Python", " JAVA"]) by {
      ExampleSplit();
    }
  }

  /** The example's language list has two comma-separated pieces. */
  lemma ExampleSplit()
    ensures Split("Python, JAVA", ',') == ["Python", " JAVA"]
  {
    assert Split(" JAVA", ',') == [" JAVA"] by {
      assert ',' !in " JAVA";
    }
    assert ',' !in "Python";
    SplitAt("Python", ',', " JAVA");
    assert "Python" + [','] + " JAVA" == "Python, JAVA";
  }

  /** A browse link with two languages: one browse update with the normalized values, nothing else. */
  lemma BrowseLinkExample()
    ensures UrlIntents("/browse-projects", map["languages" := "Python, JAVA"]) ==
      [UpdateFilters(BrowsePage, "languages", ["python", "java"])]
  {
    var params := map["languages" := "Python, JAVA"];
    ExampleIsBrowse();
    ExampleNotSearch();
    ExampleParamValues();
    assert "agencies" !in params && "licenses" !in params;
    assert BranchUpdates(params, BrowsePage) == [UpdateFilters(BrowsePage, "languages", ["python", "java"])];
  }
}
