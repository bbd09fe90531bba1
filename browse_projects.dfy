/**
 * The browse page's container: `mapStateToProps`, which projects the browse
 * parameters, the facet lists and the fetched repositories onto the props of
 * the page (checkbox lists, sorted/filtered/paginated results, total, sort
 * options, filter tags), and `mapDispatchToProps`, which turns UI events into
 * update intents.
 */
module BrowseProjects {
  import opened Text
  import opened Repository
  import opened RepoSorting
  import opened Wrappers
  import opened Sequences

  /** One active filter of the browse parameters: a category and a value. */
  datatype FilterEntry = FilterEntry(category: string, value: string)

  /** The browse parameters: active filters, sort key, page and page size. */
  datatype BrowseParams = BrowseParams(filters: seq<FilterEntry>, sort: string, page: int, size: int)

  /** The fetched search results: an optional total and an optional repository array. */
  datatype BrowseResults = BrowseResults(total: Option<int>, repos: Option<array<Repo>>)

  /** One available choice of a facet. */
  datatype FacetEntry = FacetEntry(name: string, value: string)

  /** The facet lists, keyed by category. */
  type Facets = map<string, seq<FacetEntry>>

  /** One checkbox of a facet list. */
  datatype Box = Box(name: string, value: string, checked: bool)

  datatype SortOption = SortOption(labelText: string, value: string, selected: bool)

  /** A removable chip; built by `getFilterTags`, whose body is not part of this model. */
  datatype FilterTag = FilterTag(category: string, labelText: string, value: string)

  /** The props handed to the page. */
  datatype ViewState = ViewState(
    boxes: map<string, seq<Box>>,
    browseParams: BrowseParams,
    searchResults: Option<seq<Repo>>,
    filterTags: seq<FilterTag>,
    selectedSorting: string,
    repos: Option<array<Repo>>,
    selectedPage: int,
    selectedPageSize: int,
    sortOptions: seq<SortOption>,
    total: int
  )

  const Categories: seq<string> := ["agencies", "languages", "licenses", "usageTypes"]

  /** The source reads `filters[key]` for every category and fails when one is missing. */
  predicate HasAllCategories(f: Facets) {
    "agencies" in f && "languages" in f && "licenses" in f && "usageTypes" in f
  }

  // ---------------------------------------------------------------------------
  // Selections

  /**
   * `getFilterValuesFromParamsByCategory`: the values of the active filters of
   * one category, in the order they were added.
   */
  function FilterValues(entries: seq<FilterEntry>, category: string): (vs: seq<string>)
    ensures |vs| <= |entries|
    ensures forall v :: v in vs <==> FilterEntry(category, v) in entries
  {
    if |entries| == 0 then []
    else
      var rest := FilterValues(entries[1..], category);
      assert entries == [entries[0]] + entries[1..];
      if entries[0].category == category then [entries[0].value] + rest else rest
  }

  function Selection(params: BrowseParams, category: string): seq<string> {
    FilterValues(params.filters, category)
  }

  /** `overlaps`: the two lists share an element. */
  predicate Overlaps(xs: seq<string>, ys: seq<string>) {
    exists x :: x in xs && x in ys
  }

  /** The normalized list overlaps the selection at some position of the original list. */
  lemma OverlapsWitness(xs: seq<string>, ys: seq<string>)
    requires Overlaps(NormalizeAll(xs), ys)
    ensures exists k :: 0 <= k < |xs| && Normalize(xs[k]) in ys
  {
    var names := NormalizeAll(xs);
    var x :| x in names && x in ys;
    var k :| 0 <= k < |names| && names[k] == x;
    assert Normalize(xs[k]) in ys;
  }

  /** `hasLicense`: the repository lists at least one license. */
  predicate HasLicense(r: Repo) {
    |r.permissions.licenses| > 0
  }

  // ---------------------------------------------------------------------------
  // Checkbox lists

  function BoxList(params: BrowseParams, category: string, facet: seq<FacetEntry>): (bs: seq<Box>)
    ensures |bs| == |facet|
    ensures forall i :: 0 <= i < |facet| ==>
      bs[i].name == facet[i].name && bs[i].value == facet[i].value &&
      (bs[i].checked <==> Normalize(facet[i].value) in Selection(params, category))
  {
    seq(|facet|, i requires 0 <= i < |facet| =>
      Box(facet[i].name, facet[i].value, Normalize(facet[i].value) in Selection(params, category)))
  }

  /** `boxes`: empty until the facets are loaded, then one checkbox list per category. */
  function Boxes(params: BrowseParams, filters: Option<Facets>): (boxes: map<string, seq<Box>>)
    requires filters.Some? ==> HasAllCategories(filters.value)
    ensures filters.None? ==> boxes == map[]
    ensures filters.Some? ==> forall key :: key in boxes <==> key in Categories
    ensures forall key :: key in boxes ==>
      (filters.Some? && key in filters.value && boxes[key] == BoxList(params, key, filters.value[key]))
  {
    if filters.None? then map[]
    else map key | key in Categories :: BoxList(params, key, filters.value[key])
  }

  /** Every category's checkbox list keeps the facet order, names and values; a box is checked exactly when its normalized value is selected. */
  lemma BoxesFollowFacets(params: BrowseParams, f: Facets, key: string, i: int)
    requires HasAllCategories(f)
    requires key in Categories && 0 <= i < |f[key]|
    ensures key in Boxes(params, Some(f))
    ensures |Boxes(params, Some(f))[key]| == |f[key]|
    ensures Boxes(params, Some(f))[key][i].name == f[key][i].name
    ensures Boxes(params, Some(f))[key][i].value == f[key][i].value
    ensures Boxes(params, Some(f))[key][i].checked <==> Normalize(f[key][i].value) in Selection(params, key)
  {
  }

  // ---------------------------------------------------------------------------
  // The filter

  /** The callback passed to `.filter`: every check of the source in its order. */
  predicate KeepRepo(params: BrowseParams, filters: Option<Facets>, r: Repo) {
    if filters.None? then false
    else
      var agencies := Selection(params, "agencies");
      var languages := Selection(params, "languages");
      var licenses := Selection(params, "licenses");
      var usageTypes := Selection(params, "usageTypes");
      var usageType := Normalize(r.permissions.usageType);
      if |agencies| > 0 && Normalize(r.agency.acronym) !in agencies then false
      else if |languages| > 0 && !Overlaps(NormalizeAll(r.languages), languages) then false
      else if |licenses| > 0 && !HasLicense(r) then false
      else if |licenses| > 0 && !Overlaps(NormalizeAll(LicenseNames(r)), licenses) then false
      else if |usageTypes| > 0 && usageType !in usageTypes then false
      else if Contains(usageType, "exempt") then false
      else true
  }

  /** `repos.filter(repo => ...)` with the callback of the browse page. */
  function FilterRepos(params: BrowseParams, filters: Option<Facets>, s: seq<Repo>): seq<Repo> {
    Filter(r => KeepRepo(params, filters, r), s)
  }

  /** A repository is in the filtered list exactly when it was in the list and the callback keeps it. */
  lemma FilterReposMember(params: BrowseParams, filters: Option<Facets>, s: seq<Repo>, r: Repo)
    ensures r in FilterRepos(params, filters, s) <==> r in s && KeepRepo(params, filters, r)
  {
    FilterMember(r => KeepRepo(params, filters, r), s, r);
  }

  // ---------------------------------------------------------------------------
  // Pagination

  /** A relative index of `Array.prototype.slice`: negative counts from the end, clamped to the length. */
  function SliceIndex(len: nat, k: int): (r: nat)
    ensures r <= len
    ensures 0 <= k <= len ==> r == k
    ensures k > len ==> r == len
    ensures k < 0 ==> r == if len + k < 0 then 0 else len + k
  {
    if k < 0 then (if len + k < 0 then 0 else len + k)
    else if k > len then len
    else k
  }

  /** `s.slice(start, end)`. */
  function JsSlice<T>(s: seq<T>, start: int, end: int): seq<T> {
    var b := SliceIndex(|s|, start);
    var e := SliceIndex(|s|, end);
    if b < e then s[b..e] else []
  }

  function Min(a: int, b: int): int {
    if a < b then a else b
  }

  /** The page slice `[(page - 1) * size, page * size)`. */
  function Paginate<T>(s: seq<T>, page: int, size: int): seq<T> {
    JsSlice(s, (page - 1) * size, page * size)
  }

  lemma PageBounds(page: int, size: int)
    ensures page * size == (page - 1) * size + size
    ensures page >= 1 && size >= 0 ==> (page - 1) * size >= 0
  {
  }

  /**
   * For a page of at least 1 and a non-negative size, the page holds the
   * elements from `(page - 1) * size` up to `page * size` or the end: exactly
   * `size` of them while the sequence lasts, none past its end.
   */
  lemma PaginateExact<T>(s: seq<T>, page: int, size: int)
    requires page >= 1 && size >= 0
    ensures var start := (page - 1) * size;
      start >= 0 && Paginate(s, page, size) == if start < 0 || start >= |s| then [] else s[start..Min(start + size, |s|)]
    ensures |Paginate(s, page, size)| == Min(size, if (page - 1) * size >= |s| then 0 else |s| - (page - 1) * size)
  {
    PageBounds(page, size);
  }

  /** The first page is the first `size` elements, or all of them when there are fewer. */
  lemma FirstPage<T>(s: seq<T>, size: int)
    requires size >= 0
    ensures Paginate(s, 1, size) == s[..Min(size, |s|)]
  {
    assert (1 - 1) * size == 0 && 1 * size == size;
  }

  /** Whatever the page, a page never holds more than `size` repositories. */
  lemma PaginateAtMostSize<T>(s: seq<T>, page: int, size: int)
    requires size >= 0
    ensures |Paginate(s, page, size)| <= size
  {
    PageBounds(page, size);
  }

  /** A page holds only elements of the sequence. */
  lemma PaginateMembers<T>(s: seq<T>, page: int, size: int, x: T)
    requires x in Paginate(s, page, size)
    ensures x in s
  {
    var b := SliceIndex(|s|, (page - 1) * size);
    var e := SliceIndex(|s|, page * size);
    var k :| 0 <= k < e - b && s[b..e][k] == x;
    assert s[b + k] == x;
  }

  // ---------------------------------------------------------------------------
  // The projection

  /** `searchResults` once the repositories are there: sort, then filter, then paginate. */
  function SearchResults(params: BrowseParams, filters: Option<Facets>, repos: seq<Repo>): seq<Repo> {
    Paginate(FilterRepos(params, filters, StableSort(SortKeyOf(params.sort), repos)), params.page, params.size)
  }

  /** `get(browseResults, 'total') || 0`. */
  function Total(results: Option<BrowseResults>): (t: int)
    ensures t != 0 ==> results.Some? && results.value.total == Some(t)
    ensures t == 0 <==> results.None? || results.value.total.None? || results.value.total == Some(0)
  {
    if results.Some? && results.value.total.Some? then results.value.total.value else 0
  }

  function RepoArray(results: Option<BrowseResults>): Option<array<Repo>> {
    if results.Some? then results.value.repos else None
  }

  /** The objects `mapStateToProps` changes: the repository array it sorts. */
  function RepoFootprint(results: Option<BrowseResults>): set<array<Repo>> {
    if RepoArray(results).Some? then {RepoArray(results).value} else {}
  }

  /** `sortOptions`: three fixed options, the one matching the sort key selected. */
  function SortOptions(sort: string): (opts: seq<SortOption>)
    ensures |opts| == 3
    ensures opts[0].value == "data_quality" && opts[1].value == "a-z" && opts[2].value == "last_updated"
    ensures forall i :: 0 <= i < 3 ==> (opts[i].selected <==> opts[i].value == sort)
  {
    [
      SortOption("Data Quality", "data_quality", sort == "data_quality"),
      SortOption("A-Z", "a-z", sort == "a-z"),
      SortOption("Last Updated", "last_updated", sort == "last_updated")
    ]
  }

  /** At most one sort option is selected, and none for `best_match` or an unknown key. */
  lemma SortOptionsSelection(sort: string, i: int, j: int)
    requires 0 <= i < 3 && 0 <= j < 3
    requires SortOptions(sort)[i].selected && SortOptions(sort)[j].selected
    ensures i == j
    ensures sort == "data_quality" || sort == "a-z" || sort == "last_updated"
  {
  }

  /** `mapStateToProps`. */
  method MapStateToProps(
    params: BrowseParams,
    results: Option<BrowseResults>,
    filters: Option<Facets>,
    getFilterTags: (BrowseParams, Option<Facets>) -> seq<FilterTag>
  ) returns (props: ViewState)
    requires filters.Some? ==> HasAllCategories(filters.value)
    modifies RepoFootprint(results)
    ensures props.boxes == Boxes(params, filters)
    ensures props.total == Total(results)
    ensures props.repos == RepoArray(results)
    ensures RepoArray(results).None? ==> props.searchResults == None
    ensures RepoArray(results).Some? ==>
      var a := RepoArray(results).value;
      a[..] == StableSort(SortKeyOf(params.sort), old(a[..])) &&
      props.searchResults == Some(SearchResults(params, filters, old(a[..])))
    ensures props.sortOptions == SortOptions(params.sort)
    ensures props.filterTags == getFilterTags(params, filters)
    ensures props.browseParams == params && props.selectedSorting == params.sort
    ensures props.selectedPage == params.page && props.selectedPageSize == params.size
  {
    var boxes: map<string, seq<Box>> := map[];
    if filters.Some? {
      boxes := Boxes(params, filters);
    }
    var total := Total(results);
    var repos := RepoArray(results);
    var searchResults: Option<seq<Repo>> := None;
    if repos.Some? {
      SortRepos(SortKeyOf(params.sort), repos.value);
      var kept := FilterRepos(params, filters, repos.value[..]);
      searchResults := Some(Paginate(kept, params.page, params.size));
    }
    props := ViewState(boxes, params, searchResults, getFilterTags(params, filters), params.sort,
                       repos, params.page, params.size, SortOptions(params.sort), total);
  }

  // ---------------------------------------------------------------------------
  // Properties of the results

  /** Whatever reaches the page was fetched and passed every check of the filter. */
  lemma SearchResultsMember(params: BrowseParams, filters: Option<Facets>, repos: seq<Repo>, r: Repo)
    requires r in SearchResults(params, filters, repos)
    ensures r in repos && filters.Some? && KeepRepo(params, filters, r)
  {
    var sorted := StableSort(SortKeyOf(params.sort), repos);
    PaginateMembers(FilterRepos(params, filters, sorted), params.page, params.size, r);
    FilterReposMember(params, filters, sorted, r);
    StableSortMembers(SortKeyOf(params.sort), repos, r);
  }

  /** A repository whose normalized usage type contains "exempt" never reaches the page. */
  lemma ExemptNeverShown(params: BrowseParams, filters: Option<Facets>, repos: seq<Repo>, r: Repo)
    requires Contains(Normalize(r.permissions.usageType), "exempt")
    ensures r !in SearchResults(params, filters, repos)
  {
    if r in SearchResults(params, filters, repos) {
      SearchResultsMember(params, filters, repos, r);
    }
  }

  /** The license rule of the filter, for one repository it keeps. */
  lemma KeptLicenseRule(params: BrowseParams, filters: Option<Facets>, r: Repo)
    requires |Selection(params, "licenses")| > 0 && KeepRepo(params, filters, r)
    ensures HasLicense(r)
    ensures exists k ::
      (0 <= k < |r.permissions.licenses| && Normalize(r.permissions.licenses[k].name) in Selection(params, "licenses"))
  {
    assert Overlaps(NormalizeAll(LicenseNames(r)), Selection(params, "licenses"));
    OverlapsWitness(LicenseNames(r), Selection(params, "licenses"));
  }

  /** The language rule of the filter, for one repository it keeps. */
  lemma KeptLanguageRule(params: BrowseParams, filters: Option<Facets>, r: Repo)
    requires |Selection(params, "languages")| > 0 && KeepRepo(params, filters, r)
    ensures exists k :: 0 <= k < |r.languages| && Normalize(r.languages[k]) in Selection(params, "languages")
  {
    assert Overlaps(NormalizeAll(r.languages), Selection(params, "languages"));
    OverlapsWitness(r.languages, Selection(params, "languages"));
  }

  /** The agency, language and usage-type rules of the filter, for one repository it keeps. */
  lemma KeptSelectionRules(params: BrowseParams, filters: Option<Facets>, r: Repo)
    requires KeepRepo(params, filters, r)
    ensures |Selection(params, "agencies")| > 0 ==> Normalize(r.agency.acronym) in Selection(params, "agencies")
    ensures |Selection(params, "languages")| > 0 ==>
      exists k :: 0 <= k < |r.languages| && Normalize(r.languages[k]) in Selection(params, "languages")
    ensures |Selection(params, "usageTypes")| > 0 ==>
      Normalize(r.permissions.usageType) in Selection(params, "usageTypes")
  {
    if |Selection(params, "languages")| > 0 {
      KeptLanguageRule(params, filters, r);
    }
  }

  /** Under an active license filter a shown repository has a license, and one of its normalized license names is selected. */
  lemma LicenseFilterRule(params: BrowseParams, filters: Option<Facets>, repos: seq<Repo>, r: Repo)
    requires |Selection(params, "licenses")| > 0
    requires r in SearchResults(params, filters, repos)
    ensures HasLicense(r)
    ensures exists k ::
      (0 <= k < |r.permissions.licenses| && Normalize(r.permissions.licenses[k].name) in Selection(params, "licenses"))
  {
    SearchResultsMember(params, filters, repos, r);
    KeptLicenseRule(params, filters, r);
  }

  /** A repository without licenses is never shown while a license filter is active. */
  lemma UnlicensedHiddenByLicenseFilter(params: BrowseParams, filters: Option<Facets>, repos: seq<Repo>, r: Repo)
    requires |Selection(params, "licenses")| > 0 && !HasLicense(r)
    ensures r !in SearchResults(params, filters, repos)
  {
    if r in SearchResults(params, filters, repos) {
      LicenseFilterRule(params, filters, repos, r);
    }
  }

  /** A shown repository satisfies every non-empty agency, language and usage-type selection. */
  lemma SelectionRules(params: BrowseParams, filters: Option<Facets>, repos: seq<Repo>, r: Repo)
    requires r in SearchResults(params, filters, repos)
    ensures |Selection(params, "agencies")| > 0 ==> Normalize(r.agency.acronym) in Selection(params, "agencies")
    ensures |Selection(params, "languages")| > 0 ==>
      exists k :: 0 <= k < |r.languages| && Normalize(r.languages[k]) in Selection(params, "languages")
    ensures |Selection(params, "usageTypes")| > 0 ==>
      Normalize(r.permissions.usageType) in Selection(params, "usageTypes")
  {
    SearchResultsMember(params, filters, repos, r);
    KeptSelectionRules(params, filters, r);
  }

  /** A repository is filtered in exactly when it passes all five rules. */
  lemma KeepRepoRules(params: BrowseParams, f: Facets, r: Repo)
    ensures KeepRepo(params, Some(f), r) <==>
      (|Selection(params, "agencies")| == 0 || Normalize(r.agency.acronym) in Selection(params, "agencies")) &&
      (|Selection(params, "languages")| == 0 || Overlaps(NormalizeAll(r.languages), Selection(params, "languages"))) &&
      (|Selection(params, "licenses")| == 0 ||
        (HasLicense(r) && Overlaps(NormalizeAll(LicenseNames(r)), Selection(params, "licenses")))) &&
      (|Selection(params, "usageTypes")| == 0 || Normalize(r.permissions.usageType) in Selection(params, "usageTypes")) &&
      !Contains(Normalize(r.permissions.usageType), "exempt")
  {
  }

  /** With no selection at all, the filtered list is every fetched repository that is not exempt, in sorted order. */
  lemma NoSelectionKeepsNonExempt(params: BrowseParams, f: Facets, repos: seq<Repo>, r: Repo)
    requires params.filters == []
    ensures r in FilterRepos(params, Some(f), StableSort(SortKeyOf(params.sort), repos)) <==>
      r in repos && !Contains(Normalize(r.permissions.usageType), "exempt")
  {
    FilterReposMember(params, Some(f), StableSort(SortKeyOf(params.sort), repos), r);
    StableSortMembers(SortKeyOf(params.sort), repos, r);
  }

  lemma FilterWithoutFacets(params: BrowseParams, s: seq<Repo>)
    ensures FilterRepos(params, None, s) == []
  {
    FilterNothing(r => KeepRepo(params, None, r), s);
  }

  /** Until the facets are loaded every repository is rejected: the page is empty, not undefined, and so are the checkbox lists. */
  lemma NoFacetsNoResults(params: BrowseParams, repos: seq<Repo>)
    ensures SearchResults(params, None, repos) == []
    ensures Boxes(params, None) == map[]
  {
    FilterWithoutFacets(params, StableSort(SortKeyOf(params.sort), repos));
  }

  /** The page shown is the requested slice of the sorted, filtered repositories, and never longer than `size`. */
  lemma SearchResultsArePage(params: BrowseParams, filters: Option<Facets>, repos: seq<Repo>)
    requires params.page >= 1 && params.size >= 0
    ensures var kept := FilterRepos(params, filters, StableSort(SortKeyOf(params.sort), repos));
      var start := (params.page - 1) * params.size;
      start >= 0 && SearchResults(params, filters, repos) ==
        if start < 0 || start >= |kept| then [] else kept[start..Min(start + params.size, |kept|)]
    ensures |SearchResults(params, filters, repos)| <= params.size
  {
    var kept := FilterRepos(params, filters, StableSort(SortKeyOf(params.sort), repos));
    PaginateExact(kept, params.page, params.size);
  }

  // ---------------------------------------------------------------------------
  // mapDispatchToProps

  /** The events the page raises. */
  datatype UiEvent =
    | FilterBoxChange(category: string, changeValue: string, changeType: string)
    | FilterTagClick(tagCategory: string, tagValue: string)
    | SortChange(sortValue: string)
    | SaveFilterData
    | PageChange(newPage: int)

  /** The update intents dispatched to the store. */
  datatype Intent =
    | UpdateBrowseFilters(category: string, value: string, changeType: string)
    | UpdateBrowseParams(page: Option<int>, sort: Option<string>)
    | SaveFilterOptions

  /** `mapDispatchToProps`: the intent each event dispatches. */
  function Dispatch(e: UiEvent): (i: Intent)
    ensures e.FilterBoxChange? ==> i == UpdateBrowseFilters(e.category, e.changeValue, e.changeType)
    ensures e.FilterTagClick? ==> i == UpdateBrowseFilters(e.tagCategory, e.tagValue, "remove")
    ensures e.SortChange? ==> i == UpdateBrowseParams(Some(1), Some(e.sortValue))
    ensures e.PageChange? ==> i == UpdateBrowseParams(Some(e.newPage), None)
    ensures e.SaveFilterData? ==> i == SaveFilterOptions
  {
    match e
    case FilterBoxChange(c, v, t) => UpdateBrowseFilters(c, v, t)
    case FilterTagClick(c, v) => UpdateBrowseFilters(c, v, "remove")
    case SortChange(v) => UpdateBrowseParams(Some(1), Some(v))
    case SaveFilterData => SaveFilterOptions
    case PageChange(n) => UpdateBrowseParams(Some(n), None)
  }

  /**
   * The store's handling of `updateBrowseParams`, a merge of the given fields
   * into the current parameters (the reducer is not part of this model).
   */
  function ApplyParams(p: BrowseParams, i: Intent): BrowseParams
    requires i.UpdateBrowseParams?
  {
    p.(page := if i.page.Some? then i.page.value else p.page,
       sort := if i.sort.Some? then i.sort.value else p.sort)
  }

  /** Changing the sort goes back to page 1 and keeps the filters and page size. */
  lemma SortChangeResetsPage(p: BrowseParams, v: string)
    ensures Dispatch(SortChange(v)).UpdateBrowseParams?
    ensures ApplyParams(p, Dispatch(SortChange(v))) == p.(page := 1, sort := v)
  {
  }

  /** Changing the page touches nothing but the page. */
  lemma PageChangeOnlyPage(p: BrowseParams, n: int)
    ensures Dispatch(PageChange(n)).UpdateBrowseParams?
    ensures ApplyParams(p, Dispatch(PageChange(n))) == p.(page := n)
  {
  }

  /** After a sort change the page shows the first `size` repositories of the newly sorted, filtered list. */
  lemma SortChangeShowsFirstPage(p: BrowseParams, v: string, filters: Option<Facets>, repos: seq<Repo>)
    requires p.size >= 0
    ensures var q := ApplyParams(p, Dispatch(SortChange(v)));
      var kept := FilterRepos(q, filters, StableSort(SortKeyOf(v), repos));
      SearchResults(q, filters, repos) == kept[..Min(p.size, |kept|)]
  {
    var q := ApplyParams(p, Dispatch(SortChange(v)));
    assert q.page == 1 && q.size == p.size;
    FirstPage(FilterRepos(q, filters, StableSort(SortKeyOf(v), repos)), p.size);
  }
}
