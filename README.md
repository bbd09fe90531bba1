# Browse page projection and URL parameter reader

This project models two pieces of the code.gov front end in Dafny and proves what they promise.

1. **The browse page container** (`browse-projects.container.js`).
   - `mapStateToProps` takes the browse parameters (active filters, sort key, page, page size), the optional facet lists and the optional fetched results. It computes the page's props:
     - the checkbox list of each facet category, with its `checked` flags;
     - the repositories after sorting, filtering and paginating;
     - the total, the three sort options and the filter chips.
   - `mapDispatchToProps` turns the page's UI events into update intents for the store.
2. **`AppComponent.loadParamsFromURL`** (`app.component.js`). On first mount it reads the location's path and its query parameters. It then calls the browse-filter, initial-search and search-filter callbacks in a fixed order. The model describes the callbacks it calls as an ordered sequence of intents.

Modules, one per file:

- `Wrappers`: `Option`.
- `Text`: the imported `normalize` helper (lower case, then trim, mapped over arrays), plus the JavaScript string operations the code uses: `includes` and `split` on one character. `join`, the inverse of `split`, is defined only to state the round trip between the two.
- `Repository`: the repository record.
- `Sequences`: `Array.prototype.filter` on sequences.
- `RepoSorting`:
  - the four comparators and the comparator dispatch on the sort key;
  - `Array.prototype.sort`, which is stable since ES2019, modelled as an in-place insertion sort on an `array`, proved equal to a stable-sort function on sequences.
- `BrowseProjects`: `mapStateToProps` and `mapDispatchToProps`.
- `App`: `loadParamsFromURL`, as a method that appends intents to a sequence. It is proved equal to the function `UrlIntents`, and the order, soundness and completeness properties are proved about that function.

Modelling decisions:

- **`total`** is `get(browseResults, 'total') || 0`, as in the code. It is the total of the fetched results, not the length of the filtered list; the code never computes the latter.
- **Unknown sort key.** With an unknown `sort`, the comparator's `if` chain falls through and returns `undefined`, which the sort reads as "equal". A stable sort therefore keeps the order the array already has. Because `repos.sort` sorts `browseResults.repos` in place, that is the order the previous projection left behind, not necessarily the fetched order. Likewise, repositories the new key ranks equal keep the previous key's order. `MapStateToProps` states the new array contents in terms of `old(a[..])`, which captures this.
- **The sort mutates the array.** `repos.sort(...)` sorts `browseResults.repos` in place. `MapStateToProps` therefore `modifies` that array and states its new contents.
- **`slice`** is modelled with its exact JavaScript semantics: a negative index counts from the end, and indices are clamped to the length.
- **Filter values.** `getFilterValuesFromParamsByCategory` is stood in for by the values of the active filters of that category, in order and not normalized. A checkbox is checked when the normalized facet value is among them.
- **`getFilterTags`** is a function parameter of `MapStateToProps`. Its body is not part of this model.
- **Missing facets.** The source reads `filters[key]` for all four categories. `MapStateToProps` therefore requires every category to be present when the facets are loaded.
- **Helpers with no definition in the file.** `overlaps` and `hasLicense` are used but never defined there. They are stood in for by "the two lists share an element" and "the license list is not empty".
- **`some` and `includes` from `@code.gov/cautious`.** The library is not part of this model. `some(selections.X)` (lines 52, 59, 65, 79) is read as "the array is not empty", and the library's `includes` (line 27) as "the value is an element of the array". So a selection holding only the empty string, which `?agencies=` produces, is an active selection: it keeps only repositories whose normalized value is `""`. A `some` that looks for a truthy element would treat it as no selection.

## Model

| member | source | states |
|---|---|---|
| BrowseProjects.FilterValues | src/components/browse-projects/browse-projects.container.js:15-18 | a category's selection holds exactly the values of the active filters of that category, and is no longer than the filter list |
| BrowseProjects.Selection | src/components/browse-projects/browse-projects.container.js:15-18 | `selections[key]`: the filter values of one category of the browse parameters |
| BrowseProjects.BoxList | src/components/browse-projects/browse-projects.container.js:27 | one box per facet entry, in facet order, with its name and value; `checked` exactly when the normalized value is selected |
| BrowseProjects.Boxes | src/components/browse-projects/browse-projects.container.js:24-30 | no facets gives no boxes; with facets there is a list for exactly the four categories, each built from that category's facet list |
| BrowseProjects.BoxesFollowFacets | src/components/browse-projects/browse-projects.container.js:25-29 | for each category and position, the box keeps the facet's name and value, and is checked iff its normalized value is in the selection |
| BrowseProjects.Total | src/components/browse-projects/browse-projects.container.js:32 | the total is the fetched total when present, 0 otherwise; it reads nothing but the results, so selections, page and size cannot change it |
| BrowseProjects.RepoArray | src/components/browse-projects/browse-projects.container.js:33 | `get(browseResults, 'repos')`: the fetched array, or none when the results or their repositories are absent |
| RepoSorting.SortKeyOf | src/components/browse-projects/browse-projects.container.js:38-47 | each of the four sort values selects its own comparator branch, and every other value selects the fall-through |
| RepoSorting.Comparator | src/components/browse-projects/browse-projects.container.js:38-48 | the comparator passed to `sort`: the branch of the selected key, and 0 for the `undefined` of the fall-through |
| RepoSorting.Before | src/components/browse-projects/browse-projects.container.js:38-48 | how the sort reads the comparator's sign: `a` may stay in front of `b` when the comparator returns 0 or less |
| RepoSorting.BeforeBy | src/components/browse-projects/browse-projects.container.js:38-48 | the same reading as a function value, the comparator the generic sort is given |
| RepoSorting.SortByBestMatch | src/components/browse-projects/browse-projects.container.js:40 | the stand-in for `sortByBestMatch`: higher search score first (descending, as a difference of integers) |
| RepoSorting.SortByDataQuality | src/components/browse-projects/browse-projects.container.js:42 | the stand-in for `sortByDataQuality`: higher data-quality score first |
| RepoSorting.SortByName | src/components/browse-projects/browse-projects.container.js:44 | the stand-in for `sortByName`: case-insensitive name, ascending, by code point |
| RepoSorting.SortByDate | src/components/browse-projects/browse-projects.container.js:46 | the stand-in for `sortByDate`: most recently modified first |
| RepoSorting.LexCompare | src/components/browse-projects/browse-projects.container.js:43-44 | the name comparison is three-way and returns 0 exactly on equal strings |
| RepoSorting.BeforeTotal | src/components/browse-projects/browse-projects.container.js:38-48 | every comparator orders any two repositories one way or the other |
| RepoSorting.BeforeTransitive | src/components/browse-projects/browse-projects.container.js:38-48 | every comparator is transitive |
| RepoSorting.UnknownKeyComparesEqual | src/components/browse-projects/browse-projects.container.js:38-48 | under an unknown key the comparator returns "equal" for every pair |
| RepoSorting.StableSortSorted | src/components/browse-projects/browse-projects.container.js:37-48 | the sorted repositories are in comparator order and are a permutation of the fetched ones |
| RepoSorting.StableSort | src/components/browse-projects/browse-projects.container.js:37-48 | the sequence the sort leaves: the stable insertion sort of the input under the key's comparator |
| RepoSorting.Insert | src/components/browse-projects/browse-projects.container.js:37-38 | one insertion of the stable sort: `x` goes behind the last element it may follow, and the length grows by one |
| RepoSorting.SortBy | src/components/browse-projects/browse-projects.container.js:37-38 | the stable sort that `SortInPlace` is proved equal to: insertion of each element, left to right; the length is kept |
| RepoSorting.StableSortMembers | src/components/browse-projects/browse-projects.container.js:37-48 | the sort keeps the length and neither adds nor drops a repository |
| RepoSorting.StableSortOfSorted | src/components/browse-projects/browse-projects.container.js:37-48 | repositories already in comparator order are left exactly as they are |
| RepoSorting.SortByKeepsLevelOrder | src/components/browse-projects/browse-projects.container.js:37-38 | for any total preorder, the sorted sequence holds the elements ranked level with any given one in the order they had in the input |
| RepoSorting.StableSortKeepsTies | src/components/browse-projects/browse-projects.container.js:37-48 | under every sort key, repositories the comparator ranks level with one another keep their relative order: the sort is stable |
| RepoSorting.UnknownKeyKeepsOrder | src/components/browse-projects/browse-projects.container.js:38-48 | with an unknown sort key the repositories keep their input order |
| RepoSorting.SortInPlace | src/components/browse-projects/browse-projects.container.js:37-38 | sorting an array in place leaves in it the stable sort of its old contents |
| RepoSorting.InsertInPlace | src/components/browse-projects/browse-projects.container.js:37-38 | one insertion step of the in-place sort: the first `i + 1` elements become the insertion of the old element `i` into the old first `i`, and the elements after `i` are unchanged |
| RepoSorting.SortRepos | src/components/browse-projects/browse-projects.container.js:37-48 | `repos.sort` leaves in the fetched array its stable sort under the key's comparator |
| Sequences.FilterMember | src/components/browse-projects/browse-projects.container.js:49 | an element is in the filtered list iff it was in the list and the callback keeps it |
| Sequences.FilterAppend | src/components/browse-projects/browse-projects.container.js:49 | filtering a concatenation is the concatenation of the filtered parts |
| Sequences.Filter | src/components/browse-projects/browse-projects.container.js:49 | `Array.prototype.filter`: the elements the callback keeps, in their order |
| BrowseProjects.KeepRepo | src/components/browse-projects/browse-projects.container.js:49-94 | the `.filter` callback: false without facets; otherwise false on the first failed check (agency, language overlap, license present, license overlap, usage type), false for an exempt usage type, true otherwise |
| BrowseProjects.Overlaps | src/components/browse-projects/browse-projects.container.js:60 | the stand-in for `overlaps`: the two lists share an element |
| BrowseProjects.HasLicense | src/components/browse-projects/browse-projects.container.js:67 | the stand-in for `hasLicense`: the repository lists at least one license |
| BrowseProjects.FilterRepos | src/components/browse-projects/browse-projects.container.js:49-94 | `repos.filter(...)` with the page's callback |
| BrowseProjects.FilterReposMember | src/components/browse-projects/browse-projects.container.js:49-94 | a repository is in the filtered list iff it was fetched and passes the page's filter callback |
| BrowseProjects.KeepRepoRules | src/components/browse-projects/browse-projects.container.js:50-93 | with facets loaded, a repository is kept iff it passes all four selection rules (an empty selection imposes nothing) and its normalized usage type does not contain "exempt" |
| BrowseProjects.KeptSelectionRules | src/components/browse-projects/browse-projects.container.js:51-63 | a kept repository's normalized agency is in a non-empty agency selection, one of its normalized languages is in a non-empty language selection, and its normalized usage type is in a non-empty usage-type selection |
| BrowseProjects.KeptLanguageRule | src/components/browse-projects/browse-projects.container.js:58-63 | a repository kept under a language selection has a language whose normalized form is selected |
| BrowseProjects.KeptLicenseRule | src/components/browse-projects/browse-projects.container.js:65-75 | a repository kept under a license selection has a license, and one whose normalized name is selected |
| BrowseProjects.OverlapsWitness | src/components/browse-projects/browse-projects.container.js:60 | when the normalized list overlaps the selection, some element of the original list normalizes into the selection |
| BrowseProjects.SearchResultsMember | src/components/browse-projects/browse-projects.container.js:36-99 | every repository shown was fetched, the facets are loaded, and it passed the filter |
| BrowseProjects.SelectionRules | src/components/browse-projects/browse-projects.container.js:51-63 | every repository shown satisfies each non-empty agency, language and usage-type selection |
| BrowseProjects.LicenseFilterRule | src/components/browse-projects/browse-projects.container.js:65-75 | under an active license filter, every repository shown has a license and one of its normalized license names is selected |
| BrowseProjects.UnlicensedHiddenByLicenseFilter | src/components/browse-projects/browse-projects.container.js:65-69 | under an active license filter, a repository with no license is never shown |
| BrowseProjects.ExemptNeverShown | src/components/browse-projects/browse-projects.container.js:77-88 | a repository whose normalized usage type contains "exempt" is never shown, whatever the selections |
| BrowseProjects.NoSelectionKeepsNonExempt | src/components/browse-projects/browse-projects.container.js:49-94 | with no active filter, exactly the fetched repositories that are not exempt survive the filter |
| Sequences.FilterNothing | src/components/browse-projects/browse-projects.container.js:93 | a callback that rejects everything leaves an empty list |
| BrowseProjects.FilterWithoutFacets | src/components/browse-projects/browse-projects.container.js:50 | before the facets are loaded the filter rejects every repository |
| BrowseProjects.NoFacetsNoResults | src/components/browse-projects/browse-projects.container.js:24-30 | without facets the page is empty (not undefined) and there are no checkbox lists |
| BrowseProjects.SliceIndex | src/components/browse-projects/browse-projects.container.js:96-99 | a slice index in range is kept, a negative one counts from the end, and one past the end is clamped |
| BrowseProjects.JsSlice | src/components/browse-projects/browse-projects.container.js:96-99 | `Array.prototype.slice`: the elements between the two relative indices, none when the start is not before the end |
| BrowseProjects.Paginate | src/components/browse-projects/browse-projects.container.js:96-99 | the slice from `(page - 1) * size` to `page * size` |
| BrowseProjects.SearchResults | src/components/browse-projects/browse-projects.container.js:36-99 | the results once repositories are fetched: sort, then filter, then paginate |
| BrowseProjects.PaginateExact | src/components/browse-projects/browse-projects.container.js:96-99 | for page >= 1 and size >= 0, the page is the elements from `(page-1)*size` up to `page*size` or the end, nothing past the end; its length is `min(size, length - (page-1)*size)`, clamped at 0 |
| BrowseProjects.FirstPage | src/components/browse-projects/browse-projects.container.js:96-99 | page 1 is the first `size` elements, or all of them when there are fewer |
| BrowseProjects.PaginateAtMostSize | src/components/browse-projects/browse-projects.container.js:96-99 | whatever the page number, a page holds at most `size` elements |
| BrowseProjects.PaginateMembers | src/components/browse-projects/browse-projects.container.js:96-99 | a page holds only elements of the paginated list |
| BrowseProjects.SearchResultsArePage | src/components/browse-projects/browse-projects.container.js:36-99 | the results shown are exactly the requested slice of the sorted, filtered repositories, and never more than `size` |
| BrowseProjects.SortOptions | src/components/browse-projects/browse-projects.container.js:102-118 | three options (data quality, A-Z, last updated) in that order, each selected iff it is the current sort |
| BrowseProjects.SortOptionsSelection | src/components/browse-projects/browse-projects.container.js:102-118 | at most one option is selected, and none for `best_match` or an unknown key |
| BrowseProjects.MapStateToProps | src/components/browse-projects/browse-projects.container.js:12-136 | the props: boxes, total, the param echoes, sort options and filter tags; no fetched repositories gives undefined results; otherwise the array is sorted in place and the results are the page of the sorted, filtered repositories |
| BrowseProjects.Dispatch | src/components/browse-projects/browse-projects.container.js:138-152 | a box change forwards its category, value and type; a tag click removes its value; a sort change sets page 1 and the new sort; a page change sets only the page; saving dispatches the save action |
| BrowseProjects.SortChangeResetsPage | src/components/browse-projects/browse-projects.container.js:145-147 | after a sort change the parameters are the old ones with page 1 and the new sort |
| BrowseProjects.PageChangeOnlyPage | src/components/browse-projects/browse-projects.container.js:149-151 | after a page change the parameters differ from the old ones in the page only |
| BrowseProjects.SortChangeShowsFirstPage | src/components/browse-projects/browse-projects.container.js:145-147 | after a sort change the page shows the first `size` repositories of the newly sorted, filtered list |
| Repository.LicenseNames | src/components/browse-projects/browse-projects.container.js:71 | one license name per license, in order |
| Text.LowerChar | src/components/browse-projects/browse-projects.container.js:4 | lower-casing maps an upper-case ASCII letter to its lower-case form and leaves every other character alone |
| Text.IsSpace | src/components/browse-projects/browse-projects.container.js:4 | the characters `trim` removes: ECMAScript white space (tab, vertical tab, form feed, U+FEFF, the Zs space separators) and line terminators (LF, CR, U+2028, U+2029) |
| Text.TrimStartSpec | src/components/browse-projects/browse-projects.container.js:4 | trimming the front drops only leading white space and leaves a suffix that does not start with white space |
| Text.TrimEndSpec | src/components/browse-projects/browse-projects.container.js:4 | trimming the back drops only trailing white space and leaves a prefix that does not end with white space |
| Text.NormalizeNormalized | src/components/browse-projects/browse-projects.container.js:4 | a normalized value has no upper-case letter and no white space at either end |
| Text.NormalizeFixpoint | src/components/browse-projects/browse-projects.container.js:4 | `normalize` leaves a value alone exactly when the value is already normalized |
| Text.NormalizeIdempotent | src/components/browse-projects/browse-projects.container.js:4 | normalizing twice is normalizing once |
| Text.Normalize | src/components/browse-projects/browse-projects.container.js:4 | the `normalize` stand-in on one string: lower case, then trim |
| Text.NormalizeAll | src/components/browse-projects/browse-projects.container.js:4 | `normalize` on an array: every element normalized, order and length kept |
| Text.Contains | src/components/browse-projects/browse-projects.container.js:86 | `String.prototype.includes`: `sub` occurs at some position of the text |
| Text.ContainsInside | src/components/browse-projects/browse-projects.container.js:86 | `includes` finds a text wherever it is embedded |
| Text.ContainsBounds | src/components/browse-projects/browse-projects.container.js:86 | a shorter text never includes a longer one, and every text includes the empty string |
| Text.ContainsChars | src/components/app/app.component.js:33-37 | a text that includes `sub` holds every character of `sub` |
| Text.IndexOf | src/components/app/app.component.js:29-31 | the first position of the separator |
| Text.Split | src/components/app/app.component.js:29-31 | `split` yields at least one piece |
| Text.SplitSeparatorFree | src/components/app/app.component.js:29-31 | no piece of a split holds the separator |
| Text.JoinSplit | src/components/app/app.component.js:29-31 | joining the pieces of a split gives the text back |
| Text.SplitAt | src/components/app/app.component.js:29-31 | a text split at its first separator gives the piece before it, then the split of the rest |
| Text.SplitJoin | src/components/app/app.component.js:29-31 | splitting a join of separator-free pieces gives the pieces back |
| App.ParamValues | src/components/app/app.component.js:29-31 | one value per comma-separated piece of the parameter |
| App.ParamValuesNormalized | src/components/app/app.component.js:29-31 | each value is the normalized piece at its position, and is normalized |
| App.IsBrowsePath | src/components/app/app.component.js:33 | the test of the first `if`: the path contains `browse-projects` |
| App.IsSearchPath | src/components/app/app.component.js:37 | the test of the second `if`: the path contains `search` |
| App.HasQuery | src/components/app/app.component.js:38-39 | `params.get('query')` is truthy: present and not empty |
| App.OptionalUpdate | src/components/app/app.component.js:34-36 | one `if (values) { callback(category, values) }` of a branch: one update when the category is in the parameters, none otherwise |
| App.BranchUpdates | src/components/app/app.component.js:34-36 | the three `if`s of a branch (lines 34-36 and 40-42): languages, agencies, licenses, in that order |
| App.InitialSearch | src/components/app/app.component.js:38-39 | the `loadInitialSearch(query)` call, when the query is truthy |
| App.BrowseBranch | src/components/app/app.component.js:33-36 | the first `if`: the browse updates when the path contains `browse-projects` |
| App.SearchBranch | src/components/app/app.component.js:37-43 | the second `if`: the initial search, then the search updates, when the path contains `search` |
| App.UrlIntents | src/components/app/app.component.js:33-43 | the intents the two `if`s emit: the browse branch's updates, then the search branch's initial search and updates |
| App.UrlIntentsSound | src/components/app/app.component.js:33-43 | every intent emitted is called for: a filter update only for a category present in the URL, with its normalized values, on a branch whose page the path names; an initial search only on a search path with a non-empty query |
| App.UrlIntentsInOrder | src/components/app/app.component.js:33-43 | intents come in strictly increasing rank, at most one of each: browse languages, agencies, licenses, then the initial search, then search languages, agencies, licenses |
| App.UrlIntentsComplete | src/components/app/app.component.js:33-43 | every update the path and parameters call for is emitted, on both branches when the path names both pages, and so is the initial search when the query is non-empty |
| App.BranchUpdatesOrdered | src/components/app/app.component.js:34-36 | one branch's updates come in the order languages, agencies, licenses |
| App.BranchUpdatesComplete | src/components/app/app.component.js:34-36 | a branch emits an update for every URL category present |
| App.BranchesIndependent | src/components/app/app.component.js:33-37 | a path naming neither page emits nothing; one naming both runs the browse branch, then the search branch |
| App.EmitFilterUpdates | src/components/app/app.component.js:34-36 | the three `if`s of a branch append exactly that branch's updates, in order |
| App.LoadParamsFromURL | src/components/app/app.component.js:24-44 | the callbacks called are `UrlIntents` of the path and parameters: sound, in the fixed order and complete |
| App.ExampleIsBrowse | src/components/app/app.component.js:33 | `/browse-projects` is a browse path |
| App.ExampleNotSearch | src/components/app/app.component.js:37 | `/browse-projects` is not a search path |
| App.ExampleSplit | src/components/app/app.component.js:30 | `"Python, JAVA"` splits into `"Python"` and `" JAVA"` |
| App.ExampleValuesNormalize | src/components/app/app.component.js:30 | `"Python"` and `" JAVA"` normalize to `"python"` and `"java"` |
| App.ExampleParamValues | src/components/app/app.component.js:30 | `languages=Python, JAVA` reads as the values `python`, `java` |
| App.BrowseLinkExample | src/components/app/app.component.js:24-44 | the link `/browse-projects?languages=Python, JAVA` emits exactly one browse-filter update for languages, with `python` and `java` |

## Left out

- React and Redux wiring: `connect`, `render` with its routes, and `componentDidMount` (`refreshView`, `saveSiteConfig`). These are framework plumbing with no logic to model.
- `saveFilterOptions`: the model covers only the intent that `saveFilterData` dispatches. The asynchronous loading behind it is not part of this model.
- `URLSearchParams`: the query string is taken as an already-decoded map from key to value. Percent-decoding and repeated keys are not modelled; `get` returns the first value, and a map holds one value per key.
- `getFilterTags`: its body is not part of this model. `MapStateToProps` receives it as a function and states only that the props carry its result.
- `getFilterValuesFromParamsByCategory`: its body is not part of this model. It is stood in for by `FilterValues`.
- Text.LowerChar: lower-cases only ASCII letters, because `toLowerCase` follows Unicode case mappings, which the model leaves out.
- Text.IsSpace: the space separators are those of Unicode category Zs as listed in the definition. A character added to Zs by a later Unicode version is not trimmed.
- RepoSorting.SortByBestMatch, RepoSorting.SortByDataQuality, RepoSorting.SortByDate, RepoSorting.SortByName: the comparator bodies in `utils/repo-sorting` are not part of this model. They are stood in for by:
  - descending integer search score, data-quality score and modification time;
  - the case-insensitive name, ascending.
  Floating-point scores and date parsing are not modelled.
- RepoSorting.SortInPlace: an insertion sort stands in for the engine's sort algorithm. Both give the same result, because a stable sort under a total preorder is unique. The engine's number of comparisons and its handling of inconsistent comparators are not modelled.
- BrowseProjects.ApplyParams: the store's reducer for `updateBrowseParams` is not part of this model. It is stood in for by a merge of the given fields. This is what `SortChangeResetsPage`, `PageChangeOnlyPage` and `SortChangeShowsFirstPage` rely on.
- BrowseProjects.MapStateToProps: requires all four categories in the facets when they are loaded. The source would throw on a missing category; the model rules that case out instead of modelling the exception.
- BrowseProjects.Paginate: a non-integer page or size (`NaN`, fractions) is not modelled; both are integers here.
- Repository.Repo: every fetched record is assumed complete. The source reads `repo.agency.acronym` (line 53), `repo.permissions.licenses` (line 71) and `repo.permissions.usageType` (line 77) without a guard. Line 77 runs for every repository that passes the agency, language and license checks (lines 51-75), so such a record without `permissions` makes the page throw there; one rejected earlier, say by an agency mismatch at line 55, does not. A record without `languages` may also throw at line 60, depending on the unseen `normalize`. The model has no missing fields and does not model these exceptions.
- tests/unit/components/plugins/policy-guide.test.js: snapshot tests of a UI component, with no logic to model.
