# Hugo page collections, modelled in Dafny

This project models `PageCollections`, the in-memory page index of Hugo's site builder (`hugolib/page_collections.go`). The index holds five ordered page lists:

- `Pages`: the pages of the current language;
- `AllPages`: the pages of all languages;
- `indexPages`: a cache of the non-regular pages of `Pages`;
- `regularPages`: a cache of the regular pages of `Pages`;
- `rawAllPages`: the master list of every page, drafts included.

The index answers type-filtered queries and a lookup by type and section path. It rebuilds its two caches on request. Edits act on the raw list only.

Two modules:

- `PageModel` (`page_model.dfy`) holds the page values and the pure functions that specify the index:
  - the type filters `OfType` and `NotOfType`;
  - the first-match finders `FindPagePosByFilePath` and `FindPagePos`;
  - removal by file path, `RemoveFirstByFilePath`;
  - the section-prefix lookup `FirstQualifying`;
  - the lemmas about these functions.
- `HugoLib` (`page_collections.dfy`) holds the class `PageCollections`:
  - its five fields are `seq<Page>`;
  - its methods mirror the Go methods, loops and in-place field updates included;
  - each method is proved against the functions of `PageModel`.

Four client methods (`AddRemoveScenario`, `RefreshScenario`, `UnknownTypeScenario`, `GetPageScenario`) show what callers can prove from the contracts alone. They cover adding two regular pages and removing one by file path, the cache refresh of a home, a section and a regular page, the unknown-type case, and the zero-path quirk of `getPage`.

Properties proved:

- **Type filters.** The type filter keeps exactly the pages of the given type, and the inverse filter keeps exactly the others. Each result is an order-preserving subsequence of its input. It is the only longest subsequence of pages with that property. The two results' lengths add up to the input's length, and their multisets add up to the input's multiset.
- **Cache refresh.** After a refresh, the two caches split `Pages` by the regular-page predicate. The refresh reports the first page of unknown type; this is the case where the Go code panics.
- **`getPage`, with a path.** It returns the first page of the type in `Pages` order whose sections start with the path.
- **`getPage`, with no path.** It returns the only candidate when there is exactly one, and nothing otherwise.
- **Removal.** It takes away exactly the first page with the file path, or changes nothing.
- **Replacement.** It leaves the page last. The length stays the same when a page with that path was there, and grows by one otherwise. Unique file paths stay unique.
- **Appending.** It keeps file paths unique exactly when the new path is not there yet: there is no duplicate check.

## Model

| member | source | states |
|---|---|---|
| `PageModel.OfType` | hugolib/page_collections.go:101-109 | the type filter keeps only pages of type `n` and is no longer than its input |
| `PageModel.NotOfType` | hugolib/page_collections.go:111-119 | the inverse filter keeps only pages whose type is not `n` and is no longer than its input |
| `PageModel.OfTypeMembers` | hugolib/page_collections.go:101-109 | a page is in the filtered list exactly when it is in the input and has type `n` |
| `PageModel.NotOfTypeMembers` | hugolib/page_collections.go:111-119 | a page is in the inverse filter's result exactly when it is in the input and its type is not `n` |
| `PageModel.OfTypeAppend` | hugolib/page_collections.go:101-109 | filtering a concatenation is the concatenation of the filtered parts (the scan keeps order) |
| `PageModel.NotOfTypeAppend` | hugolib/page_collections.go:111-119 | the same for the inverse filter |
| `PageModel.OfTypeIsSubsequence` | hugolib/page_collections.go:101-109 | the filtered list is an order-preserving subsequence of the input |
| `PageModel.NotOfTypeIsSubsequence` | hugolib/page_collections.go:111-119 | the inverse filter's result is an order-preserving subsequence of the input |
| `PageModel.OfTypeIsLongest` | hugolib/page_collections.go:101-109 | every subsequence of type-`n` pages is at most as long as the filter's result, and one as long equals it: the result holds exactly the type-`n` pages, in order |
| `PageModel.NotOfTypeIsLongest` | hugolib/page_collections.go:111-119 | the same for pages whose type is not `n` |
| `PageModel.FiltersSplit` | hugolib/page_collections.go:101-119 | for one type, the two filters' lengths add up to the input's length |
| `PageModel.FiltersKeepMultiset` | hugolib/page_collections.go:101-119 | the two filters together keep every occurrence of every page |
| `PageModel.OfTypeAfterNotOfType` | hugolib/page_collections.go:97-99 | filtering the non-regular cache by type `n` gives nothing for the regular type and the plain type-`n` filter for any other |
| `PageModel.PartitionByRegular` | hugolib/page_collections.go:42-44 | each page of the list is in exactly one of the two caches, the regular one exactly when its type is `PagePage`, and the caches keep every occurrence |
| `PageModel.SplitOfThree` | hugolib/page_collections.go:43-44 | a home page, a section page and a regular page, in that order, split into the index cache `[home, section]` and the regular cache `[post]` |
| `PageModel.FindPagePosByFilePath` | hugolib/page_collections.go:134 | the finder returns -1 when no page has the path, and otherwise the first position of a page with it |
| `PageModel.FindPagePos` | hugolib/page_collections.go:140 | the same search, keyed by the given page's own file path |
| `PageModel.RemoveFirstByFilePath` | hugolib/page_collections.go:133-143 | removal by path keeps the length exactly when no page has the path, and otherwise shortens the list by one |
| `PageModel.RemoveFirstByFilePathEffect` | hugolib/page_collections.go:133-143 | removal by path gives an order-preserving subsequence. It changes nothing when no page has the path. Otherwise it drops exactly the first page with the path: the length falls by one, the pages before and after it are kept, and the multiset loses that one page |
| `PageModel.AppendUniquePaths` | hugolib/page_collections.go:129-131 | appending keeps file paths unique exactly when no page has the new page's path already |
| `PageModel.RemoveKeepsUniquePaths` | hugolib/page_collections.go:133-143 | on a list with unique paths, removal keeps them unique and leaves no page with the removed path |
| `PageModel.ReplaceEffect` | hugolib/page_collections.go:145-149 | remove-then-append leaves the page last, keeps the order of the others, and either keeps the length (a page with that path was there) or grows it by one. It keeps unique paths unique |
| `PageModel.FirstQualifying` | hugolib/page_collections.go:79-94 | any page the first-match lookup returns has type `n` and sections starting with the path |
| `PageModel.FirstQualifyingIsFirst` | hugolib/page_collections.go:79-94 | the first-match lookup finds nothing exactly when no page of type `n` lies under the path. Otherwise it finds such a page with none before it |
| `PageModel.FirstQualifyingOfType` | hugolib/page_collections.go:69-94 | searching only the type-`n` candidates finds the same first match as searching all of `Pages` |
| `PageModel.EmptyPathFindsFirst` | hugolib/page_collections.go:75-77 | with no path the first-match lookup returns the first page of type `n`, or nothing when there is none |
| `HugoLib.PageCollections.constructor` | hugolib/page_collections.go:54-56 | a new index has all five lists empty, and its caches are fresh |
| `HugoLib.PageCollections.FromPages` | hugolib/page_collections.go:58-60 | the raw list is the given pages and the other four lists are empty |
| `HugoLib.PageCollections.RefreshPageCaches` | hugolib/page_collections.go:42-52 | the caches become the non-regular and the regular pages of `Pages`, partitioning it. The three other fields do not change. The fault is the title of the first page of unknown type, and there is none when no page has that type |
| `HugoLib.PageCollections.FindPagesByNodeType` | hugolib/page_collections.go:64-66 | the result is the type-`n` pages of `Pages` |
| `HugoLib.PageCollections.GetPage` | hugolib/page_collections.go:68-95 | it returns nothing when `Pages` has no page of type `n`; any page returned is in `Pages` and has type `n`. With no path: the sole candidate when there is exactly one, nothing otherwise. With a path: the first page of type `n` whose sections start with the path. With no path it differs from the first-match lookup exactly when there are two or more candidates |
| `HugoLib.PageCollections.FindIndexNodesByNodeType` | hugolib/page_collections.go:97-99 | the result is the type-`n` pages of the index cache. On fresh caches that is nothing for `PagePage` and the type-`n` pages of `Pages` otherwise |
| `HugoLib.PageCollections.FindPagesByNodeTypeIn` | hugolib/page_collections.go:101-109 | the loop builds exactly the type filter of its input |
| `HugoLib.PageCollections.FindPagesByNodeTypeNotIn` | hugolib/page_collections.go:111-119 | the loop builds exactly the inverse type filter of its input |
| `HugoLib.PageCollections.FindAllPagesByNodeType` | hugolib/page_collections.go:121-123 | the result is the type-`n` pages of `Pages` |
| `HugoLib.PageCollections.FindRawAllPagesByNodeType` | hugolib/page_collections.go:125-127 | the result is the type-`n` pages of the raw list |
| `HugoLib.PageCollections.AddPage` | hugolib/page_collections.go:129-131 | the raw list gains the page at its end, with no duplicate check, and the other four lists do not change |
| `HugoLib.PageCollections.RemovePageByPath` | hugolib/page_collections.go:133-137 | the raw list loses its first page with the path, or is unchanged when there is none. The other four lists do not change |
| `HugoLib.PageCollections.RemovePage` | hugolib/page_collections.go:139-143 | the same, keyed by the given page's file path |
| `HugoLib.PageCollections.ReplacePage` | hugolib/page_collections.go:145-149 | the raw list is the old one without the first page with that path, followed by the page. The page is last, the length is kept or grows by one, unique paths stay unique, and the other four lists do not change |

## Left out

- `FindPagePos` and `FindPagePosByFilePath` are methods of the `Pages` type, whose source (`hugolib/pages.go`) is not part of this model. Both are modelled as "first position of a page with this file path, else -1". `FindPagePos` compares the source file path of the page it is given; the comment in `replacePage` confirms it.
- Pages are values rather than Go pointers. `GetPage` returns the page value it found, and identity is the file path. Two pages with equal fields cannot be told apart.
- Go slice aliasing is not modelled. `append(raw[:i], raw[i+1:]...)` reuses the backing array, so a slice shared with the caller of `newPageCollectionsFromPages` could see the change; here the lists are values.
- The panic in `refreshPageCaches` is modelled as the out-parameter `fault`, which holds the title of the first page of unknown type. Stopping the process is not modelled, and neither is the text of the message that `fmt.Sprintf` builds.
- Go's nil (empty) slice result is modelled as the empty sequence.
- `AllPages` is only declared in the source. No operation reads or writes it, and every method here leaves it unchanged.
- The `Page` type's other state (source, content, rendering) is left out. So are language resolution, taxonomy computation and build orchestration: they happen outside this file.
- `getPage`'s variadic `path ...string` is a `seq<string>` parameter.
