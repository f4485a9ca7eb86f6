# gsoc-guide core, modelled in Dafny

gsoc-guide is a Next.js site that lists Google Summer of Code organizations
and serves the past proposals (PDF files) each organization accepted. This
project models its list, map and string logic:

- **Proposal lookup** (`src/utils/github.ts`, `src/utils/proposals.ts`).
  An organization name is resolved to a local folder ignoring case. The
  `.pdf` files of a folder become proposal records. The GitHub contents API
  is tried before the local mirror. A map from lower-cased organization
  name to "has proposals" is built over all known organizations.
- **Static tables** (`src/utils/orgData.ts`, `src/utils/organizations.ts`).
  Bundled per-organization statistics are re-keyed by lower-cased name, and
  their totals are computed or read.
- **The organization list pages** (`OrganizationsLayout.tsx`,
  `SearchFiltersWrapper.tsx`). The has-proposals flag is merged into each
  organization and the unique technologies and topics are collected. The
  query, technology, topic and proposals-only filters combine as a
  conjunction. `OrganizationsLayout` also puts organizations with
  proposals first, then sorts each group by name or by project count.
- **Small state machines**. `FilterBar.tsx` holds the filter selection
  toggles. `PDFViewer.tsx` is the page-by-page pager. `NativePDFViewer.tsx`
  chooses between the iframe and the download fallback.

All I/O is an input: directory listings are `Listing` values and GitHub API
responses are `Remote` values (`NotFound | Failure | Ok(entries)`), both in
`domain.dfy`. `encodeURIComponent` is a parameter `enc: string -> string`.
React components with state are classes: each `useState` is a field, and
each handler is a method that states the new value of every field it sets.

Modules, one per file:

| module | models |
|---|---|
| `Text` | ASCII `toLowerCase`, `endsWith`, `includes`, and a total order on names standing for `localeCompare` |
| `Seqs` | `Array.prototype.filter` and `[...new Set(xs)]`, with their algebra |
| `Rekey` | `result[name.toLowerCase()] = value` in a loop, where the last write wins |
| `Domain` | the `Organization` and `Proposal` shapes, I/O results, and the `/api/pdf` URL |
| `GitHub` | `src/utils/github.ts` |
| `LocalProposals` | `src/utils/proposals.ts` |
| `OrgData` | `src/utils/orgData.ts` |
| `Organizations` | `src/utils/organizations.ts` |
| `OrgListing` | the flag merge, tech/topic collection and filter chain shared by both list pages |
| `Sorting` | `sortOrganizations` and `sortOrganizationsByProposalsAndName` |
| `Layout` | `src/components/OrganizationsLayout.tsx` |
| `SearchFilters` | `src/components/SearchFiltersWrapper.tsx` |
| `FilterPanel` | `src/components/FilterBar.tsx` |
| `Pager` | `src/components/PDFViewer.tsx` |
| `NativeViewer` | `src/components/NativePDFViewer.tsx` |

## Model

| member | source | states |
|---|---|---|
| Text.LowerIdempotent | gsoc-guide/src/utils/github.ts:56 | lower-casing twice is lower-casing once, which case-insensitive comparison relies on |
| Text.IncludesIffOccurs | gsoc-guide/src/components/OrganizationsLayout.tsx:79-80 | `includes` holds exactly when the substring occurs at some position |
| Text.NameLeTotal | gsoc-guide/src/components/OrganizationsLayout.tsx:121-122 | the order standing for `localeCompare` relates every pair of names |
| Text.NameLeTransitive | gsoc-guide/src/components/OrganizationsLayout.tsx:121-122 | that order is transitive |
| Text.NameLeAntisymmetric | gsoc-guide/src/components/OrganizationsLayout.tsx:121-122 | that order is antisymmetric: two names ordered both ways are equal |
| Seqs.Filter | gsoc-guide/src/components/OrganizationsLayout.tsx:78-81 | `filter` keeps exactly the elements satisfying the predicate and never grows the list |
| Seqs.FilterConcat | gsoc-guide/src/components/SearchFiltersWrapper.tsx:76-104 | filtering distributes over concatenation, so it keeps the original relative order |
| Seqs.FilterMultiset | gsoc-guide/src/components/OrganizationsLayout.tsx:130-131 | each kept element occurs as often as in the input; a dropped one not at all |
| Seqs.FilterCompose | gsoc-guide/src/components/OrganizationsLayout.tsx:73-101 | two filters in a row are one filter by the conjunction |
| Seqs.FilterSplit | gsoc-guide/src/components/OrganizationsLayout.tsx:130-131 | a filter and its complement split the list into parts that together are a permutation of it |
| Seqs.FilterNonEmpty | gsoc-guide/src/utils/proposals.ts:41 | a filter keeps something exactly when some element satisfies the predicate |
| Seqs.FilterKeepsDistinct | gsoc-guide/src/components/FilterBar.tsx:19 | filtering a duplicate-free list leaves it duplicate-free |
| Seqs.DedupContents | gsoc-guide/src/utils/github.ts:235 | `[...new Set(s)]` has no repeats and holds exactly the elements of `s` |
| Seqs.DedupPrefix | gsoc-guide/src/utils/github.ts:235 | de-duplication never reorders: the result for a prefix is a prefix of the result |
| Seqs.DedupDistinct | gsoc-guide/src/utils/github.ts:235 | a duplicate-free list is its own de-duplication |
| Rekey.LowerKeyedKeys | gsoc-guide/src/utils/orgData.ts:16-18 | the keys written are exactly the lower-cased names |
| Rekey.LowerKeyedLastWins | gsoc-guide/src/utils/orgData.ts:16-18 | under each key stands the value of the last entry with that lower-cased name |
| Rekey.LowerKeyedWitness | gsoc-guide/src/utils/organizations.ts:18-20 | every key has a last entry whose value it holds |
| Rekey.WriteLowerKeyed | gsoc-guide/src/utils/organizations.ts:18-20 | the `forEach` that writes `result[name.toLowerCase()]` builds exactly the last-write-wins map |
| Domain.PdfApiPathDeterminesParameters | gsoc-guide/src/utils/proposals.ts:27 | the `/api/pdf?org=…&file=…` path determines both encoded parameters when the encoded organization holds no `&` |
| GitHub.LocalOrganizations | gsoc-guide/src/utils/github.ts:33-44 | the names in the mirror's top directory, in listing order, or nothing when it is missing or cannot be read |
| GitHub.FindIgnoringCase | gsoc-guide/src/utils/github.ts:55-57 | `find` yields nothing exactly when no folder equals the input ignoring case, else the first such folder in listing order |
| GitHub.FindActualOrgFolderName | gsoc-guide/src/utils/github.ts:49-68 | the resolved folder is the first case-insensitive match in the local listing; an empty match is falsy, so an empty name resolves to nothing |
| GitHub.FindIgnoringCaseOnlyLower | gsoc-guide/src/utils/github.ts:55-57 | the search depends only on the lower-cased input |
| GitHub.ResolveIgnoresCase | gsoc-guide/src/utils/github.ts:55-57 | inputs that differ only in case resolve to the same folder |
| GitHub.ResolveIdempotent | gsoc-guide/src/utils/github.ts:55-57 | resolving an already resolved name returns it unchanged |
| GitHub.DirNames | gsoc-guide/src/utils/github.ts:96-98 | the names of exactly the `dir` entries |
| GitHub.DirNamesConcat | gsoc-guide/src/utils/github.ts:96-98 | the directory names keep listing order |
| GitHub.GitHubOrganizations | gsoc-guide/src/utils/github.ts:73-115 | the directory names when the request succeeds and lists a directory; the local listing on an empty list or any failure |
| GitHub.LocalPdfRecords | gsoc-guide/src/utils/github.ts:135-148 | one record per file whose lower-cased name ends in `.pdf` (and only those), in listing order: the i-th record is built from the i-th PDF, with the `/api/pdf` path, its size and an empty sha |
| GitHub.LocalProposals | gsoc-guide/src/utils/github.ts:120-156 | nothing when no local folder matches, it cannot be read, or `statSync` fails on one of its PDFs; otherwise the records of its PDFs under the folder's actual spelling; non-empty exactly when that folder holds a PDF whose sizes can all be read |
| GitHub.RemotePdfRecords | gsoc-guide/src/utils/github.ts:197-204 | one record per `file` entry whose lower-cased name ends in `.pdf`, in listing order: the i-th record is built from the i-th such entry, with the download URL or "" |
| GitHub.QueryFolder | gsoc-guide/src/utils/github.ts:164-171 | the request uses the resolved local spelling when there is one, else the caller's name verbatim |
| GitHub.ProposalsForGitHubOrganization | gsoc-guide/src/utils/github.ts:161-222 | a remote listing with a PDF is returned as is (and is non-empty); a 404, any other failure or a listing without PDFs falls back to the local proposals |
| GitHub.HasProposalsIff | gsoc-guide/src/utils/github.ts:183-221 | an organization has proposals exactly when the repository or the local mirror holds a PDF for it |
| GitHub.ProposalsIgnoreCaseWhenLocal | gsoc-guide/src/utils/github.ts:164-170 | when a local folder matches, every case variant of the name gets the same proposals |
| GitHub.OrganizationNames | gsoc-guide/src/utils/github.ts:231-235 | the union of remote and local names, without repeats |
| GitHub.Flags | gsoc-guide/src/utils/github.ts:242-245 | each name paired with whether its proposal list is non-empty |
| GitHub.FlagMapKeys | gsoc-guide/src/utils/github.ts:244 | every name has its lower-cased key in the map |
| GitHub.FlagMapValues | gsoc-guide/src/utils/github.ts:244 | every key holds the has-proposals flag of some name with that key |
| GitHub.FlagMapExactWhenLocal | gsoc-guide/src/utils/github.ts:244 | for a name with a local folder the value is its own flag, whatever the order of the writes |
| GitHub.AllOrganizationsWithGitHubProposals | gsoc-guide/src/utils/github.ts:228-254 | one key per lower-cased name of the union; each value is the flag of a name with that key, and exact for names with a local folder |
| LocalProposals.AvailableOrganizations | gsoc-guide/src/utils/proposals.ts:8-15 | the top directory listing, or nothing when it cannot be read |
| LocalProposals.ProposalsForOrganization | gsoc-guide/src/utils/proposals.ts:17-33 | nothing when the folder cannot be read; otherwise one record per name ending in exactly `.pdf`, in listing order, with the `/api/pdf` path and no size or sha; non-empty exactly when the folder holds such a file |
| LocalProposals.PdfFlagsPrefix | gsoc-guide/src/utils/proposals.ts:39-42 | one more folder processed adds one more flag at the end |
| LocalProposals.PdfFlagMapProperties | gsoc-guide/src/utils/proposals.ts:39-42 | the map built from the flags has one key per lower-cased folder name, and the last spelling of a key decides its flag |
| LocalProposals.WritePdfFlags | gsoc-guide/src/utils/proposals.ts:39-42 | the `forEach` builds exactly that last-write-wins map |
| LocalProposals.AllOrganizationsWithProposals | gsoc-guide/src/utils/proposals.ts:35-45 | key `lower(org)` for every listed folder; the last spelling of a key is true exactly when its folder holds a `.pdf` |
| OrgData.OrgProposalsData | gsoc-guide/src/utils/orgData.ts:12-21 | keys are the lower-cased names; each value is the unchanged value of the last entry with that key |
| OrgData.TotalFrom | gsoc-guide/src/utils/orgData.ts:24-27 | the `reduce` from any start adds the counts of the flagged entries to it |
| OrgData.TotalProposals | gsoc-guide/src/utils/orgData.ts:23-28 | the total is the sum of `proposalCount` over the entries with `hasProposals` |
| OrgData.TotalZeroWhenNoneFlagged | gsoc-guide/src/utils/orgData.ts:26 | entries without proposals contribute 0, so with none flagged the total is 0 |
| OrgData.OrganizationsWithProposals | gsoc-guide/src/utils/orgData.ts:30-34 | the lower-cased names of exactly the flagged entries, in entry order |
| Organizations.OrganizationsData | gsoc-guide/src/utils/organizations.ts:12-14 | the bundled data is returned unchanged |
| Organizations.OrganizationsWithProposals | gsoc-guide/src/utils/organizations.ts:16-22 | keys are the lower-cased names; each value is the unchanged value of the last entry with that key |
| Organizations.TotalProposals | gsoc-guide/src/utils/organizations.ts:24-26 | the stored `totalProposals` is returned as is |
| Organizations.TotalOrganizations | gsoc-guide/src/utils/organizations.ts:28-30 | the stored `totalOrganizations` is returned as is |
| Organizations.StoredTotalsNotRecomputed | gsoc-guide/src/utils/organizations.ts:24-30 | the total getters return stored numbers, which need not agree with the entries |
| OrgListing.MergeProposalFlags | gsoc-guide/src/components/OrganizationsLayout.tsx:33-36 | each organization is kept and its `hasProposals` is `proposalsData[lower(name)]`, false when absent |
| OrgListing.MergeIgnoresCase | gsoc-guide/src/components/SearchFiltersWrapper.tsx:32-35 | names that differ only in case get the same flag |
| OrgListing.AllTechnologiesMembers | gsoc-guide/src/components/OrganizationsLayout.tsx:46-48 | the technologies met by the loop are exactly those of some organization |
| OrgListing.AllTopicsMembers | gsoc-guide/src/components/OrganizationsLayout.tsx:46-48 | the topics met by the loop are exactly those of some organization |
| OrgListing.AddAll | gsoc-guide/src/components/OrganizationsLayout.tsx:47 | adding items one by one to a `Set` extends its insertion-ordered contents as de-duplication of everything added |
| OrgListing.CollectTechnologiesAndTopics | gsoc-guide/src/components/OrganizationsLayout.tsx:43-52 | the two lists are the de-duplicated technologies and topics in first-occurrence order |
| OrgListing.CollectedOnceEach | gsoc-guide/src/components/SearchFiltersWrapper.tsx:42-51 | every technology or topic of any organization appears, and exactly once |
| OrgListing.Matching | gsoc-guide/src/components/SearchFiltersWrapper.tsx:76-104 | an organization is kept exactly when it passes the query, technology, topic and proposals filters |
| OrgListing.MatchingNothingSelected | gsoc-guide/src/components/OrganizationsLayout.tsx:76-101 | with an empty query and no selection every organization is kept, in order |
| OrgListing.MatchingKeepsOrder | gsoc-guide/src/components/SearchFiltersWrapper.tsx:76-106 | the result keeps the listing's order |
| OrgListing.FilterOrganizations | gsoc-guide/src/components/OrganizationsLayout.tsx:73-101 | the step-by-step narrowing of `filtered`, with every inactive filter skipped, is exactly the conjunction of all filters |
| Sorting.ProjectCount | gsoc-guide/src/components/OrganizationsLayout.tsx:135 | `num_projects \|\| 0`: a missing and a zero count both count as 0; any other count is used as is |
| Sorting.InOrder | gsoc-guide/src/components/OrganizationsLayout.tsx:134-140 | the comparator returns at most 0; two organizations with the same name, or the same count, may come in either order |
| Sorting.InOrderTies | gsoc-guide/src/components/OrganizationsLayout.tsx:134-140 | the comparator returns 0 both ways exactly for the same name, or the same project count |
| Sorting.InOrderTotal | gsoc-guide/src/components/OrganizationsLayout.tsx:134-140 | either comparator relates every pair |
| Sorting.InOrderTransitive | gsoc-guide/src/components/OrganizationsLayout.tsx:134-140 | either comparator is transitive, including the descending project count where a missing count is 0 |
| Sorting.Insert | gsoc-guide/src/components/OrganizationsLayout.tsx:135-139 | inserting makes the group one longer and adds exactly that element to its members |
| Sorting.InsertSorted | gsoc-guide/src/components/OrganizationsLayout.tsx:135-139 | inserting into a sorted group keeps it sorted |
| Sorting.InsertPermutes | gsoc-guide/src/components/OrganizationsLayout.tsx:135-139 | inserting adds one occurrence of the element and changes no other count |
| Sorting.Sort | gsoc-guide/src/components/OrganizationsLayout.tsx:135-139 | `.sort` keeps the length and the members of the group |
| Sorting.SortSorted | gsoc-guide/src/components/OrganizationsLayout.tsx:135-139 | `.sort` returns the group in comparator order |
| Sorting.InsertKeepsTieOrder | gsoc-guide/src/components/OrganizationsLayout.tsx:135-139 | an inserted element goes ahead of every element tied with it, and the tied elements keep their order |
| Sorting.SortStable | gsoc-guide/src/components/OrganizationsLayout.tsx:135-139 | `.sort` is stable: elements the comparator ties come out in their input order |
| Sorting.SortPermutes | gsoc-guide/src/components/OrganizationsLayout.tsx:135-139 | `.sort` returns a permutation of the group |
| Sorting.JoinGroups | gsoc-guide/src/components/OrganizationsLayout.tsx:143 | two sorted groups joined with proposals first give a proposals-first, group-wise sorted list |
| Sorting.SortOrganizations | gsoc-guide/src/components/OrganizationsLayout.tsx:128-144 | every organization with proposals comes before every one without, and each group is sorted by the chosen key |
| Sorting.SortByProposalsAndName | gsoc-guide/src/components/OrganizationsLayout.tsx:115-126 | the proposals group comes first and each group is ascending by name |
| Sorting.SortOrganizationsPermutes | gsoc-guide/src/components/OrganizationsLayout.tsx:128-144 | `sortOrganizations` (and so the proposals-and-name sort) returns a permutation of its input |
| Sorting.SortOrganizationsStable | gsoc-guide/src/components/OrganizationsLayout.tsx:128-144 | organizations of one group with the same name, or the same project count, keep their input order |
| Sorting.SortOrganizationsSameElements | gsoc-guide/src/components/OrganizationsLayout.tsx:128-144 | sorting neither adds nor drops organizations |
| Sorting.DisplaySplitPartitions | gsoc-guide/src/components/OrganizationsLayout.tsx:157-158 | the two display groups partition the list, by multiset |
| Sorting.SplitOfJoined | gsoc-guide/src/components/OrganizationsLayout.tsx:157-158 | splitting a proposals-first join gives back its two groups |
| Sorting.DisplaySplitOfSorted | gsoc-guide/src/components/OrganizationsLayout.tsx:143-158 | splitting a sorted list and joining the groups gives the list back |
| Layout.ShownContents | gsoc-guide/src/components/OrganizationsLayout.tsx:73-105 | the shown list holds exactly the organizations passing all filters, proposals first, each group sorted |
| Layout.FilterThenSort | gsoc-guide/src/components/OrganizationsLayout.tsx:73-105 | the filter chain followed by the sort computes that list |
| Layout.OrganizationsLayout.constructor | gsoc-guide/src/components/OrganizationsLayout.tsx:11-19 | initial state: empty lists, loading, empty query, sort by name |
| Layout.OrganizationsLayout.LoadSucceeded | gsoc-guide/src/components/OrganizationsLayout.tsx:23-52 | organizations carry the merged flags; the list shown is the proposals-first name sort; the map, technologies and topics are stored; loading ends |
| Layout.OrganizationsLayout.StoreFetched | gsoc-guide/src/components/OrganizationsLayout.tsx:32-51 | the flagged organizations, their proposals-first name order, the map and the de-duplicated technologies and topics are stored |
| Layout.OrganizationsLayout.LoadFailed | gsoc-guide/src/components/OrganizationsLayout.tsx:53-60 | the error is set, both lists are emptied and loading ends |
| Layout.OrganizationsLayout.ApplyFilters | gsoc-guide/src/components/OrganizationsLayout.tsx:66-108 | the list shown becomes the filtered and sorted organizations, sorted with the sort key the memoized callback captured |
| Layout.OrganizationsLayout.SetSearchQuery | gsoc-guide/src/components/OrganizationsLayout.tsx:107-111 | the query is stored; a different query rebuilds the memoized `applyFilters`, which then sees the current sort option |
| Layout.OrganizationsLayout.HandleSearch | gsoc-guide/src/components/OrganizationsLayout.tsx:110-113 | the query is stored and applied with every other filter cleared |
| Layout.OrganizationsLayout.HandleFilterChange | gsoc-guide/src/components/OrganizationsLayout.tsx:146-148 | the reported selection is applied together with the current query |
| Layout.OrganizationsLayout.HandleSortChange | gsoc-guide/src/components/OrganizationsLayout.tsx:150-154 | the option is stored, but the list is re-sorted with the previous option |
| Layout.OrganizationsLayout.HandleSortChangeIntended | gsoc-guide/src/components/OrganizationsLayout.tsx:150-154 | the list is re-sorted with the chosen option |
| Layout.SortTwoWithoutProposals | gsoc-guide/src/components/OrganizationsLayout.tsx:128-144 | two organizations without proposals come out in comparator order |
| Layout.SortChangeKeepsPreviousOrder | gsoc-guide/src/components/OrganizationsLayout.tsx:150-153 | on a two-organization list, switching from name to project count leaves the list in name order although the project-count order differs |
| SearchFilters.SearchFiltersWrapper.constructor | gsoc-guide/src/components/SearchFiltersWrapper.tsx:11-18 | initial state: empty lists, loading, empty query |
| SearchFilters.SearchFiltersWrapper.LoadSucceeded | gsoc-guide/src/components/SearchFiltersWrapper.tsx:23-51 | organizations carry the merged flags and are shown unsorted; the map, technologies and topics are stored; loading ends |
| SearchFilters.SearchFiltersWrapper.LoadFailed | gsoc-guide/src/components/SearchFiltersWrapper.tsx:52-59 | the error is set, both lists are emptied and loading ends |
| SearchFilters.SearchFiltersWrapper.ApplyFilters | gsoc-guide/src/components/SearchFiltersWrapper.tsx:70-107 | the list shown becomes the matching organizations in their original order |
| SearchFilters.SearchFiltersWrapper.HandleSearch | gsoc-guide/src/components/SearchFiltersWrapper.tsx:65-68 | the query is stored and applied with every other filter cleared |
| SearchFilters.SearchFiltersWrapper.HandleFilterChange | gsoc-guide/src/components/SearchFiltersWrapper.tsx:109-111 | the reported selection is applied together with the current query |
| SearchFilters.SearchResetsFilters | gsoc-guide/src/components/SearchFiltersWrapper.tsx:65-68 | after a search an organization is shown exactly when it matches the query, and an empty query shows all |
| FilterPanel.Toggle | gsoc-guide/src/components/FilterBar.tsx:18-20 | a selected item is removed with all its occurrences and nothing else is touched; an unselected one is appended at the end |
| FilterPanel.ToggleTwice | gsoc-guide/src/components/FilterBar.tsx:18-20 | toggling an unselected item twice restores the selection |
| FilterPanel.DeselectKeepsOrder | gsoc-guide/src/components/FilterBar.tsx:19 | deselecting keeps the relative order of the other selections |
| FilterPanel.ToggleKeepsDistinct | gsoc-guide/src/components/FilterBar.tsx:18-20 | a selection without repeats keeps none |
| FilterPanel.OfferedItems | gsoc-guide/src/components/FilterBar.tsx:97 | the first ten items are offered, or all when fewer |
| FilterPanel.FilterBar.constructor | gsoc-guide/src/components/FilterBar.tsx:12-14 | nothing is selected and "Clear all" is hidden |
| FilterPanel.FilterBar.ClearAllShown | gsoc-guide/src/components/FilterBar.tsx:68 | "Clear all" shows exactly when the panel would report something other than an empty selection |
| FilterPanel.FilterBar.HandleTechChange | gsoc-guide/src/components/FilterBar.tsx:16-30 | the technology selection is toggled and reported with the unchanged topics and proposals flag; the report never lists an item twice |
| FilterPanel.FilterBar.HandleTopicChange | gsoc-guide/src/components/FilterBar.tsx:32-46 | the topic selection is toggled and reported with the unchanged technologies and proposals flag; the report never lists an item twice |
| FilterPanel.FilterBar.HandleProposalsChange | gsoc-guide/src/components/FilterBar.tsx:48-55 | the checkbox value is stored and reported with both selections, which never list an item twice |
| FilterPanel.FilterBar.ClearFilters | gsoc-guide/src/components/FilterBar.tsx:57-62 | everything is cleared, exactly that is reported, and "Clear all" hides |
| Pager.PdfViewer.constructor | gsoc-guide/src/components/PDFViewer.tsx:20-23 | no page count, page 1, loading, both buttons disabled |
| Pager.PdfViewer.NavigationShown | gsoc-guide/src/components/PDFViewer.tsx:100 | the navigation shows only once a non-empty document has loaded, and its "Page x of n" names one of its pages |
| Pager.PdfViewer.PreviousDisabled | gsoc-guide/src/components/PDFViewer.tsx:103 | "Previous" is disabled exactly on the first page |
| Pager.PdfViewer.NextDisabled | gsoc-guide/src/components/PDFViewer.tsx:115 | "Next" is disabled before a non-empty document has loaded, and then exactly on its last page |
| Pager.PdfViewer.OnDocumentLoadSuccess | gsoc-guide/src/components/PDFViewer.tsx:25-29 | the page count is stored, page 1 is shown, loading ends; "Next" is enabled exactly when there are two pages or more |
| Pager.PdfViewer.OnDocumentLoadError | gsoc-guide/src/components/PDFViewer.tsx:31-34 | the error is set and loading ends; the page stays in bounds |
| Pager.PdfViewer.PreviousPage | gsoc-guide/src/components/PDFViewer.tsx:40-44 | one page back exactly when "Previous" is enabled, else nothing; the page stays in bounds |
| Pager.PdfViewer.NextPage | gsoc-guide/src/components/PDFViewer.tsx:46-50 | one page on exactly when "Next" is enabled, else nothing; the page stays in bounds |
| Pager.PdfViewer.NextBeforeLoadDoesNothing | gsoc-guide/src/components/PDFViewer.tsx:47 | before a load "Next" is disabled and the navigation is hidden |
| NativeViewer.OptimizedFileUrl | gsoc-guide/src/components/NativePDFViewer.tsx:55-63 | a GitHub-hosted URL becomes the embedded-viewer address, from which exactly the encoded URL reads back; any other URL is unchanged |
| NativeViewer.GoogleViewerUrl | gsoc-guide/src/components/NativePDFViewer.tsx:66-68 | the fallback link is the standalone viewer's address followed by exactly the encoded URL, for every host |
| NativeViewer.NativePdfViewer.constructor | gsoc-guide/src/components/NativePDFViewer.tsx:11-13 | the iframe and the spinner show |
| NativeViewer.NativePdfViewer.SpinnerShown | gsoc-guide/src/components/NativePDFViewer.tsx:98-102 | the spinner shows exactly while loading, and only over the iframe |
| NativeViewer.NativePdfViewer.IframeShown | gsoc-guide/src/components/NativePDFViewer.tsx:104-114 | the iframe shows exactly until it is given up |
| NativeViewer.NativePdfViewer.FallbackShown | gsoc-guide/src/components/NativePDFViewer.tsx:115-116 | the fallback panel shows exactly once the iframe is given up |
| NativeViewer.NativePdfViewer.ExactlyOnePanel | gsoc-guide/src/components/NativePDFViewer.tsx:104-116 | exactly one of the iframe and the fallback panel is rendered |
| NativeViewer.NativePdfViewer.HandleIframeLoad | gsoc-guide/src/components/NativePDFViewer.tsx:42-44 | only `loading` changes, and the spinner hides |
| NativeViewer.NativePdfViewer.HandleIframeError | gsoc-guide/src/components/NativePDFViewer.tsx:46-51 | error set, loading ended, iframe given up; the fallback shows |
| NativeViewer.NativePdfViewer.Timeout | gsoc-guide/src/components/NativePDFViewer.tsx:30-36 | if still loading, the iframe is given up for the fallback and loading ends; otherwise nothing changes |

## Left out

- File system and network reads are not modelled. Their results are inputs:
  `fs.existsSync`, `fs.readdirSync` and `fs.statSync`, `fetch` with its
  status and JSON body, and `fetchFromGitHub`. A missing path and a read
  error are both `Unavailable`, because the code treats them alike. A
  file whose `statSync` throws has no size, and one such PDF makes the
  whole local lookup return nothing, as the surrounding `catch` does.
- `encodeURIComponent` is an uninterpreted parameter. `toLowerCase` is
  ASCII lower-casing only.
- `localeCompare` is locale-dependent. It is modelled as lexicographic
  order on character codes, which is a total order, as the sort needs.
- JavaScript numbers are unbounded integers. The project-count comparator
  `(b.num_projects || 0) - (a.num_projects || 0)` is modelled as the
  ordering it induces. NaN and fractions are not modelled.
- `Array.prototype.sort` is modelled on values, as a stable insertion sort.
  The in-place update and the engine's own algorithm are not modelled.
- Plain objects used as dictionaries are modelled as maps that start
  empty. The inherited `constructor` key and the special `__proto__` key
  of a JavaScript object are not modelled. So the contracts of
  Rekey.LowerKeyedKeys, GitHub.AllOrganizationsWithGitHubProposals,
  LocalProposals.AllOrganizationsWithProposals, OrgData.OrgProposalsData,
  Organizations.OrganizationsWithProposals and OrgListing.MergeProposalFlags
  do not cover an organization whose name lower-cases to `constructor` or
  `__proto__`.
- `Object.entries` visits integer-like keys first. The static tables are
  modelled as entry sequences in the order the runtime visits them.
- GitHub.AllOrganizationsWithGitHubProposals: the `Promise.all` fan-out is
  modelled as sequential writes. Case variants of a name race for the same
  key, so for a name without a local folder the contract promises only the
  flag of one of its case variants.
- The outer `catch` that returns `{}` in `getAllOrganizationsWithGitHubProposals`
  is not modelled. Every error below it is already caught, so no input
  reaches it.
- `path.join` normalisation is not modelled: a folder name such as `..`
  is looked up as given.
- Rendering, the spinner's and banner's markup, `console` logging,
  `window.location.reload` and the user-agent check of the native viewer
  are not modelled.
- The five-second timer of the native viewer is a `Timeout` event, and
  clearing the timer is not modelled. Both viewers' loading callbacks are
  events too.
- React's batching, Strict Mode double invocation of state updaters, and
  the order of re-renders are not modelled. Each handler is one atomic step.

## Findings

| source | as written | input that shows it | evidently intended | confidence | as-written member | corrected member |
|---|---|---|---|---|---|---|
| gsoc-guide/src/components/OrganizationsLayout.tsx:150-153 | `handleSortChange` calls `sortOrganizations`, which reads the `sortBy` of the current render, before the new option takes effect, so the list is re-sorted with the previous option | list `[a, b]` with `a` named "a" with 1 project and `b` named "b" with 2, neither with proposals, sort switched from name to project count: the list stays `[a, b]` instead of `[b, a]` | re-sort with the option just chosen | not executed | Layout.OrganizationsLayout.HandleSortChange, Layout.SortChangeKeepsPreviousOrder | Layout.OrganizationsLayout.HandleSortChangeIntended |

The same closure affects `applyFilters` (line 107). Its dependency list omits
`sortBy`, so it sorts with the option in force when the organizations or
the query last changed. `Layout.OrganizationsLayout` keeps that captured
option in the field `filterSortBy`. `HandleSearch`, `HandleFilterChange`
and `ApplyFilters` are stated with it.
