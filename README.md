# IEC Satbayev website: verified model of its deterministic logic

The site of the Satbayev University laboratory centre is a static Next.js
site. Its pages are mostly JSX over JSON content. Beneath them sit a few
pieces of deterministic logic, and this project models them in Dafny and
proves what they promise:

- the team org chart: the lab filter, the three-level cap of the simple
  chart, lab colours, node layout, reports-to edges, direct reports, and
  the hover and highlight state;
- heading slugs, heading extraction, slug lookup and the excerpt fallback
  of the news pages;
- the rules of the publications table: "see more" paging, the DOI link
  text, author links and separators, and type labels;
- the query parameters of the team page's view toggle and lab filter;
- the path rewriting of the language switcher;
- the localisation projections applied to the JSON content, gallery paths,
  and the newest-first news order;
- video detection, media normalisation and the open, closed and key state
  of the gallery carousel;
- YouTube id extraction, item rendering and page dots of the in-page
  carousel;
- the redirect from the site root to the browser's language.

There is one module per source file:

| module | source file |
|---|---|
| `TeamChart` | src/components/team-chart.tsx |
| `NewsUtils` | src/lib/news/utils.ts |
| `PublicationsTable` | src/components/publications-table.tsx |
| `TeamPageClientView` | src/components/team-page-client-view.tsx |
| `LanguageSwitcher` | src/components/language-switcher.tsx |
| `ServerUtils` | src/lib/server-utils.ts |
| `ImageCarousel` | src/components/image-carousel.tsx |
| `InPlaceCarousel` | src/components/in-place-carousel.tsx |
| `HomePage` | src/app/page.tsx |

Two further modules hold shared definitions:

- `SiteTypes` holds the records of src/lib/types.ts.
- `JsCore` holds the JavaScript behaviour the others rely on:
  - truthiness of optional strings;
  - ASCII case mapping;
  - `includes`, `split` and `join`;
  - the white-space and line-terminator classes of ECMAScript regular
    expressions;
  - `filter` and `flat`.

How side effects appear in the model:

- Navigation (`router.push`, `redirect`) is a function or method that
  returns the target path.
- File reads are parameters. The JSON reads that the source catches give `None` on failure.
- Parsed JSON is a dynamic `Value`. It has `undefined`, `null`, arrays and
  objects with ordered fields. Reading a property of `null` or `undefined`
  yields `TypeError`, as JavaScript does.

The state the components change in place is modelled as classes whose
methods change fields:

- the advanced chart's nodes, edges, hovered element and highlighted lab;
- the gallery's open flag and index;
- the in-page carousel's index;
- the publications table's visible row count;
- the `URLSearchParams` copy of the team page.

The loops of the source are methods with loop invariants, proved against
the functions that specify them:

- `findDirectReports`;
- the grouping of members by level;
- the node and edge construction of the chart's effect.

## Model

| member | source | states |
|---|---|---|
| TeamChart.ShouldUseAdvancedChart | src/components/team-chart.tsx:35 | a lab filter never chooses the advanced chart; without one the choice is the caller's flag |
| TeamChart.LangOfPath | src/components/team-chart.tsx:67 | the language taken from the path is a non-empty segment without `/`, and `kk` without a path |
| TeamChart.LangOfPathOf | src/components/team-chart.tsx:67 | on a page `/<lang>/<rest>` the language is `<lang>` |
| TeamChart.MemberClickTarget | src/components/team-chart.tsx:84-88 | a click navigates exactly when the member has a lab, to `/<lang>/labs/<labId>` |
| TeamChart.FilterLevelsShape | src/components/team-chart.tsx:70-76 | under a lab filter no level is empty and every member belongs to the lab |
| TeamChart.FilterLevelsFlatten | src/components/team-chart.tsx:70-76 | under a lab filter, the members read level by level are exactly the lab's members of the original data, in their original order |
| TeamChart.FilteredTeamDataUnfiltered | src/components/team-chart.tsx:71 | without a lab filter the data is returned unchanged |
| TeamChart.VisibleTeamData | src/components/team-chart.tsx:79-81 | all filtered levels under a lab filter; otherwise the first min(3, n) levels, always a prefix of the filtered data |
| TeamChart.SimpleChartIsEmpty | src/components/team-chart.tsx:307 | "no team members" is shown exactly when no member passes the lab filter |
| TeamChart.FilteredMembersEmpty | src/components/team-chart.tsx:90 | the filtered data of the simple chart is empty exactly when no member passes the lab filter |
| TeamChart.InsertSorted | src/components/team-chart.tsx:150 | adding a lab id to a sorted id list keeps it strictly sorted with the same elements plus the new one |
| TeamChart.SortedLabIds | src/components/team-chart.tsx:150 | the distinct non-empty lab ids, strictly sorted in string order |
| TeamChart.StrLessTotal | src/components/team-chart.tsx:150 | the string order of the sort is total (with irreflexivity and transitivity it is a strict total order) |
| TeamChart.IndexOf | src/components/team-chart.tsx:151 | the first position holding the id, and -1 exactly when the id is missing |
| TeamChart.LabRankIsIndex | src/components/team-chart.tsx:150-151 | a present lab's index in the sorted list is the number of distinct labs that sort before it |
| TeamChart.GetLabColor | src/components/team-chart.tsx:146-155 | grey `#777777` without a lab; otherwise the palette colour at the lab's rank modulo 10 |
| TeamChart.LabColorAt | src/components/team-chart.tsx:150-154 | a present lab's colour is the palette entry at its position in the sorted lab list |
| TeamChart.DistinctLabsDistinctColors | src/components/team-chart.tsx:146-155 | with at most ten labs on the chart, different labs get different colours |
| TeamChart.LabColorsDistinct | src/components/team-chart.tsx:132-143 | the ten palette colours are pairwise different |
| TeamChart.LabIdsOf | src/components/team-chart.tsx:185 | one entry per member: the i-th entry is the i-th member's lab id |
| TeamChart.GroupByLevel | src/components/team-chart.tsx:188-192 | the groups are keyed by exactly the levels present, and each group holds that level's members in list order |
| TeamChart.SortedLevels | src/components/team-chart.tsx:196 | the distinct levels present, in strictly ascending numeric order |
| TeamChart.NodePosition | src/components/team-chart.tsx:199-212 | the i-th of n members on level index k sits at x = -95n + 80 + 190i, y = 350k |
| TeamChart.BuildNodes | src/components/team-chart.tsx:195-232 | the node loop builds the layout function's node list |
| TeamChart.AppendRow | src/components/team-chart.tsx:204-231 | one level's members are placed left to right after the nodes already built, each at its position in the row |
| TeamChart.LayoutMembers | src/components/team-chart.tsx:198-232 | exactly one node per visible member: the nodes' members are the visible members as a multiset |
| TeamChart.LayoutPlacement | src/components/team-chart.tsx:198-212 | every node is a visible member's, with its id, at the position of its index within its level's row, with its lab colour, hovered exactly when it is the hovered id, highlighted exactly when its lab is highlighted |
| TeamChart.LevelsOrderRows | src/components/team-chart.tsx:196-212 | a lower level is drawn higher, and two nodes share a row exactly when their members share a level |
| TeamChart.RowIndexOf | src/components/team-chart.tsx:196-212 | a node's row is the index of its member's level among the sorted levels |
| TeamChart.EdgeFor | src/components/team-chart.tsx:238-258 | edge id `<id>-<reportsTo>`, source the member, target the manager, the lab colour of the member; width 2 when the lab is highlighted or the edge hovered and 1 otherwise; stroke the lab colour at width 2 and `#cccccc` at width 1 |
| TeamChart.BuildEdges | src/components/team-chart.tsx:235-260 | the edge loop builds the edge function's edge list |
| TeamChart.EdgesSpec | src/components/team-chart.tsx:236-246 | an edge exists for a member exactly when the member names a manager who is on the chart, and each edge carries that member's id, ends, lab colour, width and stroke |
| TeamChart.EdgesUpToComplete | src/components/team-chart.tsx:236-246 | after the first k members, every one of them whose manager is on the chart has its edge in the list |
| TeamChart.EdgesUpToSound | src/components/team-chart.tsx:236-246 | after the first k members, every edge in the list is the edge of one of them whose manager is on the chart |
| TeamChart.EdgeDrawnFor | src/components/team-chart.tsx:236-258 | every edge the loop draws is exactly the edge built for a member whose manager is on the chart |
| TeamChart.FindDirectReports | src/components/team-chart.tsx:482-493 | the nested loops return the members reporting to the manager, in level-then-position order |
| TeamChart.DirectReportsSpec | src/components/team-chart.tsx:482-493 | the result holds exactly the members whose `reportsTo` is the manager, and is a subsequence of the flattened data |
| TeamChart.AdvancedChart.Refresh | src/components/team-chart.tsx:174-264 | the effect sets nodes and edges to the layout and edges of the visible members; with none visible it keeps the old ones; hover state is unchanged |
| TeamChart.AdvancedChart.OnNodeMouseEnter | src/components/team-chart.tsx:267-273 | hovers the node; highlights the member's lab only when the member has one |
| TeamChart.AdvancedChart.OnNodeMouseLeave | src/components/team-chart.tsx:275-278 | clears the hover and the highlight |
| TeamChart.AdvancedChart.OnEdgeMouseEnter | src/components/team-chart.tsx:281-292 | hovers the edge; highlights the lab of the first node with the edge's source id, when it exists and has a lab |
| TeamChart.AdvancedChart.OnEdgeMouseLeave | src/components/team-chart.tsx:294-297 | clears the hover and the highlight |
| TeamChart.FindNode | src/components/team-chart.tsx:285 | the first node with the id, none exactly when no node has it |
| NewsUtils.HeadingToUrl | src/lib/news/utils.ts:25 | the slug is made of `[a-z0-9-]` only and is never longer than the heading |
| NewsUtils.HeadingToUrlSpace | src/lib/news/utils.ts:25 | every space of the heading becomes a hyphen between the slugs of the text around it |
| NewsUtils.HeadingToUrlAppend | src/lib/news/utils.ts:25 | the slug of a concatenation is the concatenation of the slugs |
| NewsUtils.HeadingToUrlFixpoint | src/lib/news/utils.ts:25 | a text is its own slug exactly when it is made of `[a-z0-9-]` |
| NewsUtils.HeadingToUrlIdempotent | src/lib/news/utils.ts:25 | slugging a slug changes nothing |
| NewsUtils.TagMatch | src/lib/news/utils.ts:29 | a line matches the tag pattern exactly when an opening tag precedes a closing tag, and the match is the span from the first opening tag to the end of the last closing tag |
| NewsUtils.MdMarker | src/lib/news/utils.ts:30 | the Markdown marker: spaces, one to four hashes and a space, or none when the pattern cannot hold |
| NewsUtils.MarkerDetermined | src/lib/news/utils.ts:34 | any way the marker pattern holds uses the leading run of spaces and the following run of hashes |
| NewsUtils.MdMatch | src/lib/news/utils.ts:30 | a line matches the Markdown pattern exactly when its marker holds, and the match is the whole line |
| NewsUtils.ParseHeadings | src/lib/news/utils.ts:28-37 | every heading has non-empty text, a level from 0 to 8, and the slug of its text as anchor |
| NewsUtils.TagHeadingsFirst | src/lib/news/utils.ts:31 | all tag-style headings precede all Markdown-style headings |
| NewsUtils.TagHeadingLevel | src/lib/news/utils.ts:34-36 | a tag heading `<hd>` gets level d - 1 |
| NewsUtils.MdHeadingLevel | src/lib/news/utils.ts:30-36 | a Markdown heading with k hashes (1 to 4) is matched whole and gets level k - 1 |
| NewsUtils.MdHeadingParsed | src/lib/news/utils.ts:28-37 | a line of spaces, k hashes (1 to 4), a space and a title (visible at both ends, on one line, without `<`) yields exactly one heading: level k - 1, the title as text, its slug as anchor |
| NewsUtils.TagHeadingParsed | src/lib/news/utils.ts:28-37 | a line `<hd>title</hd>` with a digit d from 1 and such a title yields exactly one heading: level d - 1, the title as text, its slug as anchor |
| NewsUtils.FindBySlug | src/lib/news/utils.ts:9 | the first entry with the slug; none exactly when no entry has it |
| NewsUtils.CollapseWhitespace | src/lib/news/utils.ts:20 | no two white-space characters in a row, every one a space, never longer than the input, white space at the start exactly when the input has it, and a text without white space unchanged |
| NewsUtils.CollapseKeepsText | src/lib/news/utils.ts:20 | outside white space, collapsing keeps every character in order |
| NewsUtils.CollapseRun | src/lib/news/utils.ts:20 | a white-space run between visible characters becomes exactly one space, with each side collapsed on its own |
| NewsUtils.Excerpt | src/lib/news/utils.ts:17-21 | a present, non-empty excerpt is kept; otherwise the first 160 characters of the body with white-space runs collapsed |
| NewsUtils.GetNewsEntry | src/lib/news/utils.ts:8-22 | none for an unknown slug or when the first entry with the slug has no content path; otherwise the page of that first entry, read from its content path, with the excerpt filled in |
| PublicationsTable.Table.constructor | src/components/publications-table.tsx:25 | the table starts with three visible rows |
| PublicationsTable.NextVisibleRows | src/components/publications-table.tsx:31 | min(prev + 10, total): at most the total and at most ten more, equal to one of them, and more than prev while prev is below the total |
| PublicationsTable.SeeMoreTerminates | src/components/publications-table.tsx:150 | while "see more" is shown a press reveals more rows, and the control disappears once the rows run out |
| PublicationsTable.Table.HandleSeeMore | src/components/publications-table.tsx:27-33 | redirect mode targets `/<lang>/publications` and keeps the rows; scroll mode sets the rows to min(rows + 10, total) and does not navigate |
| PublicationsTable.RenderedRows | src/components/publications-table.tsx:104-113 | the first min(visibleRows, total) publications, numbered from 1 in order |
| PublicationsTable.DoiPrefixAt | src/components/publications-table.tsx:39 | 16 exactly when `https://doi.org/` starts at the position, 15 exactly when `http://doi.org/` does, 0 otherwise |
| PublicationsTable.DoiGroup | src/components/publications-table.tsx:39 | the lazy group takes the rest without one trailing slash, and needs a non-empty rest without line breaks |
| PublicationsTable.DoiMatchFrom | src/components/publications-table.tsx:39 | the leftmost match of the DOI pattern, none exactly when no position matches |
| PublicationsTable.FormatDoiLink | src/components/publications-table.tsx:35-47 | empty for a missing link; `DOI: <ref>` for a doi.org link; the link itself otherwise |
| PublicationsTable.DoiLinkShown | src/components/publications-table.tsx:39-42 | a doi.org address shows as `DOI: <ref>` with one trailing slash removed |
| PublicationsTable.NonDoiLinkUnchanged | src/components/publications-table.tsx:46 | a link without a doi.org prefix is shown as it is |
| PublicationsTable.AuthorHref | src/components/publications-table.tsx:53-84 | a lab links to its lab page, before an id which links to the team page; neither gives plain text |
| PublicationsTable.RenderAuthors | src/components/publications-table.tsx:49-51 | one view per author with its name and link; `, ` after every author but the last |
| PublicationsTable.AuthorsTextIsJoin | src/components/publications-table.tsx:119-121 | the author cell reads as the names joined by `, ` |
| PublicationsTable.TypeLabel | src/components/publications-table.tsx:124 | `National` shows the localised text, other types their own name |
| TeamPageClientView.FirstNamed | src/components/team-page-client-view.tsx:24 | the first position of a pair with the name, or the length when no pair has it |
| TeamPageClientView.GetParam | src/components/team-page-client-view.tsx:24 | the value of the first pair with the name, none exactly when no pair has it |
| TeamPageClientView.SetParam | src/components/team-page-client-view.tsx:33 | the pairs before the name's first position are kept, that position holds the new value (appended when the name was absent), no later pair has the name, and the pairs of other names are as before |
| TeamPageClientView.DeleteParam | src/components/team-page-client-view.tsx:31 | after `delete` no pair has the name, and the others are kept |
| TeamPageClientView.SetKeepsOthers | src/components/team-page-client-view.tsx:33 | `set` keeps the pairs of every other name in order |
| TeamPageClientView.DeleteKeepsOthers | src/components/team-page-client-view.tsx:31 | `delete` keeps the pairs of every other name in order |
| TeamPageClientView.GetAfterSet | src/components/team-page-client-view.tsx:33 | reading a name after setting it gives the value set |
| TeamPageClientView.SearchParams.Set | src/components/team-page-client-view.tsx:33 | the pairs become those `set` specifies |
| TeamPageClientView.SearchParams.Delete | src/components/team-page-client-view.tsx:31 | the pairs become those `delete` specifies |
| TeamPageClientView.ToggleSpec | src/components/team-page-client-view.tsx:28-37 | toggling removes `advanced` in the advanced view, sets it to `true` otherwise, and keeps every other parameter, `labId` included |
| TeamPageClientView.ToggleAdvancedView | src/components/team-page-client-view.tsx:27-38 | the navigation target is the path and the toggled query |
| TeamPageClientView.LabFilterSpec | src/components/team-page-client-view.tsx:41-54 | choosing a lab sets `labId` and removes `advanced`; clearing removes `labId` and keeps `advanced`; other parameters are kept |
| TeamPageClientView.HandleLabFilter | src/components/team-page-client-view.tsx:41-54 | the navigation target is the path and the filtered query |
| TeamPageClientView.SelectedLab | src/components/team-page-client-view.tsx:60 | the empty option stands for clearing the lab |
| TeamPageClientView.ToggleButtonShown | src/components/team-page-client-view.tsx:72 | the toggle is shown exactly when no lab is selected |
| TeamPageClientView.ToggleButtonLabel | src/components/team-page-client-view.tsx:77 | the toggle offers the view that is not current |
| LanguageSwitcher.NewPath | src/components/language-switcher.tsx:37-38 | `/<lang>`, then `/<rest>` only for a non-empty rest, then `?<query>` only for a non-empty query, and nothing else: the length is the sum of those parts |
| LanguageSwitcher.Targets | src/components/language-switcher.tsx:35-38 | three targets, for `kk`, `ru`, `en` in that order, each carrying the same preserved path and query |
| LanguageSwitcher.PathWithoutLangOf | src/components/language-switcher.tsx:27-29 | on `/<lang>/<rest>` the preserved path is `<rest>` |
| LanguageSwitcher.BareLanguageTargets | src/components/language-switcher.tsx:37 | a bare language page links to `/kk`, `/ru`, `/en` with no trailing slash |
| LanguageSwitcher.SwitchKeepsPage | src/components/language-switcher.tsx:27-37 | following a link keeps the page: the target's preserved path is the current one's |
| LanguageSwitcher.Label | src/components/language-switcher.tsx:42 | `KZ` for Kazakh, the upper-cased code otherwise |
| LanguageSwitcher.Labels | src/components/language-switcher.tsx:42 | the labels are `KZ`, `RU` and `EN` |
| ServerUtils.FirstField | src/lib/server-utils.ts:40 | the first position of a field with the key, or the length when no field has it |
| ServerUtils.Lookup | src/lib/server-utils.ts:40 | the value of the first field with the key, `undefined` when no field has it |
| ServerUtils.Prop | src/lib/server-utils.ts:40 | a property read throws exactly on `null` and `undefined`; on an object it is the first field with the key |
| ServerUtils.Entries | src/lib/server-utils.ts:37 | `Object.entries` throws exactly on `null` and `undefined` |
| ServerUtils.SetField | src/lib/server-utils.ts:63-65 | after the spread the key reads the new value and every other key reads as before |
| ServerUtils.SetFieldKeyOrder | src/lib/server-utils.ts:63-65 | the spread keeps the field order, adding a new key last |
| ServerUtils.MapAll | src/lib/server-utils.ts:62 | `map` succeeds exactly when every element does, with the results in order |
| ServerUtils.KeysAreLanguages | src/lib/server-utils.ts:39 | the key test throws on `null`; on an object it holds exactly when every key is a language |
| ServerUtils.LocalizedField | src/lib/server-utils.ts:38-43 | a field keeps its key; a non-object is kept; an object keyed only by languages becomes its `hl` entry; other objects are kept; `null` throws |
| ServerUtils.LocalizedLab | src/lib/server-utils.ts:38-44 | a lab keeps its fields in order, each localised |
| ServerUtils.LabsProjection | src/lib/server-utils.ts:37-45 | the labs keep their ids in order, each lab localised |
| ServerUtils.GetLabsData | src/lib/server-utils.ts:32-50 | the projection of the parsed labs, or `{}` when the read or the projection fails |
| ServerUtils.EmptyFieldBecomesUndefined | src/lib/server-utils.ts:39-40 | an empty object or empty array passes the key test vacuously and becomes `undefined` |
| ServerUtils.ArrayFieldKept | src/lib/server-utils.ts:39-42 | a non-empty array is kept as it is |
| ServerUtils.NullFieldEmptiesLabs | src/lib/server-utils.ts:46-49 | a `null` field makes the projection throw, so the labs come out empty |
| ServerUtils.LocalizedRecord | src/lib/server-utils.ts:62-66 | the two named fields become their `hl` entries, every other field is unchanged, and it throws exactly when a read does |
| ServerUtils.LocalizedTier | src/lib/server-utils.ts:62 | a tier keeps its members in order, each localised |
| ServerUtils.TeamProjection | src/lib/server-utils.ts:62-66 | the tiers keep their number and order, each tier localised |
| ServerUtils.TeamMemberProjected | src/lib/server-utils.ts:62-66 | a projected member has `name` and `position` from `hl` and every other field unchanged |
| ServerUtils.LocalizedPartners | src/lib/server-utils.ts:89-93 | a partner list keeps its length and order, with `name` and `location` localised |
| ServerUtils.PartnersProjection | src/lib/server-utils.ts:88-99 | both partner lists are projected, and the result has exactly those two lists |
| ServerUtils.StringsProjection | src/lib/server-utils.ts:74-76 | the same keys in the same order, each value its `hl` entry; on an object it throws exactly when some value is `null` or `undefined` |
| ServerUtils.GalleryPaths | src/lib/server-utils.ts:20-29 | each file as `/gallery/<file>` in order; a failed read gives no paths |
| ServerUtils.InsertByDate | src/lib/server-utils.ts:105 | inserting keeps the list newest first and adds exactly one entry |
| ServerUtils.SortByDate | src/lib/server-utils.ts:105 | the entries newest first, as a permutation of the input |
| ServerUtils.SortByDateStable | src/lib/server-utils.ts:105 | the sort is stable: entries with the same date keep their order |
| ServerUtils.GetNewsDataAsWritten | src/lib/server-utils.ts:103-105 | a failed read throws a `TypeError`; otherwise the entries sorted newest first |
| ServerUtils.GetNewsData | src/lib/server-utils.ts:103-105 | the entries newest first, a permutation of those read, and none after a failed read |
| ServerUtils.NewsReadFailureThrows | src/lib/server-utils.ts:16 | on a failed read the code as written throws where an empty list was evidently intended |
| ImageCarousel.IsVideoFile | src/components/image-carousel.tsx:21-24 | a video exactly when the lower-cased address contains a video extension anywhere |
| ImageCarousel.VideoDetectionIgnoresCase | src/components/image-carousel.tsx:23 | an address and its upper-cased form are classified alike |
| ImageCarousel.VideoExtensionAnywhere | src/components/image-carousel.tsx:23 | an extension in the middle of an address, before a query say, still marks a video |
| ImageCarousel.ItemsOf | src/components/image-carousel.tsx:64 | an array is used as it is; anything else is wrapped in a one-element array |
| ImageCarousel.MediaArray | src/components/image-carousel.tsx:61-64 | the items of `media` when it is truthy, of `images` otherwise; empty only for an empty array |
| ImageCarousel.MediaPreferred | src/components/image-carousel.tsx:61 | a truthy `media` hides `images`; without either there is one empty item |
| ImageCarousel.RenderMediaItem | src/components/image-carousel.tsx:27-51 | a missing or empty address renders a placeholder, a video file a video, anything else an image with the alt text |
| ImageCarousel.Lightbox.Open | src/components/image-carousel.tsx:66-70 | opens at the clicked index |
| ImageCarousel.Lightbox.Close | src/components/image-carousel.tsx:72-75 | closes and keeps the index |
| ImageCarousel.Lightbox.Select | src/components/image-carousel.tsx:117-119 | the index follows the carousel's selected item |
| ImageCarousel.Lightbox.HandleKey | src/components/image-carousel.tsx:86-104 | keys are ignored while closed; Escape closes; the arrows ask for the previous or next item; other keys do nothing |
| ImageCarousel.Lightbox.Counter | src/components/image-carousel.tsx:172 | `currentIndex + 1` over the item count, within bounds while the state is valid |
| ImageCarousel.OpenScrollClose | src/components/image-carousel.tsx:66-126 | a session of open, scroll and close keeps the counter in bounds and ends closed at the scrolled position |
| InPlaceCarousel.MarkerLength | src/components/in-place-carousel.tsx:9 | the length of the id marker at a position (`youtu?be/`, `v/`, `u/<w>/`, `embed/`, `watch?v=`, `&v=`): non-zero exactly when one of them starts there, and then its length, over characters that are not line terminators |
| InPlaceCarousel.MarkerUnique | src/components/in-place-carousel.tsx:9 | at most one marker length fits at a position, since the alternatives start with different letters |
| InPlaceCarousel.LastMarker | src/components/in-place-carousel.tsx:9 | the rightmost marker start within the first line, where the greedy `.*` leaves it |
| InPlaceCarousel.RunEnd | src/components/in-place-carousel.tsx:9 | the capture `[^#&?]*` runs to the first `#`, `&` or `?` |
| InPlaceCarousel.IdGroup | src/components/in-place-carousel.tsx:9-10 | the captured group holds no `#`, `&` or `?` |
| InPlaceCarousel.GetYouTubeVideoId | src/components/in-place-carousel.tsx:8-12 | an id exactly when the captured group has 11 characters, and then that group |
| InPlaceCarousel.EmbedUrl | src/components/in-place-carousel.tsx:44 | `https://www.youtube.com/embed/<id>?autoplay=1&mute=1&loop=1` |
| InPlaceCarousel.EmbedUrlRoundTrip | src/components/in-place-carousel.tsx:9-44 | reading the id back from the embed address of a well-formed id gives the id |
| InPlaceCarousel.ShortLinkId | src/components/in-place-carousel.tsx:9 | a short link `youtu?be/<id>` yields the id whatever character stands for the dot |
| InPlaceCarousel.ShortIdRefused | src/components/in-place-carousel.tsx:11 | a captured group of the wrong length gives no id |
| InPlaceCarousel.RenderCarouselItem | src/components/in-place-carousel.tsx:15-67 | an image with alt defaulting to `Gallery image`; a direct video first; then an embed, or "invalid" for an address without an id; "no source" without either |
| InPlaceCarousel.DirectVideoFirst | src/components/in-place-carousel.tsx:26-37 | a direct video file wins over any YouTube address |
| InPlaceCarousel.EmbeddedVideoIsTheItems | src/components/in-place-carousel.tsx:39-50 | a YouTube item embeds the video whose id is in its address |
| InPlaceCarousel.PageDots | src/components/in-place-carousel.tsx:118-123 | no dots for one item or none; otherwise one per item, active exactly at the current index |
| InPlaceCarousel.OneActiveDot | src/components/in-place-carousel.tsx:123 | with several items and the index among them, exactly one dot is active |
| InPlaceCarousel.Carousel.Select | src/components/in-place-carousel.tsx:83-88 | the index follows the carousel's selected item |
| InPlaceCarousel.Carousel.Dots | src/components/in-place-carousel.tsx:118-123 | the dots of the current state, exactly one active when the index is in range |
| HomePage.Locale | src/app/page.tsx:6 | none exactly without a header; otherwise the longest prefix of the header without `,` or `-`: it ends at the header's end or just before a `,` or `-` |
| HomePage.RedirectTarget | src/app/page.tsx:6-7 | `/<locale>`, or `/undefined` without a header |
| HomePage.RegionDropped | src/app/page.tsx:6 | `en-US,en;q=0.9` style headers give the language without its region |
| HomePage.QualityKept | src/app/page.tsx:6 | quality parameters are not stripped: `en;q=0.9` gives `en;q=0.9` |

## Left out

- Rendering, CSS classes, ReactFlow presentation fields and handles, `fitView` and zoom are not modelled. Nodes and edges carry only the data the code computes: id, member, position, colour and flags.
- Next.js routing is not modelled. `router.push` and `redirect` are the returned target, and the path, query and header are inputs.
- The embla carousel API is not modelled. `scrollPrev` and `scrollNext` are the effect a key press returns, and `selectedScrollSnap` is the index given to `Select`.
- The window key listeners and `document.body.style.overflow` are not modelled.
- File reads, `JSON.parse` and gray-matter front-matter parsing are not modelled:
  - a read is a parameter, and a failed JSON read that the source catches is `None`;
  - parsed JSON is the `Value` type, whose objects are taken to list their fields in `Object.entries` order (the integer-keys-first reordering is not modelled);
  - `console.error` is not modelled.
- GetNewsEntry: the content file read is a total parameter, so the exception `readFileSync` throws for a missing content file is not modelled; the lookup, the empty-path case and the excerpt are.
- The read failures of `getTeamData`, `getStrings` and `getPartnersData` are not caught by the source and are not modelled; only their projections are.
- `formatUTCDate` and the `Date` parsing in the news sort are not modelled. News dates are integer timestamps, and the date formatting after the sort is not part of this model.
- `getPublicationsData` is not modelled: it is a file read with an empty fallback.
- src/components/mobile-menu.tsx, src/components/labs-carousel.tsx and src/components/news/blog-meta.tsx are not part of this model.
- The `Value` type has integers only, so JSON numbers that are not integers are not modelled.
- ServerUtils.Prop: reads own properties only; properties inherited from prototypes (`constructor`, `toString` and so on) read as `undefined`.
- JsCore.ToLower, JsCore.ToUpper: ASCII case mapping only; other characters are unchanged.
- Strings are sequences of characters. UTF-16 surrogate pairs, and so `slice(0, 160)` cutting one in half, are not modelled.
- Regular expressions are modelled only as the functions they implement on their inputs, not as a regular-expression engine.
- TeamPageClientView.SearchParams.constructor: treats the copy through `toString()` and re-parsing as exact. The percent-encoding of `URLSearchParams.toString` is not modelled, and `Serialize` joins names and values as they are.
- TeamChart.GetLabColor: when the lab is missing from the list, `indexOf` gives -1 and the source reads `LAB_COLORS[-1]`, which is `undefined`. The model requires the lab to be present, as every caller ensures.

## Findings

| source | as written | input that shows it | evidently intended | confidence | as-written member | corrected member |
|---|---|---|---|---|---|---|
| src/lib/server-utils.ts:104-105 | `loadJsonData` answers a failed read of `news.json` with `{}`, and `getNewsData` then calls `.sort` on it, which throws a `TypeError` because a plain object has no `sort` | `news.json` missing or not valid JSON | an empty news list, like the `[]` fallback of `getPublicationsData` and `getGalleryPaths` | not executed | ServerUtils.GetNewsDataAsWritten | ServerUtils.GetNewsData |
