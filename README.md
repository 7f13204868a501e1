# minnade-1zen in Dafny

A verified model of the data rules of minnade-1zen. minnade-1zen crawls the
charity wishlists on a shopping site and offers the recorded items through a
budget-and-region filter page.

The crawler has four stages:

1. It resolves the 47 prefecture pages from the landing page's anchors and
   deduplicates them by address.
2. On each prefecture page it names the organization behind every wishlist
   anchor. It does this by walking up to five ancestor texts, falling back to
   the image text or a sentinel. It then merges the organizations by address,
   preferring real names to the sentinel and longer names to shorter ones.
3. On each wishlist page it accepts the nodes that have a title and a price.
   For each it parses the price, picks and cleans an image, makes the link
   absolute, and removes repeated links.
4. It saves one record per organization that offers at least one item.

The filter page comes in two copies, `script.js` and `public/script.js`. Both
run the same search:

- check the budget;
- collect the affordable items of the selected prefecture (or of all);
- tag each item with its organization;
- sort stably by price;
- choose each card's image.

They differ in the prefecture selector. `script.js` groups the prefectures
present in the data by region, in a fixed region order, with a `その他` group
for unmapped names. `public/script.js` lists the names in ascending order.

The loops that build the crawler's data and the pages' lists are `method`s
whose loops mirror the original:
- the crawler's loops over the target names, wishlist links, lines,
  ancestors, merged entries, item nodes and seen links, and over the
  organization pages and the prefecture pages;
- the `Set` collection of prefecture names;
- the region loop of the grouped selector;
- the nested loops of the search.

Each method is proved equal to a recursive specification function. Lemmas then
state what that function means: distinctness, first-seen order, bounds,
positivity, permutation, sortedness and stability.

Some iterations are recursive functions instead:
- `allLinks.find` is `Prefectures.FindLink`;
- `new Map(...)` over the candidates is `Prefectures.UrlMap`;
- the `<option>` appends of the selectors are the option lists that
  `Regions.GroupFor`, `Regions.OtherGroup` and
  `Regions.PopulateSortedPrefectures` return.

Modules:

- `Wrappers`: `Option`.
- `Text`: JavaScript white space, `trim`, `includes` and `startsWith`, and
  string order.
- `Seqs`: distinctness, first and last index, first-seen deduplication, `Take`,
  `filter`, `findIndex`.
- `OrderedMaps`: a JavaScript `Map` with string keys. `set` keeps a key's
  first position and replaces its value; `values()` lists values in key order.
- `Prefectures`: stage 1.
- `Organizations`: stage 2.
- `Items`: stage 3.
- `Crawl`: the run, with stage 4.
- `Search`: the search of both pages.
- `Regions`: both prefecture selectors.

Where the code does something other than its comments and names suggest, the
model follows the code:

- The label clean-up removes every `by`, not only one followed by a separator.
  The pattern's separator part may match the empty string.
- Sorting descending and then ascending does not give exactly reversed lists.
  The sort is stable in both directions, so items of equal price keep their
  collected order in both. `Search.SortByPriceFacts` states the stability.

## Model

| member | source | states |
|---|---|---|
| Prefectures.FindLink | scraper.js:38-41 | the result is the first anchor whose text contains the name and whose address has `/b/` or `node=`; none only when no anchor qualifies |
| Prefectures.ResolveCandidates | scraper.js:31-47 | the `forEach` loop yields the candidate list: at most one link per target, each naming a target and a browse address |
| Prefectures.CandidatesBounded | scraper.js:35-45 | there are no more candidates than targets; each names a target and points at a browse address |
| Prefectures.CandidateOrigins | scraper.js:35-45 | candidates come from rising target positions; each holds the first qualifying anchor's address; a target has a candidate exactly when some anchor qualifies |
| Prefectures.UrlMapKeys | scraper.js:49 | the `Map` built from the candidates holds each address once, in first-seen order |
| Prefectures.UrlMapEntries | scraper.js:49 | the value stored for an address is the last candidate with that address |
| Prefectures.UniquePrefecturesUrls | scraper.js:49 | the deduplicated list's addresses are the first-seen distinct addresses cut at 47; they are pairwise distinct; at most 47 entries |
| Prefectures.UniquePrefecturesLast | scraper.js:49 | every kept entry is the last candidate with its address |
| Prefectures.UniquePrefecturesNames | scraper.js:29-49 | every prefecture visited is one of the target names |
| Organizations.WishlistAnchors | scraper.js:59 | every kept anchor is a page anchor whose address contains `/hz/wishlist/ls/`, and every such anchor is kept |
| Organizations.WishlistAnchorsInOrder | scraper.js:59 | the kept anchors are the filter of the page by that address test: page order and repeats are kept |
| Organizations.StripLabelsWithoutLabels | scraper.js:72 | a line without `作成` or `by` is left unchanged by the label removal |
| Organizations.StripLabelsRemovesLabel | scraper.js:72 | the removal keeps a label-free prefix, drops the next `作成` or `by` with the colons and white space after it, and carries on with the rest |
| Organizations.StripLabelsPrefix | scraper.js:72 | a label-free prefix before a label is kept as it is |
| Organizations.ScanAncestor | scraper.js:67-80 | the line loop stops exactly when some line qualifies: organization keyword, not the current name, length 2..59, cleaned length > 1; it returns the first such line, cleaned |
| Organizations.FirstQualifyingFacts | scraper.js:68-80 | the line chosen qualifies and no earlier line does; when none is chosen, no line qualifies |
| Organizations.FirstQualifyingIs | scraper.js:68-80 | a qualifying line with no qualifying line before it is the one chosen |
| Organizations.FirstQualifyingNone | scraper.js:68-80 | when no line qualifies, none is chosen |
| Organizations.SearchAncestors | scraper.js:64-83 | the ancestor loop finds a name exactly when one of the nearest five ancestors has a qualifying line; the name is that of the nearest such ancestor |
| Organizations.RefineAt | scraper.js:64-83 | when the first ancestor level with a qualifying line is a given one, the name comes from that level's first qualifying line |
| Organizations.RefineNone | scraper.js:64-83 | when no searched level has a qualifying line, no name is adopted |
| Organizations.RefineLong | scraper.js:71-76 | an adopted name is longer than one character |
| Organizations.OrgName | scraper.js:61-90 | the name is the sentinel, or longer than one character, or the trim of an image text that is longer than two |
| Organizations.InferName | scraper.js:60-92 | the name callback computes the organization name of the anchor |
| Organizations.RefinedNameOrigin | scraper.js:64-83 | an adopted name comes from the nearest of at most five ancestors with a qualifying line, from its first such line; that line has a keyword, differs from the anchor text, has length 2..59; the name is its cleaned form, longer than one |
| Organizations.FallbackName | scraper.js:85-90 | with no qualifying line, a short or generic anchor text gives way to the trimmed image text when longer than two, else to `名称不明の団体`; otherwise the text is kept |
| Organizations.OrganizationsFacts | scraper.js:58-94 | every organization of a page has a wishlist address and the page's prefecture |
| Organizations.KeptUnique | scraper.js:97-114 | for an address at most one entry is the one the merge rule keeps |
| Organizations.KeptFirst | scraper.js:102-103 | a first entry for an address is kept |
| Organizations.KeptOther | scraper.js:98-114 | an entry for another address does not change what is kept |
| Organizations.KeptSameStays | scraper.js:104-112 | an entry that does not win the merge rule leaves the kept entry in place |
| Organizations.KeptSameReplaced | scraper.js:105-111 | an entry that wins the merge rule becomes the kept one |
| Organizations.OrgMapKeys | scraper.js:97-114 | the merge map holds each address once, in first-seen order |
| Organizations.OrgMapEntries | scraper.js:97-114 | the map's entry for an address is the kept one: the first known name of greatest length when any name is known, else the first entry |
| Organizations.MergedOrgsUrls | scraper.js:97-115 | the merged list has distinct addresses, in first-seen order, at most 3 |
| Organizations.MergedOrgsKept | scraper.js:97-115 | each merged entry is the kept entry for its address, so a known name never yields to the sentinel |
| Organizations.MergeStep | scraper.js:99-113 | an unseen address is stored with the entry and appended to the keys; a seen one keeps its place and is overwritten exactly when the incoming entry wins (known over unknown, a longer known name over a shorter one) |
| Organizations.MergeByUrl | scraper.js:97-115 | the `forEach` over `orgMap.set` and the slice compute the merged list, with the addresses and kept entries above |
| OrderedMaps.OrderedMap.Set | scraper.js:103 | `set` keeps a present key's position, appends a new key, and stores the value |
| OrderedMaps.OrderedMap.Values | scraper.js:115 | `values()` lists the stored value of each key, in key order |
| Items.DigitsOfKeepsDigits | scraper.js:142 | removing the non-digits keeps exactly the digits of the text, in their order |
| Items.DigitsOfAppend | scraper.js:142 | the removal works part by part: that of a concatenation is the concatenation of the removals |
| Items.DigitsOfEmpty | scraper.js:142 | the removal leaves nothing exactly when the text has no digit |
| Items.DigitsOfGroups | scraper.js:142 | the comma between thousands groups goes, joining the digits of the groups |
| Items.DecimalRoundTrip | scraper.js:142 | reading the decimal digits of a number gives the number back |
| Items.SkipToPriceSkips | scraper.js:140 | the price match starts at the first digit or comma |
| Items.PriceRunStops | scraper.js:140 | the price match runs to the first character that is neither digit nor comma |
| Items.DigitsOfDigits | scraper.js:142 | a run of digits is left as it is |
| Items.DigitsOfCommas | scraper.js:142 | a run of commas is removed entirely |
| Items.ParsePriceOfRun | scraper.js:140-142 | the price is the first digit-and-comma run, without commas, read as an integer |
| Items.ParsePriceNoRun | scraper.js:140-142 | a text without digits or commas parses as 0, which acceptance then rejects |
| Items.ParsePriceCommasOnly | scraper.js:140-142 | a first run of commas alone parses as no number (NaN) |
| Items.ParsePriceDecimal | scraper.js:140-142 | a price printed in decimal between non-price characters parses back to itself |
| Items.DecimalAppend | scraper.js:142 | digits written after others multiply the value of the others by ten per digit and add their own |
| Items.GroupedDigits | scraper.js:140-142 | a number with commas between its thousands groups loses the commas and reads back as the number |
| Items.ParsePriceGrouped | scraper.js:140-142 | a price with thousands separators, such as `¥1,980`, between non-price characters parses to its value |
| Items.ParsePrice | scraper.js:140-142 | the price is NaN exactly when the text has a run of digits and commas and its first run holds no digit |
| Items.ChosenImage | scraper.js:132-133 | the first image whose `src` is not an SVG, else the first image, else none |
| Items.RawSource | scraper.js:147 | `data-src` when non-empty; otherwise `data-a-dynamic-image` when non-empty; otherwise `src`; empty only when all three are |
| Items.Decoded | scraper.js:149-154 | a source not starting with `{` is kept; one starting with `{` becomes the first key of the parsed object, or empty when it has no key, and is kept when it does not parse |
| Items.Scrub | scraper.js:157 | a source naming `.svg` or `transparent` becomes empty; any other is kept |
| Items.ItemImage | scraper.js:144-157 | the recorded image never contains `.svg` or `transparent`; a node without images records none |
| Items.Absolutize | scraper.js:162 | the link starts with `http`: the address itself when it does, else the shop origin prefixed |
| Items.AbsolutizeIdempotent | scraper.js:162 | making a link absolute twice changes nothing more |
| Items.ExtractItem | scraper.js:128-166 | a node yields an item exactly when it has a title and a price element, its trimmed title is non-empty, not `その他`, without `クイックビュー`, and its price parses above 0; the item's fields are the trimmed title, the parsed price, the absolute link and the cleaned image |
| Items.ScanNodes | scraper.js:125-168 | the `nodes.forEach` loop yields the accepted items in node order, all valid |
| Items.AcceptedSources | scraper.js:127-168 | each accepted item comes from a node, at rising positions, and every node that yields an item contributes it |
| Items.FirstByLinkLinks | scraper.js:169-173 | the deduplicated links are the distinct links of the input, in first-seen order |
| Items.FirstByLinkFirst | scraper.js:169-173 | each kept item is the first item with its link |
| Items.DedupByLink | scraper.js:169-174 | the `seen`-set loop computes the first item per link |
| Items.PageItemsFacts | scraper.js:124-175 | a page's items are valid, their links distinct, and every accepted link is represented |
| Crawl.CollectOrganizations | scraper.js:58-94 | the `links.map` callback gives each wishlist anchor its inferred name, its address and the prefecture |
| Crawl.VisitWishlists | scraper.js:118-190 | the wishlist loop appends one record per organization whose page loads and has items, in order |
| Crawl.VisitPrefectures | scraper.js:52-193 | the prefecture loop appends, for each page that loads, the records of its merged organizations, in order |
| Crawl.Crawl | scraper.js:22-194 | the run saves the records, prefecture by prefecture and organization by organization; all are valid; at most 47 * 3 |
| Crawl.OrgRecordsValid | scraper.js:179-186 | every record of a prefecture has a non-empty list of valid items with distinct links, a known prefecture and a wishlist address |
| Crawl.PrefRecordsValid | scraper.js:52-193 | one prefecture contributes at most 3 records, all valid; a page that fails to load contributes none |
| Crawl.AllRecordsValid | scraper.js:52-194 | the records of the visited prefectures are valid, at most 3 per prefecture |
| Crawl.RecordsValid | scraper.js:22-201 | every saved record is valid and a run saves at most 47 * 3 records |
| Search.AffordableMember | script.js:153-163 | an organization contributes exactly its items priced within the budget, tagged with its data |
| Search.FlattenMember | script.js:147-165 | the found items are exactly the tagged affordable items of the organizations the selection admits (`All` admits every one) |
| Search.FilterAndFlatten | public/script.js:75-93 | the nested loops push exactly the flattened list |
| Search.InsertPermutes | script.js:169-175 | inserting adds exactly the element |
| Search.InsertBounded | script.js:169-175 | inserting below a bound keeps the list below it |
| Search.InsertSorted | script.js:169-175 | inserting into a sorted list keeps it sorted |
| Search.InsertStable | script.js:169-175 | inserting keeps the order among items of any one price |
| Search.InsertStableStep | script.js:169-175 | inserting before a larger last item keeps the order among items of any one price |
| Search.SortByPricePermutes | script.js:169-175 | the sort is a permutation |
| Search.SortByPriceSorted | script.js:169-175 | the sorted list is ordered by the chosen key |
| Search.SortByPriceStable | script.js:169-175 | items of equal price keep their collected order |
| Search.SortByPriceFacts | script.js:169-175 | the sorted list is a permutation of the found items, ordered by price in the chosen direction, stable |
| Search.SortByPriceOrder | public/script.js:97-103 | prices never fall for `priceAsc` and never rise for any other choice |
| Search.PerformSearch | script.js:133-175 | the search stops at the budget check exactly when the budget is NaN or at most 0; otherwise it returns the stably sorted found items, all within the budget |
| Search.CardImage | script.js:186 | the card shows the stored image when it is non-empty and not an SVG, else the placeholder |
| Search.CardImageOfRecorded | public/script.js:114 | for a recorded image the card shows it exactly when it is non-empty |
| Regions.MappedRegions | script.js:63-71 | flattening the mapping gives the seven region lists in mapping order |
| Regions.RegionsDistinct | script.js:63-71 | no name is listed twice across the seven regions |
| Regions.TargetsAsRegions | scraper.js:29 | the crawler's 47 names are the seven region lists concatenated |
| Regions.RegionPartition | script.js:63-71 | the regions list the crawler's 47 names in its order, each once |
| Regions.MappedDisjoint | script.js:102 | with no name listed twice, two regions share no name |
| Regions.MappedContains | script.js:102 | every name of a region is among the mapped names |
| Regions.RegionsDisjoint | script.js:63-71 | the seven region lists are pairwise disjoint |
| Regions.PrefsOfMember | script.js:74-78 | the collected names are exactly the non-empty prefectures of the data |
| Regions.AvailableStep | script.js:75-77 | each organization adds its prefecture when it is non-empty and new |
| Regions.CollectPrefectures | script.js:73-78 | the `Set` loop gives the distinct non-empty prefectures of the data, in first-seen order |
| Regions.AvailablePrefsFacts | public/script.js:30-35 | the collected names are pairwise distinct and are exactly the data's non-empty prefectures |
| Regions.InsertStringPermutes | public/script.js:37 | inserting a name adds exactly that name |
| Regions.InsertStringSorted | public/script.js:37 | inserting into an ascending list keeps it ascending |
| Regions.InsertStringBounded | public/script.js:37 | inserting a name no greater than a bound into a list bounded by it keeps the list bounded |
| Regions.SortStringsFacts | public/script.js:37 | `sort()` gives a permutation in ascending order, strictly ascending without repeats |
| Regions.SortStringsPermutes | public/script.js:37 | `sort()` keeps exactly the names it was given, with their repeats |
| Regions.SortStringsSorted | public/script.js:37 | `sort()` leaves the names in ascending order |
| Regions.GroupFor | script.js:84-98 | a region gets a group exactly when one of its names is present; the group has the region's name and exactly its present names |
| Regions.RegionGroupsOptions | script.js:83-99 | the options of the region groups are the present mapped names, in mapping order |
| Regions.RegionOptionsSplit | script.js:83-115 | the options are the present mapped names followed by the other group |
| Regions.OtherPrefsFacts | script.js:102-103 | the other names are the unmapped present ones, distinct, in ascending order |
| Regions.RegionOptionsOnce | script.js:62-116 | every available name is offered exactly once and nothing else is offered |
| Regions.PresentThenOthers | script.js:83-110 | the mapped names that are present followed by the remaining names list every available name once |
| Regions.RegionGroupsFacts | script.js:62-116 | the options built from the data offer each non-empty prefecture of the records exactly once and nothing else |
| Regions.OtherGroupFacts | script.js:101-115 | the `その他` group holds exactly the present names outside the 47, in strictly ascending order |
| Regions.PopulateRegionGroups | script.js:62-116 | the grouped selector offers each non-empty prefecture of the data exactly once and nothing else |
| Regions.PopulateSortedPrefectures | public/script.js:29-44 | the sorted selector offers each non-empty prefecture of the data exactly once, in strictly ascending order |
| Text.TrimFacts | scraper.js:61 | `trim` removes white space only at the two ends and leaves none there |
| Text.TrimmedIsFixed | scraper.js:72 | trimming a text without white space at its ends changes nothing |
| Text.StrLeTotal | public/script.js:37 | any two names are ordered one way or the other |
| Text.StrLeTransitive | public/script.js:37 | the string order is transitive |
| Text.StrLeAntisymmetric | public/script.js:37 | two names ordered both ways are equal |

## Left out

- Browser I/O is not modelled: launching the browser, navigation, the waits and the 30-second timeouts. A site is given as what each page would show. A page that fails to load is a missing map entry, and that unit contributes nothing, as the `try`/`catch` blocks arrange.
- Fatal errors and the final write are not modelled: the write of the output file, `JSON.stringify`, and all console output. `Crawl.Records` is the list that would be written.
- The DOM is replaced by plain records. An anchor is its text and address. A wishlist anchor also carries its ancestors' texts, already split into lines, and its image text. A wishlist node is its title anchor, its price text and its images. The CSS selectors and `innerText` are not modelled.
- The organization-keyword pattern is modelled as containment of one of its alternatives, with `by` followed by a white-space character. Regular expressions in general are not modelled.
- JSON parsing of `data-a-dynamic-image` is a parameter of the model. Items.Decoded: for an object without keys the source yields `undefined`, which is then omitted from the saved data. The model records an empty image instead.
- Prices are unbounded naturals. Floating-point numbers and the precision of `parseInt` on very long digit runs are not modelled.
- Search.PerformSearch: the budget text and its `parseInt` are not modelled. The budget arrives already parsed, with `None` for NaN.
- The length tests on names and lines (scraper.js:71, :73, :86, :88 and :111) count characters. JavaScript counts UTF-16 code units, which differs only for characters outside the Basic Multilingual Plane.
- Text.StrLe orders strings by character. JavaScript compares UTF-16 code units, which differs only for characters outside the Basic Multilingual Plane.
- `Array.prototype.sort` sorts in place. The model sorts a value with a stable insertion sort. Because the comparators are consistent, every stable sort gives this same list.
- The `<option>` appends are not modelled as DOM updates: the `forEach` loops at script.js:90-95, script.js:108-113 and public/script.js:38-43. The model keeps the list of options they append, in order, as a value.
- Rendering is not modelled. That covers card markup, `toLocaleString`, `encodeURIComponent`, `alert`, the "nothing found" and load-error messages, and the `file:` protocol warning.
- Loading the data with `fetch` is not modelled; the data is passed in.
- The "All" option that `script.js` writes before the groups is not modelled.
- `script.js` skips building the selector when the data is empty. The model builds it anyway, and empty data gives no groups.
- The check that an organization's `items` is an array is not modelled: items are always a sequence here.
- Search.FlattenMember: states which items are found, not how often. Multiplicity follows from the definition of `Search.Flatten`, an ordered concatenation of each admitted organization's affordable items.
