# tarkov-items: a Dafny model of the loot-rarity core

tarkov-items is a web page that answers one question: which items are worth
looting in Escape from Tarkov, and on which maps? It reads the game's loot
tables and builds several views from them:

- the expected number of spawns of each item on each map;
- tier lists of valuable items;
- a rarity graph;
- a map of loose-loot spawnpoints with zoom and pan.

This project models the computational core of that page in Dafny and proves
what each step promises. The core covers:

- **Probabilities and expected spawns.** Relative weights are normalised into
  probabilities (`Display`). Static-container probabilities are summed per
  translated container name. Each container's item distribution becomes an
  item table. The two layers are composed into expected item counts per map
  (`LootRarity`).
- **Other versions of that pipeline.** The same computation also appears:
  - over store snapshots, together with the inversion item → containers
    (`SpawnsPerMap`); the two store versions of the snapshot computations
    differ only in logging, so one model serves both, applied to whichever
    snapshot each store reads;
  - in the SPT data store, with its JSON shape checks (`SptStore`, `Guards`).
- **Consumers of the expected counts.**
  - The tier list merges the selected maps, filters by price per slot and item
    type, and buckets items by percentile boundaries (`TierList`).
  - The application's older tier list slices by percentile of the sorted list
    (`AppTiers`).
  - The rarity graph works from a container selection (`RarityGraph`), driven by
    the checkbox groups of the rarity view (`RarityVisualization`).
  - The item search dialog handles ranked results, the keyboard highlight and
    toggling the selection (`ItemSearch`, `Selection`).
- **Loose loot and map geometry.** Loose-loot spawnpoints are mapped from the
  raw data (`LooseLoot`). Map bounds are normalised, the map is object-fitted
  into its container, and world points are projected onto the picture with a
  mirrored x axis (`LootSpawnsMap`).
- **Viewport and input.** The viewBox state machine covers wheel zoom, drag to
  pan, mouse up and leave, and position limits (`ZoomAndPan`). The `throttle`
  gate runs against a caller-supplied clock (`Throttle`).
- **Lookup tables and small helpers.**
  - Locations and their display and URL names (`Locations`).
  - The map-metadata name table (`MapMetadata`).
  - Parsing of the translation table (`Translations`).
  - `bounded` and `centerBetweenPoints` (`MathUtil`).

**Representation choices**

| source construct | how it is modelled |
|---|---|
| JavaScript `number` | `real`, with `Math.round(x)` as `Floor(x + 0.5)` (`Common.Round`) |
| `Map` in insertion order | an association list `seq<(K, V)>` with JavaScript `get`/`set` semantics (`OrderedMap`) |
| `m.set(k, (m.get(k) ?? 0) + v)` | the fold `OrderedMap.Accumulate` |
| per-location data | a Dafny `map<Location, X>` |
| reactive `signal`/`computed` values | plain functions of a data snapshot |
| parsed JSON | the `Json` datatype |
| shape guards | functions returning `Accepted`, `Rejected`, or `Threw` (an `in` test on a primitive throws in JavaScript) |

Points where the model states the code's behaviour rather than an idealised one:

- **Zero-sum distributions.** The code divides by the weight sum and yields NaN
  when it is zero; the model requires a non-zero sum (`Display.Normalizable`).
- **Wheel-zoom anchoring.** The code carries a note that its zoom anchor is not
  exact; the model states only what the code computes (`ZoomAndPan.Wheel`).
- **Pan limits.** The code clamps the emitted position to the initial position
  ± half the element size. The stored position itself is never clamped.
- **Missing measurements.** Before the element is measured, the derived values
  (the viewBox size at src/util/use-zoom-and-pan.ts:37-40 and the pan limits at
  :45-48) read its size as zero (`ZoomAndPan.SizeOr0`). The event handlers
  instead return early: the wheel handler (:75-77) and the mouse-move handler
  (:128-130) do nothing while the size is unknown.
- **Per-tier truncation.** The 40-item cut of the tier list happens when a tier
  is displayed (`TierList.ItemsToShow`), not during tiering.
- **Two container stores.** The rarity view offers the container names of
  `store/computed/spawns-per-map`, which reads `store/data`, while the graph
  weights containers from `store/query/spawns-per-map`, which reads
  `store/loot-data`. The two computations differ only in logging, but their
  inputs are separate signals; the model keeps the two snapshots apart
  (`RarityVisualization.GraphCountsAllContainers`).

## Model

| member | source | states |
|---|---|---|
| Display.NormalizeProbabilities | src/util/display.ts:15-26 | one output per input, in order; each keeps its item and relative weight and gains a probability that times the weight sum gives back its relative weight |
| Display.ProbabilitiesAreShares | src/util/display.ts:18-25 | the probabilities are exactly the weights divided by their sum |
| Display.NormalizedSumIsOne | src/util/display.ts:18-25 | for a non-empty input with non-zero sum, the probabilities sum to exactly 1 |
| Display.NormalizedInUnitInterval | src/util/display.ts:18-25 | with non-negative weights and a positive sum, every probability lies in [0, 1] |
| Display.NormalizeScaleInvariant | src/util/display.ts:24 | scaling every weight by the same non-zero constant leaves every probability unchanged |
| Display.NormalizeSingle | src/util/display.ts:18-25 | a single entry with non-zero weight gets probability 1 |
| Display.FormatBigNumber | src/util/display.ts:5-13 | below 1000 the canonical numeral of n (no leading zeros, a minus only when negative); below a million a canonical whole number of thousands within half a thousand of n followed by k; otherwise millions followed by m |
| Display.FormatJustBelowMillion | src/util/display.ts:8-9 | the suffix follows n and not the rounded value: 999500 prints as 1000k |
| LootRarity.ContainerWeights | src/mapper/loot-data-to-rarity.ts:19-26 | one (translated name, probability) pair per static container, in order |
| LootRarity.AverageContainersGet | src/mapper/loot-data-to-rarity.ts:16-29 | a name has a weight iff some container's template translates to it, and the weight is the sum of those containers' probabilities |
| LootRarity.AverageContainersTotal | src/mapper/loot-data-to-rarity.ts:19-26 | the weights of all names sum to the sum of all container probabilities: nothing is lost or counted twice |
| LootRarity.ItemTableGet | src/mapper/loot-data-to-rarity.ts:40-45 | a template listed in a distribution maps to the normalised probability of its last occurrence |
| LootRarity.ItemTableAbsent | src/mapper/loot-data-to-rarity.ts:40-45 | a template not listed has no entry |
| LootRarity.AverageItemsPerContainerGet | src/mapper/loot-data-to-rarity.ts:47-48 | for container ids sharing a translated name, the table of the last one is kept and earlier ones are replaced |
| LootRarity.ExpectedSpawnsGet | src/mapper/loot-data-to-rarity.ts:74-84 | an item's expected count is the sum of weight × probability over weighted names that have a table; names without one contribute nothing |
| LootRarity.ExpectedForNonNegative | src/mapper/loot-data-to-rarity.ts:72-84 | with non-negative container weights and item probabilities, every item's expected count is at least zero |
| LootRarity.ExpectedSpawnsNonNegative | src/mapper/loot-data-to-rarity.ts:72-84 | with non-negative inputs, the stored expected count of every item is at least zero |
| LootRarity.ContributionsKeys | src/mapper/loot-data-to-rarity.ts:72-84 | an item receives a contribution iff the table of some weighted name lists it |
| LootRarity.SpawnsForMapGet | src/mapper/loot-data-to-rarity.ts:69-86 | one map's result gives each item its expected count, and has a key exactly for the items listed in a table of a weighted name |
| LootRarity.MapLootDataToAverageSpawnsPerMap | src/mapper/loot-data-to-rarity.ts:54-90 | a location has a result iff it has both static spawns and container content, and each result has one entry per item; only the distributions of those locations must have a non-zero sum |
| SpawnsPerMap.AverageContainersPerMap | src/store/computed/spawns-per-map.ts:6-33 | exactly the locations with static containers get container weights, one entry per name; the others are skipped |
| SpawnsPerMap.AverageItemsPerContainerPerMap | src/store/computed/spawns-per-map.ts:35-63 | exactly the locations with container content get item tables, one per name, each with one entry per template; the others are skipped |
| LootRarity.ContainerTables | src/store/query/spawns-per-map.ts:45-57 | one (translated container name, item table) pair per container id, in order |
| LootRarity.ProbabilityPairs | src/store/query/spawns-per-map.ts:48-52 | each distribution entry becomes its template paired with its normalised probability, in order |
| LootRarity.AverageItemsTablesDistinct | src/store/computed/spawns-per-map.ts:49-52 | every item table has one entry per template |
| SpawnsPerMap.AverageSpawnsPerMap | src/store/query/spawns-per-map.ts:65-95 | a location has expected spawns iff both intermediate snapshots have it |
| SpawnsPerMap.SnapshotsAgreeWithMapper | src/store/query/spawns-per-map.ts:65-95 | composing the two snapshot computations gives exactly the mapper's result for every location; this holds by definition and records that the two code paths coincide |
| SpawnsPerMap.ContainersForItemPerMap | src/store/computed/containers-for-item.ts:4-26 | the inverted snapshot has exactly the input's locations |
| SpawnsPerMap.ContainersForItemMember | src/store/computed/containers-for-item.ts:11-20 | (container, p) is listed for an item iff that container's table maps the item to p |
| SpawnsPerMap.ContainersForItemOrder | src/store/computed/containers-for-item.ts:14-18 | an item's list holds the containers listing it in the input's order, one per container, with probabilities copied unchanged |
| SpawnsPerMap.ContainersForItem | src/store/computed/containers-for-item.ts:15-18 | every listed item has at least one container |
| SptStore.DecodeRawContainers | src/stores/spt-data.store.ts:132-144 | the static containers read from JSON: one per element, in order, when every element has a probability and a template id |
| SptStore.StaticSpawnsRoundTrip | src/stores/spt-data.store.ts:39-67 | the JSON of any non-empty static-spawn list passes `isRawContainers` and decodes back to the same list |
| SptStore.AverageContainersForMap | src/stores/spt-data.store.ts:120-145 | without the `finally` override: a missing or rejected import gives an empty map; an accepted file whose containers all decode gives the mapper's per-name weights (`LootRarity.AverageContainers`, summed per translated name by `LootRarity.AverageContainersGet`); the result is absent exactly when the file is accepted but some container lacks a numeric probability or a string template id, where the reducer would throw or produce `NaN` or a non-string key |
| SptStore.AverageContainersForMapEncoded | src/stores/spt-data.store.ts:132-144 | on well-formed data the corrected loader agrees with the mapper's container weights |
| SptStore.FinallyDiscardsContainers | src/stores/spt-data.store.ts:148-150 | as written, a single container of probability 1 named crate still yields an empty map |
| SptStore.AverageContainersPerMapAsWritten | src/stores/spt-data.store.ts:153-171 | as written, every location gets an empty container map |
| SptStore.AverageContainersPerMap | src/stores/spt-data.store.ts:153-171 | every location gets an entry; missing or rejected imports give an empty map |
| SptStore.AverageContainersPerMapEncoded | src/stores/spt-data.store.ts:148-171 | for a location with well-formed data the corrected store holds the summed weights, where the code as written holds an empty map |
| SptStore.LoadedLoot | src/stores/spt-data.store.ts:191-206 | a location's loot is kept iff its import passes `isRawLoot`, and it is kept unchanged |
| SptStore.AverageItemsPerMap | src/stores/spt-data.store.ts:208-232 | the result has exactly the locations whose loot was loaded |
| SptStore.SummedItemsForMap | src/stores/spt-data.store.ts:211-226 | a location's sums are computed iff every distribution decodes and can be normalised |
| SptStore.NamedProbabilities | src/stores/spt-data.store.ts:215-224 | each entry of a distribution becomes its translated name paired with its normalised probability, in order |
| SptStore.SummedItemsGet | src/stores/spt-data.store.ts:211-226 | a name has a value iff some entry of some distribution translates to it, and the value is the sum, over all distributions and all such entries, of the entry's normalised probability |
| SptStore.SummedItemsTotal | src/stores/spt-data.store.ts:211-226 | the summed values add up to the number of non-empty distributions: each contributes one unit |
| SptStore.LootValueRoundTrip | src/stores/spt-data.store.ts:87-93 | an encoded loot value passes the per-value check and decodes back to its distribution |
| SptStore.EncodedLootLoaded | src/stores/spt-data.store.ts:191-206 | a location whose first loot value is well formed is loaded |
| Guards.DecodeItemMetadata | src/model/item-metadata.ts:37-52 | decoding succeeds iff `isItemMetadata` holds, and then reads the checked fields |
| Guards.ItemMetadataRoundTrip | src/model/item-metadata.ts:37-52 | every encoded metadata record passes the check and decodes back, whatever other fields it has (a parsed object has one value per key, so none repeats a checked field) and whatever its `types` elements are |
| Guards.ItemMetadataNeedsEveryField | src/model/item-metadata.ts:41-50 | a missing or wrongly typed id or types field makes the check fail |
| Guards.StaticSpawnsAcceptsAnyElements | src/model/loot-data.ts:49-56 | any array under `staticContainers`, the empty one included, passes `isStaticSpawnms` |
| Guards.LootDataGuardsOnPrimitives | src/model/loot-data.ts:49-60 | `isContainerContent` holds exactly for objects and arrays; null and primitives also fail `isStaticSpawnms` |
| Guards.SomeRawContainerSpec | src/stores/spt-data.store.ts:46-65 | the container check's verdict is that of the first element the callback does not reject; only if all are rejected is it rejected |
| Guards.RawContainersRejectsEmpty | src/stores/spt-data.store.ts:44-46 | an empty `staticContainers` array is rejected |
| Guards.RawContainersToleratesAfterMatch | src/stores/spt-data.store.ts:45-46 | once one element is well formed, whatever follows it is accepted |
| Guards.RawContainerEncodingAccepted | src/stores/spt-data.store.ts:46-65 | a container with numeric probability and a template item with a string template id passes the element check |
| Guards.SomeRawLootValueSpec | src/stores/spt-data.store.ts:87-94 | the loot check's verdict is that of the first value not rejected |
| Guards.RawLootRejectsEmpty | src/stores/spt-data.store.ts:82-96 | an empty object is rejected |
| LooseLoot.FindTplSpec | src/fetcher/fetch-loose-loot.ts:44-46 | a template is found iff some template item has the key as id, and it is that of the first such item |
| LooseLoot.LooseItems | src/fetcher/fetch-loose-loot.ts:43-58 | the kept items in distribution order, each with its resolved template and normalised probability × spawnpoint probability |
| LooseLoot.MapSpawnpoint | src/fetcher/fetch-loose-loot.ts:39-69 | the position maps x from x, y from z and height from y; the probability is copied; there are no more items than distribution entries |
| LooseLoot.MapRawLooseLoot | src/fetcher/fetch-loose-loot.ts:36-73 | one output spawnpoint per raw spawnpoint, in the same order |
| LooseLoot.LooseLootPerMap | src/fetcher/fetch-loose-loot.ts:75-86 | a result exists iff every location has a response, and it maps each location's spawnpoints |
| LooseLoot.LooseItemsTotal | src/fetcher/fetch-loose-loot.ts:55-58 | the kept items' probabilities sum to the spawnpoint probability × the kept shares |
| LooseLoot.SpawnpointItemsBound | src/fetcher/fetch-loose-loot.ts:40-58 | with a positive weight sum a spawnpoint's item probabilities sum to at most its probability, with equality when every entry resolves |
| Translations.ShortNameKeyAccepts | src/fetcher/fetch-translations.ts:15-18 | a key made of a template id, a space, ShortName and optionally a space and anything else is kept under that id |
| Translations.ShortNameKeyForm | src/fetcher/fetch-translations.ts:15-17 | every kept key has exactly that form |
| Translations.KeyWithoutSpaceDropped | src/fetcher/fetch-translations.ts:15-17 | a key without a space is dropped |
| Translations.ShortNamePairsMember | src/fetcher/fetch-translations.ts:14-19 | (id, value) is kept iff some entry with that value has a ShortName key for that id |
| Translations.ParseTranslationsGet | src/fetcher/fetch-translations.ts:12-22 | the table gives each id the value of the last kept entry for it |
| Translations.LaterEntryOverwrites | src/stores/spt-data.store.ts:101-106 | a later ShortName entry for the same id overwrites the earlier one |
| Translations.Translate | src/mapper/loot-data-to-rarity.ts:23 | a translated id gives its name, and an untranslated one is its own name |
| Locations.ToDisplay | src/model/location.ts:29-56 | the day and night factories map to Factory, both Ground Zero variants to Ground Zero |
| Locations.Representative | src/model/location.ts:16-56 | every display location is the image of some location |
| Locations.ToDisplaySharedOnlyByVariants | src/model/location.ts:30-55 | two different locations share a display location only if they are the two Factory or the two Ground Zero variants |
| Locations.FromNiceUrlName | src/model/location.ts:58-85 | reading a URL name back gives the only location with that name |
| Locations.NamesInjective | src/model/location.ts:1-14 | different locations have different string values and different URL names |
| Locations.AllLocationsComplete | src/model/location.ts:1-14 | the list of all locations contains every location, each once |
| Locations.FromValue | src/model/location.ts:1-14 | reading a location's string value back gives the only location with that value |
| MapMetadata.DisplayLocationFor | src/fetcher/fetch-map-metadata.ts:4-31 | a metadata name maps to the display location named so, and names no display location has map to nothing |
| MapMetadata.AllMapMetadataGet | src/fetcher/fetch-map-metadata.ts:33-53 | each display location holds the last collection carrying its name |
| MapMetadata.UnknownNameSkipped | src/fetcher/fetch-map-metadata.ts:42-49 | a collection with an unknown name changes nothing |
| TierList.CombinedSpawnsGet | src/components/TierList.tsx:40-55 | an item's combined count is the sum of its counts over the selected maps, and it is listed iff some selected map lists it |
| TierList.WithMetadataMember | src/components/TierList.tsx:57-78 | items without metadata are dropped; every other item is kept with its count and its metadata |
| Items.PricePerSlot | src/components/TierList.tsx:69-71 | the price per slot is the last low price over the slot count, rounded half up |
| TierList.Filtered | src/components/TierList.tsx:81-85 | an item is kept iff its price per slot reaches the minimum and one of its types is allowed |
| TierList.BoundaryMonotone | src/components/TierList.tsx:86-92 | higher percentiles give lower-or-equal boundaries; percentile 1 gives the minimum and 0 the maximum |
| TierList.TierIndex | src/components/TierList.tsx:99-113 | an item goes to the first tier whose boundary does not exceed its count, or to none when every boundary does |
| TierList.TiersMember | src/components/TierList.tsx:80-115 | an item is in tier i iff it passes the filter and tier i is the first whose boundary it reaches |
| TierList.TiersSortedByPrice | src/components/TierList.tsx:114 | every tier is ordered by price per slot, highest first |
| TierList.TiersPartition | src/components/TierList.tsx:98-114 | when a percentile of 1 is present, the tiers together hold every kept item exactly once |
| TierList.DefaultTiersPartition | src/components/TierList.tsx:32-38 | with the default percentiles every kept item is placed exactly once |
| TierList.ItemsToShow | src/components/TierList.tsx:140-141 | a tier shows its first 40 items |
| Sorting.SortDesc | src/components/TierList.tsx:94-96 | sorting by a descending comparator gives a permutation of the input |
| Sorting.SortDescSorted | src/components/TierList.tsx:94-96 | the sorted list is ordered by the key, highest first |
| Sorting.SortDescStable | src/App.tsx:103 | items with equal keys keep their input order, as JavaScript's stable sort does |
| AppTiers.SelectedPairsFirst | src/App.tsx:31-34 | as written, the merge of per-map values keeps the first selected map's value |
| AppTiers.MergedContainersFirst | src/App.tsx:44-61 | as written, a container's merged count is its count on the first selected map that lists it |
| AppTiers.FirstCountKept | src/App.tsx:34 | with crate counted 1 on Customs and 2 on Woods, the merge gives 1 instead of 3 |
| AppTiers.MergedTablesAsWrittenGet | src/App.tsx:17-42 | as written, each merged table entry is the first value found for that container and item |
| AppTiers.MergedTablesGet | src/App.tsx:17-42 | corrected: each merged table entry is the sum of that item's probabilities over the container's tables |
| AppTiers.AverageItemsAsWrittenGet | src/App.tsx:63-80 | as written, an item's count is its first contribution from a container with a non-zero count |
| AppTiers.AverageItemsGet | src/App.tsx:63-80 | corrected: an item's count is the sum of probability × container count over containers with a non-zero count |
| AppTiers.AverageItemsWithMetadataMember | src/App.tsx:82-99 | an entry is kept iff the item has metadata, and it is kept with its count |
| AppTiers.WorthFilterMember | src/App.tsx:85-98 | an item is kept iff its last low price times its count reaches the minimum |
| AppTiers.CutMonotone | src/App.tsx:104-109 | the cut points floor(p × n) do not decrease with p and stay within the list |
| AppTiers.GroupedByTierCovers | src/App.tsx:101-110 | with non-decreasing percentiles in [0, 1] ending at 1, the tiers are consecutive slices whose concatenation is the whole sorted list |
| AppTiers.AppPercentilesCover | src/App.tsx:10 | the default percentiles cover the whole sorted list |
| AppTiers.Trimmed | src/App.tsx:112-116 | each tier is cut to the items-per-tier limit and holds only items of the tier |
| AppTiers.TrimmedKeepsMostExpensive | src/App.tsx:112-116 | the trim keeps the tier's most expensive items: every item cut has a last low price at most that of every item kept |
| AppTiers.TrimmedSorted | src/App.tsx:112-116 | each trimmed tier is ordered by last low price, highest first |
| AppTiers.AppTierListSpec | src/App.tsx:101-116 | tier i has at most the limit of items, all drawn from the i-th percentile slice of the count-sorted list, ordered by price, and none of that slice's items left out is priced above one shown |
| AppTiers.AppTiersShowWorth | src/App.tsx:17-116 | in the corrected pipeline every item shown in a tier passes the price filter and carries the catalogue entry and summed count of its id |
| RarityGraph.SelectedWeightsAll | src/components/RarityGraph.tsx:109-111 | when every container is selected, the container filter removes nothing |
| RarityGraph.AverageSpawnsPerItemGet | src/components/RarityGraph.tsx:97-129 | an item's count is the sum over selected maps with both tables of the selected containers' weight × item probability |
| RarityGraph.SelectedExpected | src/components/RarityGraph.tsx:109-116 | a container outside the selection, or without an item table, contributes nothing |
| RarityGraph.Rarity | src/components/RarityGraph.tsx:142 | the rarity is the reciprocal of the count, undefined for a zero count |
| RarityGraph.GraphItemsMember | src/components/RarityGraph.tsx:131-157 | an item is plotted iff it has metadata, its price per slot is strictly above the minimum, and one of its types is selected |
| RarityGraph.OnItemClick | src/components/RarityGraph.tsx:196-202 | clicking the selected item clears the selection, and clicking any other selects it |
| RarityGraph.ClickTwice | src/components/RarityGraph.tsx:196-202 | two clicks on an unselected item leave nothing selected; two on the selected item leave it selected |
| RarityVisualization.SelectAll | src/components/RarityVisualization.tsx:22-28 | select-all chooses the full list when the selection's length differs from it, and otherwise clears it |
| RarityVisualization.SelectAllFlips | src/components/RarityVisualization.tsx:18-28 | pressing select-all flips whether it would select or clear next time |
| RarityVisualization.CheckboxChange | src/components/RarityVisualization.tsx:30-36 | the changed entry is removed if present and added if absent; all others stay as they were |
| RarityVisualization.ShouldSelectAllIffIncomplete | src/components/RarityVisualization.tsx:18-20 | for repetition-free selections from the list, the length test is the same as "some entry is unselected" |
| RarityVisualization.PossibleContainersMember | src/components/RarityVisualization.tsx:78-82 | a container name is offered iff some selected map lists it |
| RarityVisualization.GraphCountsAllContainers | src/components/RarityVisualization.tsx:109-115 | the graph receives every container name the offering store lists for the selected maps; when that store lists every container the weighting store weights on a selected map, the graph counts all of them there |
| Selection.Toggle | src/components/ItemSearchDialog.tsx:73-79 | a selected id is removed wherever it occurs and any other id is appended at the end; other entries keep their membership |
| Selection.ToggleTwice | src/components/ItemSearchDialog.tsx:73-79 | toggling an unselected id twice restores the list |
| Selection.ToggleDistinct | src/components/ItemSearchDialog.tsx:73-79 | toggling keeps a repetition-free selection repetition-free and inside any universe that holds the id |
| ItemSearch.ReorderMember | src/components/ItemSearchDialog.tsx:49-55 | the ordered results are exactly the matches named by an order entry inside the match list |
| ItemSearch.SearchResultsPrefix | src/components/ItemSearchDialog.tsx:40-61 | the results are the first 50 known matches in the matcher's order |
| ItemSearch.LookupMember | src/components/ItemSearchDialog.tsx:57-58 | a result is the metadata of some matched id; ids without metadata are dropped |
| ItemSearch.HighlightNext | src/components/ItemSearchDialog.tsx:98-109 | ArrowDown keeps a valid index inside a non-empty list and gives NaN on an empty one |
| ItemSearch.HighlightPrevious | src/components/ItemSearchDialog.tsx:111-123 | ArrowUp keeps a valid index inside a non-empty list and gives NaN on an empty one |
| ItemSearch.DownThenUp | src/components/ItemSearchDialog.tsx:98-123 | ArrowUp undoes ArrowDown on a valid index |
| ItemSearch.UpThenDown | src/components/ItemSearchDialog.tsx:98-123 | ArrowDown undoes ArrowUp on a valid index |
| ItemSearch.HighlightedId | src/components/ItemSearchDialog.tsx:63-71 | an id is highlighted iff the index is a number inside the results, and it is that result's id |
| ItemSearch.OnKeyDown | src/components/ItemSearchDialog.tsx:94-135 | Escape closes; arrows move only the highlight; Enter with no highlighted id does nothing, otherwise toggles it and closes iff there is exactly one result |
| ItemSearch.EnterTwice | src/components/ItemSearchDialog.tsx:125-135 | pressing Enter twice on an unselected row restores the selection |
| ItemSearch.OnMouseEnter | src/components/ItemSearchDialog.tsx:209-211 | hovering a row highlights exactly that row and changes neither the selection nor whether the dialog is closed |
| ItemSearch.ArrowsStayInList | src/components/ItemSearchDialog.tsx:98-123 | from a valid index, any sequence of key presses and row hovers on a non-empty result list keeps the highlight on a row of the results |
| ItemSearch.ItemsToShowSelected | src/components/ItemSearchDialog.tsx:145-153 | with no results the list shows exactly the metadata of the selected ids that have some, in selection order |
| LootSpawnsMap.BoundingPoints | src/components/LootSpawnsMap.tsx:106-123 | the top-left corner is the component-wise minimum and the bottom-right the maximum of the raw corners |
| LootSpawnsMap.BoundingPointsNormal | src/components/LootSpawnsMap.tsx:112-122 | the corners' order in the raw bounds does not matter |
| LootSpawnsMap.NaturalDimensions | src/components/LootSpawnsMap.tsx:125-137 | the natural size spans the bounds and is non-negative for ordered bounds |
| LootSpawnsMap.Fit | src/components/LootSpawnsMap.tsx:139-161 | the fitted box keeps the natural aspect ratio, fits in the container, and fills its width or its height |
| LootSpawnsMap.FitToHeight | src/components/LootSpawnsMap.tsx:145-154 | a container wider than the picture's ratio is filled in height |
| LootSpawnsMap.FitToWidth | src/components/LootSpawnsMap.tsx:155-160 | otherwise it is filled in width |
| LootSpawnsMap.TransformClosedForm | src/components/LootSpawnsMap.tsx:51-90 | a world point lands at the mirrored x fraction and the direct y fraction of the bounds, scaled to the picture |
| LootSpawnsMap.CentreToCentre | src/components/LootSpawnsMap.tsx:60-87 | the centre of the bounds lands on the centre of the picture |
| LootSpawnsMap.CornersMirrored | src/components/LootSpawnsMap.tsx:77-87 | bottom-right lands on the left bottom corner and top-left on the right top corner: x is mirrored, y is not |
| LootSpawnsMap.InsideStaysInside | src/components/LootSpawnsMap.tsx:51-90 | a point inside the bounds lands inside the picture |
| LootSpawnsMap.SpawnpointsWithPosition | src/components/LootSpawnsMap.tsx:163-211 | nothing is placed until the metadata and the container size are known; then one entry per spawnpoint, in order, placed by `Place`: position and probability kept, one icon entry per item, highlighted iff some item is selected, drawn at the transform of its horizontal position |
| LootSpawnsMap.Place | src/components/LootSpawnsMap.tsx:188-210 | a spawnpoint keeps its position and probability, gets one icon entry per item, is highlighted iff one of its items is selected, and is drawn at the map transform of its horizontal position |
| LootSpawnsMap.SpawnpointsInsidePicture | src/components/LootSpawnsMap.tsx:163-211 | every spawnpoint inside the map bounds is drawn inside the fitted picture |
| ZoomAndPan.InitialPosition | src/util/use-zoom-and-pan.ts:18-27 | the origin while either size is unknown |
| ZoomAndPan.InitialPositionCentres | src/util/use-zoom-and-pan.ts:18-27 | otherwise the offset that centres the fitted content in the element |
| ZoomAndPan.Start | src/util/use-zoom-and-pan.ts:29-36 | the viewport starts at the initial position, scale 1, not pressed and not panning |
| ZoomAndPan.ViewBoxDimensions | src/util/use-zoom-and-pan.ts:37-40 | the viewBox is the element size times the scale |
| ZoomAndPan.LimitedPositionBounds | src/util/use-zoom-and-pan.ts:42-69 | the emitted position lies within the initial position ± half the element size on each axis |
| ZoomAndPan.WheelScale | src/util/use-zoom-and-pan.ts:83-88 | a wheel step zooms in for a negative delta and out otherwise, and always ends in [0.05, 2] |
| ZoomAndPan.Wheel | src/util/use-zoom-and-pan.ts:74-113 | a wheel event changes only the scale, into [0.05, 2], and the position, and does nothing before the element is measured |
| ZoomAndPan.WheelAtLimitKeepsPosition | src/util/use-zoom-and-pan.ts:90-112 | a wheel event whose clamped scale is unchanged leaves the viewport unchanged |
| ZoomAndPan.MouseDown | src/util/use-zoom-and-pan.ts:118-123 | pressing records the offset and changes nothing else |
| ZoomAndPan.MouseMove | src/util/use-zoom-and-pan.ts:127-147 | a move without a press, or before measurement, changes nothing, and a move never changes the scale |
| ZoomAndPan.MouseMoveDelta | src/util/use-zoom-and-pan.ts:127-147 | a pressed move shifts the position by the mouse delta scaled from element to viewBox units, and marks panning |
| ZoomAndPan.DragPathIndependent | src/util/use-zoom-and-pan.ts:127-147 | two moves while pressed end where one move to the final point does |
| ZoomAndPan.MouseUp | src/util/use-zoom-and-pan.ts:149-154 | releasing clears the press and the panning flag |
| ZoomAndPan.MouseLeave | src/util/use-zoom-and-pan.ts:156-158 | leaving clears only the press |
| ZoomAndPan.NoPanWhenReleased | src/util/use-zoom-and-pan.ts:127-158 | after mouse up or leave, moves change nothing |
| ZoomAndPan.ScaleAlwaysInRange | src/util/use-zoom-and-pan.ts:71-72 | after any sequence of events from the start, the scale lies in [0.05, 2] |
| ZoomAndPan.ViewBoxStringFields | src/util/use-zoom-and-pan.ts:160-163 | the viewBox string is the emitted position and viewBox size, four space-separated fields |
| MathUtil.Bounded | src/util/math.ts:3-5 | within [lo, hi] when lo ≤ hi, v itself when already inside, and hi when lo > hi |
| MathUtil.BoundedIdempotent | src/util/math.ts:3-5 | clamping twice is clamping once |
| MathUtil.Center | src/util/math.ts:13-18 | the centre is equally far from both points on each axis |
| MathUtil.CenterSymmetric | src/util/math.ts:13-18 | the centre does not depend on the order of the points, and the centre of p and p is p |
| Throttle.Call | src/util/throttle.ts:11-21 | a call runs the function iff enough time has passed since the last run, and then records the time; a skipped call returns the last result, or throws when there is none |
| Throttle.LastTimeNonDecreasing | src/util/throttle.ts:11-15 | the recorded time never decreases |
| Throttle.SpacedInvocations | src/util/throttle.ts:11-14 | any two calls that run are at least 1000 / maxHz apart |
| Throttle.ResultPersists | src/util/throttle.ts:14-21 | once a call has run, a result is always stored |
| Throttle.NoThrowAfterInvocation | src/util/throttle.ts:14-19 | once a call has run, no later call throws |
| Throttle.EarlyFirstCallThrows | src/util/throttle.ts:7-8 | the last time starts at 0, so a first call before 1000 / maxHz throws |
| OrderedMap.AccumulateGet | src/mapper/loot-data-to-rarity.ts:25 | the summing fold gives each key the sum of its values, and a key is present iff it occurs |
| OrderedMap.AccumulateTotal | src/mapper/loot-data-to-rarity.ts:25 | the summing fold keeps the total of all values |
| OrderedMap.LastWinsGet | src/mapper/loot-data-to-rarity.ts:47-48 | repeated `set` keeps the last value of each key |
| OrderedMap.KeepFirstAllGet | src/App.tsx:34 | the fold `get(k) ?? v` keeps the first value of each key |
| Strings.JoinSplit | src/fetcher/fetch-translations.ts:15 | the parts of `split(' ')` joined back with the separator give the original key |
| Strings.SplitPrefix | src/fetcher/fetch-translations.ts:15 | the first part of a split is the text before the first separator |
| Common.Round | src/components/TierList.tsx:69-71 | `Math.round`: the nearest whole number, halves rounded up |

## Left out

- Network and file input: the fetches and the dynamic `import()` of the data files. Their results are parameters: an `Option` per location, or a `Json` value.
- Logging with `console.error`, whose only effect is output.
- Signals, `computed` and `useSignalEffect`: computed values are functions of a snapshot.
- JSX, rendering, canvas drawing, `ResizeObserver`, `scrollIntoView` and focus handling.
- The d3 scales and zoom of the rarity graph (src/components/RarityGraph.tsx:159-194).
- The uFuzzy fuzzy matcher: its answer (`ItemSearch.Ranking`) is an input.
- `randomNumberBetween`, which uses randomness, and `distanceBetweenPoints`, which needs a square root.
- The historical prices of item metadata, which the core does not read.
- Commented-out code: the rotate and mirror helpers and transform parameters (src/components/LootSpawnsMap.tsx:20-49, 176-184) and the Containers checkbox group (src/components/RarityVisualization.tsx:105).
- The `containers` signal of the rarity view (src/components/RarityVisualization.tsx:83), which nothing reads.
- The application's container tables: the store exports one flat `Map<string, number>` of item sums per map (src/stores/spt-data.store.ts:208-231). App.tsx treats each value as a per-container table, and as written `for (const [item, count] of items)` (src/App.tsx:31) throws a TypeError on the first entry, because a number is not iterable. `AppTiers` takes nested per-container tables as input instead: this is a correction, not a representation choice.
- The item metadata shape of the tier list and the rarity graph: TierList.tsx and RarityGraph.tsx read `allItemMetadata` from src/store/data.ts and src/store/loot-data.ts. Both are typed by src/model/item-metadata.ts:29-35, which has no price or size, and the metadata fetcher (src/fetcher/fetch-item-metadata.ts:10-18) does not request them. As written, `lastLowPrice / (width * height)` (src/components/TierList.tsx:70, src/components/RarityGraph.tsx:144) reads undefined fields and gives `NaN`, so no item passes the price filter. `TierList` and `RarityGraph` are modelled with the tarkov-dev shape their code reads (`Items.ItemInfo`, from src/stores/tarkov-dev-data.ts), not with the type of the store they import.
- Floating-point rounding: arithmetic is exact over `real`.
- NaN and infinities. These cases become preconditions:
  - a zero weight sum (`Display.Normalizable`);
  - unmeasured or zero item dimensions (`Items.Measured`);
  - zero map dimensions (`LootSpawnsMap.Drawable`, `Common.Positive`);
  - the maximum of an empty list.
- The NaN highlight: the dialog's highlight becomes NaN after an arrow key on an empty list, and this is modelled as its own case (`ItemSearch.Highlight`).
- The key order of `Object.entries`: entries are taken in the given order. JavaScript would move integer-like keys first; template ids are hexadecimal and not integer-like.
- Number-to-text conversion inside the viewBox string: it is a parameter.
- The throttled handlers (src/util/use-zoom-and-pan.ts:169-173): `throttle` itself is modelled by `Throttle`, and the viewport transitions by `ZoomAndPan`.
- RarityVisualization.GraphCountsAllContainers: requires that, on the selected map, the offering store lists every container the weighting store weights. Nothing in the model establishes this: the two stores read separate signals, declared empty in src/store/data.ts and src/store/loot-data.ts, and the code that fills them is not part of this model.
- ZoomAndPan.Wheel: the contract states the scale clamp and that a no-op scale keeps the position, not exact anchoring under the cursor. The source marks that calculation as not exact.
- Display.FormatBigNumber: modelled on whole numbers only, which is what it is given (rounded prices).
- LooseLoot.LooseLootPerMap: the sequential per-location requests are one map of responses. A failed request makes the whole result absent, as the rejected promise does.

## Findings

| source | as written | input that shows it | evidently intended | confidence | as-written member | corrected member |
|---|---|---|---|---|---|---|
| src/App.tsx:34 | `merged.get(k) ?? 0 + v` parses as `merged.get(k) ?? (0 + v)`, so the first map's value is kept and later maps are ignored; the same pattern recurs at lines 54 and 73 | crate counted 1 on Customs and 2 on Woods, both selected: the merged count is 1 | the sum over the selected maps, 3 | not executed | AppTiers.FirstCountKept | AppTiers.AverageItemsGet |
| src/stores/spt-data.store.ts:148-150 | the `return` inside `finally` overrides the `try` block's result, so every location's container map is empty | a static-container file with one container of probability 1 whose template translates to crate | a map with crate weighted 1 | not executed | SptStore.FinallyDiscardsContainers | SptStore.AverageContainersPerMapEncoded |
