# Product feature set values card — a Dafny model

The values card on the product feature set settings page shows the rows
("features") of one feature set in a grid. Each row has an id, a name, a type and
a 1-based `position`. The card offers a search field, multi-select bulk delete,
drag reordering and a modal editor. This project models the card's bookkeeping
over the feature list and proves what that bookkeeping guarantees.

- `feature_list.dfy`, module `FeatureList`: rows as values, plus the three list
  operations the card uses, as functions:
  - `Filter` stands for `Array.prototype.filter`;
  - `Renumber` stands for what `resetPositions` leaves behind;
  - `SortByPosition` is a stable insertion sort that stands for
    `Array.prototype.sort` with the comparator `a.position - b.position`.

  The module also holds the lemmas about these functions, and `SortInPlace`, the
  in-place sort of an array.
- `values_card.dfy`, module `ValuesCardComponent`: the component as the class
  `ValuesCard`. It has the fields of the component's `data()`, plus `features`
  for `productFeatureSet.features`. `features` is an `array?` (null when the
  parent has no list) and `values` is an `array`. When `values == features`,
  the two are the same array object. This is how the model keeps the aliasing
  that `getList` creates at line 125. The in-place sort at line 133 then
  reorders the parent's list itself. With a search term, `values` is a fresh
  filtered copy, and only that copy is sorted.

Behaviour of the code that the model keeps, some of it easy to miss:
- Search uses `String.prototype.match(term)`, a regular-expression match, not a
  substring test. The match is the class constant `matches`, which the model
  treats as uninterpreted. The one fact the model fixes about it is that the
  empty pattern matches every string.
- `onSearch` with an empty term does not stop after reloading: there is no
  `return` after `getList()`. It then replaces `values` with a filtered copy of
  the list, and with the empty pattern that copy holds every row. So after
  `onSearch` with an empty term, `values` holds the sorted rows but is a new
  array, not the backing list (`OnSearch`'s contract).
- Bulk delete tests only that `selection` is non-null. An empty selection map
  still renumbers the list and reloads. Every key counts as deleted, whatever
  value it maps to.
- Bulk delete assigns a new filtered array to the backing list. It does not
  shrink the list in place.
- `onPositionChange` takes the reordered list verbatim and does not renumber
  positions. Positions can then disagree with list order. A delete renumbers
  the list in its dragged order and so keeps that order. A load with an empty
  term (closing the modal, clearing the search) instead sorts the backing list
  in place by the stale positions, which reverts the drag.
- `onSearch` and `onDeleteFields` read `.filter` of the backing list with no
  null guard. The model returns `ok == false` where JavaScript would throw a
  `TypeError`. At that point `onSearch` with an empty term has already reloaded.

## Model

| member | source | states |
|---|---|---|
| `ValuesCardComponent.ValuesCard.constructor` | src/Administration/Resources/app/administration/src/module/sw-settings-product-feature-sets/component/sw-settings-product-feature-sets-values-card/index.js:35-47 | the initial state of `data()`: no values, no selection, delete disabled, empty term, loading flags and modal off, no current value |
| `ValuesCardComponent.ValuesCard.ValuesEmpty` | src/Administration/Resources/app/administration/src/module/sw-settings-product-feature-sets/component/sw-settings-product-feature-sets-values-card/index.js:62-64 | true exactly when the grid has no rows |
| `ValuesCardComponent.ValuesCard.CreatedComponent` | src/Administration/Resources/app/administration/src/module/sw-settings-product-feature-sets/component/sw-settings-product-feature-sets-values-card/index.js:92-99 | creation performs a load, with the load's full effect (`Loaded`): `values` is the backing array itself when the list is present and the term empty, and a new array otherwise |
| `ValuesCardComponent.ValuesCard.OnAddField` | src/Administration/Resources/app/administration/src/module/sw-settings-product-feature-sets/component/sw-settings-product-feature-sets-values-card/index.js:101-103 | opens the modal and changes nothing else |
| `ValuesCardComponent.ValuesCard.OnGridSelectionChanged` | src/Administration/Resources/app/administration/src/module/sw-settings-product-feature-sets/component/sw-settings-product-feature-sets-values-card/index.js:105-108 | stores the selection; delete is disabled exactly when the count is <= 0; no other field changes |
| `ValuesCardComponent.ValuesCard.ApplySearch` | src/Administration/Resources/app/administration/src/module/sw-settings-product-feature-sets/component/sw-settings-product-feature-sets-values-card/index.js:115-117 | `values` becomes a new array holding the rows whose name or type matches the term, in list order; the backing list is untouched |
| `ValuesCardComponent.ValuesCard.OnSearch` | src/Administration/Resources/app/administration/src/module/sw-settings-product-feature-sets/component/sw-settings-product-feature-sets-values-card/index.js:110-118 | with a term: `values` is the matching subsequence, as a new array, and the backing list and loading flag are unchanged; with an empty term: reloads, then `values` is a new array equal to the position-sorted list; an absent list is the error outcome |
| `ValuesCardComponent.ValuesCard.GetList` | src/Administration/Resources/app/administration/src/module/sw-settings-product-feature-sets/component/sw-settings-product-feature-sets-values-card/index.js:120-133 | sets loading; an absent list gives empty `values`; with an empty term, `values` IS the backing array and equals the stable position sort of its old contents; with a term, `values` is a new sorted copy of the hits and the backing list is untouched; in every case `values` is sorted and a permutation of the rows it came from |
| `ValuesCardComponent.ValuesCard.OnModalClose` | src/Administration/Resources/app/administration/src/module/sw-settings-product-feature-sets/component/sw-settings-product-feature-sets-values-card/index.js:143-147 | closes the modal, clears the current value, then has the full effect of a load: `values` is the backing array itself when the list is present and the term empty, and a new array otherwise |
| `ValuesCardComponent.ValuesCard.OnShowFeatureModal` | src/Administration/Resources/app/administration/src/module/sw-settings-product-feature-sets/component/sw-settings-product-feature-sets-values-card/index.js:149-151 | sets only the modal flag; the current value is untouched |
| `ValuesCardComponent.ValuesCard.OnDeleteFields` | src/Administration/Resources/app/administration/src/module/sw-settings-product-feature-sets/component/sw-settings-product-feature-sets-values-card/index.js:153-164 | no selection: nothing changes (list, its contents, `values`, loading flag); otherwise the backing list is a new array of the rows whose id is not a selected key, in their old order, renumbered 1..N; `values` is that list itself (empty term) or its matching rows; an absent list is the error outcome |
| `ValuesCardComponent.ValuesCard.DeleteRows` | src/Administration/Resources/app/administration/src/module/sw-settings-product-feature-sets/component/sw-settings-product-feature-sets-values-card/index.js:155-162 | filter, renumber and reload on a present list; the reload's sort changes nothing, so the survivors keep their order |
| `ValuesCardComponent.ValuesCard.OnPositionChange` | src/Administration/Resources/app/administration/src/module/sw-settings-product-feature-sets/component/sw-settings-product-feature-sets-values-card/index.js:166-168 | the backing list becomes the given array with its contents unchanged (no renumbering); `values` is untouched |
| `ValuesCardComponent.ValuesCard.ResetPositions` | src/Administration/Resources/app/administration/src/module/sw-settings-product-feature-sets/component/sw-settings-product-feature-sets-values-card/index.js:170-174 | in place, the row at index i becomes the old row at index i with position i + 1 |
| `FeatureList.SortInPlace` | src/Administration/Resources/app/administration/src/module/sw-settings-product-feature-sets/component/sw-settings-product-feature-sets-values-card/index.js:133 | the array is sorted in place into the stable position order: sorted, and a permutation of its old contents |
| `FeatureList.FilterMembers` | src/Administration/Resources/app/administration/src/module/sw-settings-product-feature-sets/component/sw-settings-product-feature-sets-values-card/index.js:157-159 | a row is in the filtered list iff it was in the list and is accepted (for delete: its id is not a selected key) |
| `FeatureList.FilterKeepsOrder` | src/Administration/Resources/app/administration/src/module/sw-settings-product-feature-sets/component/sw-settings-product-feature-sets-values-card/index.js:115-117 | a filtered list is a subsequence of the list: rows keep their relative order (for search and for delete) |
| `FeatureList.FilterKeepsAll` | src/Administration/Resources/app/administration/src/module/sw-settings-product-feature-sets/component/sw-settings-product-feature-sets-values-card/index.js:115 | filtering with a predicate that accepts every row returns the list unchanged |
| `FeatureList.FilterConcat` | src/Administration/Resources/app/administration/src/module/sw-settings-product-feature-sets/component/sw-settings-product-feature-sets-values-card/index.js:157 | filtering distributes over concatenation |
| `FeatureList.FilterSorted` | src/Administration/Resources/app/administration/src/module/sw-settings-product-feature-sets/component/sw-settings-product-feature-sets-values-card/index.js:115-117 | a filtered view of a position-sorted list is position-sorted |
| `FeatureList.EmptyTermKeepsAll` | src/Administration/Resources/app/administration/src/module/sw-settings-product-feature-sets/component/sw-settings-product-feature-sets-values-card/index.js:116 | with the empty term every row is a hit, so the search returns the whole list in order |
| `FeatureList.RenumberAt` | src/Administration/Resources/app/administration/src/module/sw-settings-product-feature-sets/component/sw-settings-product-feature-sets-values-card/index.js:171-173 | after renumbering, index i holds the old row i (same id, name, type) with position i + 1 |
| `FeatureList.RenumberDense` | src/Administration/Resources/app/administration/src/module/sw-settings-product-feature-sets/component/sw-settings-product-feature-sets-values-card/index.js:170-174 | renumbered positions are strictly increasing, lie in 1..N, and are sorted |
| `FeatureList.InsertPermutes` | src/Administration/Resources/app/administration/src/module/sw-settings-product-feature-sets/component/sw-settings-product-feature-sets-values-card/index.js:133 | one insertion step adds exactly the inserted row |
| `FeatureList.InsertSorted` | src/Administration/Resources/app/administration/src/module/sw-settings-product-feature-sets/component/sw-settings-product-feature-sets-values-card/index.js:133 | inserting into a sorted list keeps it sorted |
| `FeatureList.InsertStable` | src/Administration/Resources/app/administration/src/module/sw-settings-product-feature-sets/component/sw-settings-product-feature-sets-values-card/index.js:133 | an insertion step places the row after every row that shares its position |
| `FeatureList.SortSorted` | src/Administration/Resources/app/administration/src/module/sw-settings-product-feature-sets/component/sw-settings-product-feature-sets-values-card/index.js:133 | the loaded list is in non-decreasing position order |
| `FeatureList.SortPermutes` | src/Administration/Resources/app/administration/src/module/sw-settings-product-feature-sets/component/sw-settings-product-feature-sets-values-card/index.js:133 | the loaded list holds exactly the rows of the input (as a multiset) |
| `FeatureList.SortStable` | src/Administration/Resources/app/administration/src/module/sw-settings-product-feature-sets/component/sw-settings-product-feature-sets-values-card/index.js:133 | rows that share a position keep their relative order (the sort is stable) |
| `FeatureList.SortOfSorted` | src/Administration/Resources/app/administration/src/module/sw-settings-product-feature-sets/component/sw-settings-product-feature-sets-values-card/index.js:133 | sorting a list that is already in position order changes nothing |
| `ValuesCardComponent.RenumberedLoadKeepsOrder` | src/Administration/Resources/app/administration/src/module/sw-settings-product-feature-sets/component/sw-settings-product-feature-sets-values-card/index.js:161-162 | the load that follows a renumber reorders nothing, for the whole list or for any search view of it |
| `FeatureList.LoadScenario` | src/Administration/Resources/app/administration/src/module/sw-settings-product-feature-sets/component/sw-settings-product-feature-sets-values-card/index.js:133 | rows c, a, b at positions 3, 1, 2 load as a, b, c |
| `FeatureList.DeleteScenario` | src/Administration/Resources/app/administration/src/module/sw-settings-product-feature-sets/component/sw-settings-product-feature-sets-values-card/index.js:153-162 | deleting b from a, b, c at 1, 2, 3 leaves a at 1 and c at 2 |

## Left out

- Enrichment (lines 135-140): two asynchronous fetches through the translation service, after which `valuesLoading` goes back to false. They are asynchronous and the service is not part of this model.
- GetList: states only that loading is switched on. Loading is switched off by the enrichment fetches, which are left out.
- Repository and criteria construction (lines 50-60, 72-77) and the lazy creation of the translation service (lines 79-89). These are data-access calls into code outside this model.
- Regular-expression semantics of `String.prototype.match` (line 116). `matches` is a parameter of the card; the only property fixed is that the empty pattern matches everything. A term that is not a valid pattern, which throws a `SyntaxError`, is not modelled.
- `$nextTick` (line 146) is modelled as a direct call of `GetList` at the end of `OnModalClose`. `$set` reactivity (line 167) is modelled as a plain field assignment.
- Template, styles, `props` other than the feature list (`isLoading`, `disabled`, `allowEdit`), `valuesCardClasses` and the static `getColumns` configuration (lines 176-188): these are presentation only.
- Rows are values, not shared objects. When a filtered copy and the backing list hold the same row object, a change to a row through one array shows in the other. No modelled operation observes this: every renumber is followed by a reload that rebuilds `values`. The modal editor's direct edits to rows are outside this model.
- Positions are modelled as integers. JavaScript numbers that are fractional, `NaN` or missing, which would make the comparator misbehave, are not modelled.
- SortInPlace: stands for the engine's `Array.prototype.sort`, which must be stable (ECMAScript 2019 and later). The model fixes one stable sort. The lemma that every stable sort gives the same order is not proved here.
