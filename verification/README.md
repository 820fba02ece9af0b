# iExpense expense store and view model, in Dafny

iExpense is a one-screen expense tracker. Its logic outside the UI sits in `iExpense/ContentView.swift`:

- the `ExpenseItem` record (id, name, type, amount);
- the `Expenses` store, whose `items` list re-persists itself on every assignment and loads itself on construction;
- the derived views of `ContentView`: `filteredItems`, `uniqueItems`, `getLabel` and `chartTitle`;
- the three buttons that set the view mode (`type`, `valueChart`, `isFiltering`);
- the delete action `removeItems(at:)`.

This project models that logic and proves what it promises.

Files and modules:

- `expense_item.dfy` (`ExpenseItems`): the record, `Option`, and an opaque `Uuid`. The Swift field `type` is called `kind`, because `type` is a Dafny keyword. `amount` is a `real`.
- `persistence.dfy` (`Persistence`):
  - the defaults database is a `Defaults` class holding named slots;
  - `JSONEncoder`/`JSONDecoder` are a `Codec`, a pair of functions, either of which may fail;
  - `Expenses` is a class: its constructor loads, and `SetItems` is an assignment to `items` together with its `didSet`.
- `views.dfy` (`Views`):
  - `filteredItems` and its properties;
  - `Dictionary(grouping:by:)`, built record by record as the initializer builds it, and proved equal to "each key maps to its records, in order";
  - `uniqueItems`, `getLabel` and `chartTitle`.
- `removal.dfy` (`Removal`): `remove(atOffsets:)` on a list, and the elements it takes out.
- `content_view.dfy` (`Screen`):
  - a `ContentView` class with the store and the three view-mode fields;
  - the button handlers, and `RemoveItems`;
  - the lemmas about reachable view modes and about deletion while a filter is active.

Deletion is modelled as the app does it. The delete offsets come from the rows of `filteredItems` (ContentView.swift:134, :152), but `removeItems` applies them to the unfiltered `expenses.items` (:168). `DeleteUnderFilterRemovesHiddenRecord` shows the consequence: with a filter on and a hidden record stored first, deleting the first displayed row deletes the hidden record, and the swiped record stays. `SwipingCoffeeDeletesRent` is a concrete instance of this. What the user expects is that the record shown in the swiped row is the one deleted. The code does not do that, and the model follows the code.

The model takes `Expenses.init` to load `items` without writing the slot (see "## Left out"). Every later assignment writes the slot, when encoding succeeds, through `SetItems`; when encoding fails the slot keeps its old contents.

## Model

| member | source | states |
|---|---|---|
| `Persistence.Loaded` | iExpense/ContentView.swift:31-40 | a slot that decodes loads exactly the decoded list; a missing slot and an undecodable one both load the empty list |
| `Persistence.Persisted` | iExpense/ContentView.swift:24-28 | persisting writes the encoding to the "Items" slot only, and leaves every slot unchanged when encoding fails |
| `Persistence.LoadAfterPersist` | iExpense/ContentView.swift:23-40 | with a codec that decodes what it encodes, a list that was persisted is exactly the list a new store loads |
| `Persistence.LoadAfterFailedPersist` | iExpense/ContentView.swift:25-27 | when encoding fails, a new store loads the previously persisted list |
| `Persistence.Expenses.constructor` | iExpense/ContentView.swift:31-40 | the store starts with exactly the decoded saved list when the slot decodes, and empty when the slot is missing or undecodable; the slot is left as it was (an assumption, see Left out) |
| `Persistence.Expenses.SetItems` | iExpense/ContentView.swift:23-29 | an assignment replaces the list and persists it when encoding succeeds (the slot is unchanged otherwise); afterwards a reload gives back the new list when the codec round-trips and encodes it |
| `Views.ChartField` | iExpense/ContentView.swift:61-74 | the chart groups by name exactly when `valueChart` is "name"; "type", nil and any other value group by type |
| `Views.Label` | iExpense/ContentView.swift:171-180 | the sector label is always the field the chart is grouped by (name for "name", type otherwise) |
| `Views.Select` | iExpense/ContentView.swift:57 | keeping the records with one key gives no more records than stored, all with that key |
| `Views.SelectKeepsMultiplicity` | iExpense/ContentView.swift:57 | every record with the key is kept as many times as it is stored |
| `Views.SelectIsSubsequence` | iExpense/ContentView.swift:57 | the kept records stay in their stored order |
| `Views.SelectElementIsStored` | iExpense/ContentView.swift:57 | every kept record is a stored record with that key |
| `Views.Filtered` | iExpense/ContentView.swift:53-58 | with no type selected the view is the stored list itself; with a type selected every shown record has that type, and the view is never longer than the list |
| `Views.FilteredIsSubsequenceOfType` | iExpense/ContentView.swift:57 | with a type selected, the view is exactly the subsequence of the records of that type, each as often as stored |
| `Views.FilteredIsSubsequence` | iExpense/ContentView.swift:53-58 | with or without a selected type, the view keeps the stored order: it is a subsequence of the stored list |
| `Views.Grouping` | iExpense/ContentView.swift:63-71 | the grouping dictionary has exactly the keys that occur, and each key maps to a non-empty group: its records in stored order |
| `Views.KeyOrder` | iExpense/ContentView.swift:64 | the dictionary's values are visited once per key: the order lists every occurring key exactly once |
| `Views.FirstIndex` | iExpense/ContentView.swift:65 | the first element of a group is the earliest stored record with that key |
| `Views.FirstOfEach` | iExpense/ContentView.swift:64-65 | `compactMap { $0.first }` yields at most one record per key in the given order, an empty group giving none; when no group is empty it yields exactly each group's first record, position by position |
| `Views.FirstOfEachMembers` | iExpense/ContentView.swift:64-65 | for every key order and every grouping, a record comes out of `compactMap { $0.first }` exactly when it is the first record of a non-empty group whose key is in the order: an empty group contributes nothing and suppresses nothing else |
| `Views.FirstsDropNoGroup` | iExpense/ContentView.swift:63-65 | the grouping has no empty group, so `compactMap` drops none: one record per occurring key |
| `Views.FirstsAreFirstOfTheirKey` | iExpense/ContentView.swift:63-65 | every element of the result is the first record of the filtered list with its key |
| `Views.FirstsHaveDistinctKeys` | iExpense/ContentView.swift:63-65 | no two elements of the result share a key |
| `Views.FirstsCoverAllKeys` | iExpense/ContentView.swift:63-65 | the keys of the result are exactly the keys of the filtered list |
| `Views.UniqueItems` | iExpense/ContentView.swift:60-75 | one stored record per distinct key of the filtered list, each the first with its key, keys pairwise distinct, size equal to the number of distinct keys; amounts are not summed |
| `Views.UniqueItemsDeterminedUpToOrder` | iExpense/ContentView.swift:63-65 | since dictionary order is unspecified, any two results meeting that contract are permutations of each other |
| `Views.ChartTitle` | iExpense/ContentView.swift:183-194 | the title is "Both" with no type, the type's own name for "Personal" and "Business", and empty for any other type |
| `Removal.RemoveAtOffsets` | iExpense/ContentView.swift:168 | removal shortens the list by the number of offsets that name a position |
| `Removal.SurvivorPosition` | iExpense/ContentView.swift:168 | every element at a position not removed survives, moved down by the number of removed positions before it, so the survivors keep their order |
| `Removal.AtOffsets` | iExpense/ContentView.swift:168 | the removed elements are exactly the elements at the offsets, in list order |
| `Removal.RemovalPartitions` | iExpense/ContentView.swift:168 | the surviving and the removed elements together are the original list, up to order |
| `Removal.RemovalLength` | iExpense/ContentView.swift:168 | with every offset in range, exactly as many elements are removed as there are offsets |
| `Screen.ContentView.constructor` | iExpense/ContentView.swift:44-48 | the screen creates and loads its store, starts with no type, no filtering and no chart field, and is in a reachable mode |
| `Screen.ContentView.SelectPersonal` | iExpense/ContentView.swift:80-84 | the "Personal" button filters by "Personal" and groups by name, keeping the mode consistent |
| `Screen.ContentView.SelectBusiness` | iExpense/ContentView.swift:87-92 | the "Business" button filters by "Business" and groups by name, keeping the mode consistent |
| `Screen.ContentView.SelectBoth` | iExpense/ContentView.swift:95-99 | the "Both" button clears the filter and groups by type, keeping the mode consistent |
| `Screen.ContentView.RemoveItems` | iExpense/ContentView.swift:167-169 | deletion removes exactly the stored records at the offsets, keeps the rest in order, shrinks the list by the number of offsets, and persists the result |
| `Screen.ReachableTitleIsNeverEmpty` | iExpense/ContentView.swift:183-194 | in every mode the buttons can reach, the chart title is "Both", "Personal" or "Business", never empty |
| `Screen.ReachableChartField` | iExpense/ContentView.swift:80-99 | in every reachable mode the chart groups by name exactly when a type is selected |
| `Screen.ScreenTitleNeverEmpty` | iExpense/ContentView.swift:183-194 | on a screen in the state kept by its constructor and buttons, the title is "Both", "Personal" or "Business", and the chart groups by name exactly when a type is selected |
| `Screen.ChartSectors` | iExpense/ContentView.swift:108-115 | in a reachable mode the chart has one stored record per distinct key of the shown records, each of the selected type and labelled by its grouping field |
| `Screen.DisplayedOffsetsAreStoredOffsets` | iExpense/ContentView.swift:152 | offsets of displayed rows are always valid stored offsets, and with no filter the deleted records are the displayed ones |
| `Screen.DeleteUnderFilterRemovesHiddenRecord` | iExpense/ContentView.swift:167-168 | with a filter on and a hidden record stored first, deleting the first displayed row removes that hidden record and keeps the swiped one |
| `Screen.SwipingCoffeeDeletesRent` | iExpense/ContentView.swift:134-168 | concretely: Rent (Business) before Coffee (Personal) under the Personal filter; deleting the Coffee row leaves only Coffee |

## Left out

- Rendering is not modelled: `body`, `NavigationStack`, `List`, `Chart`/`SectorMark`, `MyButtonStyle`, `#Preview`, the `.sheet` and the `showingAddExpense` flag. They state no logic.
- `AddView` is not part of this model, so appending a record is not modelled as its own operation. An append is `SetItems(items + [item])`.
- `UserDefaults`, `JSONEncoder` and `JSONDecoder` are foreign code. They appear as a map of named slots and a `Codec` of two total functions, either of which may fail. `LoadAfterPersist` takes as a hypothesis that the codec decodes what it encodes.
- `UUID()` generation is a foreign call. Identifiers are opaque values, and nothing is proved about their uniqueness.
- Currency formatting, the colour thresholds on `amount` (ContentView.swift:145-149) and the sector angles are presentation on `Double`. `amount` is a `real` that no operation reads.
- Views.UniqueItems: returns the groups in first-occurrence order of their keys, one fixed order where Swift leaves `Dictionary.values` unordered. Every property stated about it is order-independent, and `UniqueItemsDeterminedUpToOrder` shows that any admissible order gives a permutation of the same records.
- Removal.RemoveAtOffsets: as a pure function it ignores offsets past the end. `remove(atOffsets:)` is not part of this model. It is taken to trap on such offsets, which `Screen.ContentView.RemoveItems` expresses as its precondition. Either behaviour gives the same result at the only call site, which never passes such offsets (`Screen.DisplayedOffsetsAreStoredOffsets`).
- Persistence.Expenses.constructor: assumes that loading writes nothing back (`defaults.slots == old(defaults.slots)`). That is the rule for a plain Swift class, whose own initializer does not run `didSet`. `Expenses` is `@Observable`, whose macro turns `items` into a computed property over a backing store. If the assignments at ContentView.swift:34 and :39 go through the generated setter and its observer, a missing or undecodable "Items" slot is overwritten at launch with the encoding of the loaded list. The model does not capture that write.
- Views.Filtered, Views.Grouping, Views.UniqueItems: strings are equal here only when their code points are equal (`seq<char>` equality). Swift's `String ==` and `String` dictionary keys use Unicode canonical equivalence, so "Caf\u{E9}" and "Cafe\u{301}" are one type or name in the app and two in the model. The model matches Swift only on strings normalised the same way. `ChartTitle`, `ChartField` and `Label` compare only with the literals "Personal", "Business", "name" and "type", so they are unaffected. No other string is canonically equivalent to these literals: the only non-ASCII characters whose canonical decomposition is entirely ASCII are U+212A (to K), U+037E (to ;) and U+1FEF (to `), and none of the literals contains K, ; or `.
- Observation (`@Observable`, `@State`) is not modelled. Only the stored values are.
- `isFiltering` is set by the buttons but never read by the screen. The model keeps it and proves it agrees with the selected type.
