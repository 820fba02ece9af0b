/** The state of the expense screen (`ContentView`) without its rendering: the store it
    owns, the three view-mode fields its buttons set, and row deletion. */
module Screen {
  import opened ExpenseItems
  import opened Persistence
  import opened Views
  import opened Removal

  /** The view-mode values the screen can reach: filtering exactly when a type is selected,
      grouping by name exactly when a type is selected, and only the two types the buttons
      offer. */
  predicate ReachableMode(selectedType: Option<string>, isFiltering: bool, valueChart: Option<string>)
  {
    && isFiltering == selectedType.Some?
    && (valueChart == Some("name") <==> selectedType.Some?)
    && (selectedType == None || selectedType == Some("Personal") || selectedType == Some("Business"))
  }

  class ContentView {
    const expenses: Expenses
    /** The `type` state: the selected expense type, nil for both. */
    var selectedType: Option<string>
    var isFiltering: bool
    var valueChart: Option<string>

    ghost predicate Valid()
      reads this
    {
      ReachableMode(selectedType, isFiltering, valueChart)
    }

    /** A fresh screen: it creates its store, which loads the saved list, and starts with
        no type selected, no filtering and no chart field. */
    constructor (defaults: Defaults, codec: Codec)
      ensures fresh(expenses)
      ensures expenses.defaults == defaults && expenses.codec == codec
      ensures expenses.items == Loaded(old(defaults.slots), codec)
      ensures defaults.slots == old(defaults.slots)
      ensures selectedType == None && !isFiltering && valueChart == None
      ensures Valid()
    {
      expenses := new Expenses(defaults, codec);
      selectedType := None;
      isFiltering := false;
      valueChart := None;
    }

    /** The "Personal" button. */
    method SelectPersonal()
      modifies this
      ensures isFiltering && selectedType == Some("Personal") && valueChart == Some("name")
      ensures Valid()
    {
      isFiltering := true;
      selectedType := Some("Personal");
      valueChart := Some("name");
    }

    /** The "Business" button. */
    method SelectBusiness()
      modifies this
      ensures isFiltering && selectedType == Some("Business") && valueChart == Some("name")
      ensures Valid()
    {
      isFiltering := true;
      selectedType := Some("Business");
      valueChart := Some("name");
    }

    /** The "Both" button. */
    method SelectBoth()
      modifies this
      ensures !isFiltering && selectedType == None && valueChart == Some("type")
      ensures Valid()
    {
      isFiltering := false;
      selectedType := None;
      valueChart := Some("type");
    }

    /** `removeItems(at:)`, the list's delete action. The offsets are positions in the
        displayed `filteredItems`, but they are applied to the whole stored list, as the
        app does; the change is then persisted. `remove(atOffsets:)` is taken to trap on
        an offset past the end, so every offset must name a stored record. */
    method RemoveItems(offsets: set<nat>)
      requires forall o :: o in offsets ==> o < |expenses.items|
      modifies expenses, expenses.defaults
      ensures expenses.items == RemoveAtOffsets(old(expenses.items), offsets)
      ensures |expenses.items| == |old(expenses.items)| - |offsets|
      ensures multiset(expenses.items) + multiset(AtOffsets(old(expenses.items), offsets)) == multiset(old(expenses.items))
      ensures expenses.defaults.slots == Persisted(old(expenses.defaults.slots), expenses.codec, expenses.items)
    {
      RemovalLength(expenses.items, offsets);
      RemovalPartitions(expenses.items, offsets);
      expenses.SetItems(RemoveAtOffsets(expenses.items, offsets));
    }
  }

  /** Whatever button was pressed last, the chart title is never empty. */
  lemma ReachableTitleIsNeverEmpty(selectedType: Option<string>, isFiltering: bool, valueChart: Option<string>)
    requires ReachableMode(selectedType, isFiltering, valueChart)
    ensures ChartTitle(selectedType) in {"Both", "Personal", "Business"}
  {
  }

  /** The screen object keeps `Valid()` from its constructor through every button, so its
      title is never empty and its chart field follows the selection. */
  lemma ScreenTitleNeverEmpty(cv: ContentView)
    requires cv.Valid()
    ensures ChartTitle(cv.selectedType) in {"Both", "Personal", "Business"}
    ensures ChartField(cv.valueChart) == if cv.selectedType.Some? then ByName else ByType
  {
    ReachableTitleIsNeverEmpty(cv.selectedType, cv.isFiltering, cv.valueChart);
    ReachableChartField(cv.selectedType, cv.isFiltering, cv.valueChart);
  }

  /** In every reachable mode the chart groups, and labels, by name when a type is
      selected and by type otherwise. */
  lemma ReachableChartField(selectedType: Option<string>, isFiltering: bool, valueChart: Option<string>)
    requires ReachableMode(selectedType, isFiltering, valueChart)
    ensures ChartField(valueChart) == if selectedType.Some? then ByName else ByType
  {
  }

  /** The pie chart in a reachable mode: one sector per distinct name among the records of
      the selected type, or one per distinct type when no type is selected; each sector is
      a stored record of the selected type, labelled by the field it was grouped by. */
  lemma ChartSectors(items: seq<ExpenseItem>, selectedType: Option<string>, isFiltering: bool, valueChart: Option<string>)
    requires ReachableMode(selectedType, isFiltering, valueChart)
    ensures var shown := Filtered(items, selectedType);
      var sectors := UniqueItems(shown, valueChart);
      var f := if selectedType.Some? then ByName else ByType;
      && |sectors| == |KeysOf(shown, f)|
      && (forall i :: 0 <= i < |sectors| ==> sectors[i] in items && Label(sectors[i], valueChart) == Key(sectors[i], f))
      && (selectedType.Some? ==> forall i :: 0 <= i < |sectors| ==> sectors[i].kind == selectedType.value)
  {
    var shown := Filtered(items, selectedType);
    var sectors := UniqueItems(shown, valueChart);
    var f := ChartField(valueChart);
    forall i | 0 <= i < |sectors| ensures sectors[i] in shown && sectors[i] in items {
      var k := Key(sectors[i], f);
      assert sectors[i] in Select(shown, f, k);
      SelectElementIsStored(shown, f, k, sectors[i]);
      if selectedType.Some? {
        FilteredIsSubsequenceOfType(items, selectedType.value);
      }
    }
  }

  /** Offsets of displayed rows are always offsets into the stored list too, so the delete
      action never traps; the row shown at offset `o` is `Filtered(items, selected)[o]`, but
      the record deleted is `items[o]`. */
  lemma DisplayedOffsetsAreStoredOffsets(items: seq<ExpenseItem>, selected: Option<string>, offsets: set<nat>)
    requires forall o :: o in offsets ==> o < |Filtered(items, selected)|
    ensures forall o :: o in offsets ==> o < |items|
    ensures AtOffsets(items, offsets) == AtOffsets(Filtered(items, selected), offsets) <== selected == None
  {
  }

  /** The mismatch between displayed and stored positions. With a type selected and a
      stored first record of another type, deleting the first displayed row deletes that
      hidden first record, and the record the user swiped stays. */
  lemma {:induction false} DeleteUnderFilterRemovesHiddenRecord(items: seq<ExpenseItem>, t: string)
    requires items != [] && items[0].kind != t
    requires Filtered(items, Some(t)) != []
    ensures items[0] !in Filtered(items, Some(t))
    ensures RemoveAtOffsets(items, {0}) == items[1..]
    ensures Filtered(items, Some(t))[0] in RemoveAtOffsets(items, {0})
  {
    var shown := Filtered(items, Some(t));
    FilteredIsSubsequenceOfType(items, t);
    var after := RemoveAtOffsets(items, {0});
    assert CountBelow({0}, |items|) == 1 by {
      CountBelowCountsAll({0}, |items|);
    }
    forall i | 1 <= i < |items| ensures after[i - 1] == items[i] {
      assert CountBelow({0}, i) == 1 by {
        CountBelowCountsAll({0}, i);
      }
      SurvivorPosition(items, {0}, i);
    }
    assert after == items[1..];
    assert shown[0] in items && shown[0] != items[0];
  }

  /** A concrete instance: "Rent" (Business) stored before "Coffee" (Personal). With the
      Personal filter on, the only row shows Coffee; deleting that row deletes Rent. */
  lemma SwipingCoffeeDeletesRent(rentId: Uuid, coffeeId: Uuid)
    ensures var rent := ExpenseItem(rentId, "Rent", "Business", 1200.0);
      var coffee := ExpenseItem(coffeeId, "Coffee", "Personal", 3.5);
      Filtered([rent, coffee], Some("Personal")) == [coffee]
      && RemoveAtOffsets([rent, coffee], {0}) == [coffee]
  {
    var rent := ExpenseItem(rentId, "Rent", "Business", 1200.0);
    var coffee := ExpenseItem(coffeeId, "Coffee", "Personal", 3.5);
    assert [rent, coffee][1..] == [coffee] && [coffee][1..] == [];
    assert Select([coffee], ByType, "Personal") == [coffee];
    DeleteUnderFilterRemovesHiddenRecord([rent, coffee], "Personal");
  }
}
