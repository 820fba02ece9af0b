/** The derived views of the expense screen: the category filter, the grouping behind the
    pie chart, the chart labels and the chart title. All of them are pure functions of the
    stored list and the view-mode values. */
module Views {
  import opened ExpenseItems

  /** The record field a chart groups and labels by. */
  datatype Field = ByType | ByName

  function Key(item: ExpenseItem, f: Field): (k: string)
  {
    match f
    case ByType => item.kind
    case ByName => item.name
  }

  /** The grouping field `uniqueItems` picks from `valueChart`: "type", nil and every
      other value group by type, only "name" groups by name. */
  function ChartField(valueChart: Option<string>): (f: Field)
    ensures f == ByName <==> valueChart == Some("name")
  {
    match valueChart
    case Some("type") => ByType
    case Some("name") => ByName
    case _ => ByType
  }

  /** `getLabel(for:)`: the legend label of a chart sector. It is written as its own switch
      in the app; its contract says it always shows the field the chart is grouped by. */
  function Label(item: ExpenseItem, valueChart: Option<string>): (r: string)
    ensures r == Key(item, ChartField(valueChart))
    ensures r == item.name <== valueChart == Some("name")
    ensures r == item.kind <== valueChart != Some("name")
  {
    match valueChart
    case Some("name") => item.name
    case Some("type") => item.kind
    case _ => item.kind
  }

  /** `a` is `b` with some elements left out, the rest in their order. */
  predicate IsSubsequence<T(==)>(a: seq<T>, b: seq<T>)
    decreases |b|
  {
    a == [] || (b != [] && ((a[0] == b[0] && IsSubsequence(a[1..], b[1..])) || IsSubsequence(a, b[1..])))
  }

  /** The records of `xs` whose `f` field is `k`, in their original order. */
  function Select(xs: seq<ExpenseItem>, f: Field, k: string): (r: seq<ExpenseItem>)
    ensures |r| <= |xs|
    ensures forall i :: 0 <= i < |r| ==> Key(r[i], f) == k
  {
    if xs == [] then []
    else (if Key(xs[0], f) == k then [xs[0]] else []) + Select(xs[1..], f, k)
  }

  /** `Select` keeps every record with the key as often as `xs` holds it. */
  lemma {:induction false} SelectKeepsMultiplicity(xs: seq<ExpenseItem>, f: Field, k: string, x: ExpenseItem)
    requires Key(x, f) == k
    ensures multiset(Select(xs, f, k))[x] == multiset(xs)[x]
    decreases |xs|
  {
    if xs != [] {
      assert xs == [xs[0]] + xs[1..];
      SelectKeepsMultiplicity(xs[1..], f, k, x);
    }
  }

  /** `Select` keeps the records it keeps in their order. */
  lemma {:induction false} SelectIsSubsequence(xs: seq<ExpenseItem>, f: Field, k: string)
    ensures IsSubsequence(Select(xs, f, k), xs)
    decreases |xs|
  {
    if xs != [] {
      SelectIsSubsequence(xs[1..], f, k);
      var rest := Select(xs[1..], f, k);
      if Key(xs[0], f) == k {
        assert ([xs[0]] + rest)[1..] == rest;
      } else {
        assert Select(xs, f, k) == rest;
      }
    }
  }

  /** Every record `Select` returns is a record of `xs`. */
  lemma SelectElementIsStored(xs: seq<ExpenseItem>, f: Field, k: string, x: ExpenseItem)
    requires x in Select(xs, f, k)
    ensures x in xs && Key(x, f) == k
  {
    var r := Select(xs, f, k);
    var i :| 0 <= i < |r| && r[i] == x;
    SelectKeepsMultiplicity(xs, f, k, x);
    assert x in multiset(r);
  }

  /** `filteredItems`: every record when no type is selected, otherwise only records of
      the selected type, never more than are stored. */
  function Filtered(items: seq<ExpenseItem>, selected: Option<string>): (r: seq<ExpenseItem>)
    ensures selected == None ==> r == items
    ensures selected.Some? ==> forall i :: 0 <= i < |r| ==> r[i].kind == selected.value
    ensures |r| <= |items|
  {
    match selected
    case None => items
    case Some(t) => Select(items, ByType, t)
  }

  /** With a type selected, `filteredItems` is exactly the subsequence of the stored
      records of that type: their order is kept, and each of them appears as often as it
      is stored. */
  lemma FilteredIsSubsequenceOfType(items: seq<ExpenseItem>, t: string)
    ensures IsSubsequence(Filtered(items, Some(t)), items)
    ensures forall x: ExpenseItem :: x.kind == t ==> multiset(Filtered(items, Some(t)))[x] == multiset(items)[x]
    ensures forall x :: x in Filtered(items, Some(t)) ==> x in items && x.kind == t
  {
    SelectIsSubsequence(items, ByType, t);
    forall x: ExpenseItem | x.kind == t ensures multiset(Filtered(items, Some(t)))[x] == multiset(items)[x] {
      SelectKeepsMultiplicity(items, ByType, t, x);
    }
    forall x | x in Filtered(items, Some(t)) ensures x in items && x.kind == t {
      SelectElementIsStored(items, ByType, t, x);
    }
  }

  /** Whatever the selection, `filteredItems` keeps the stored order: it is a subsequence of
      the stored list (with no type selected, the whole list). */
  lemma FilteredIsSubsequence(items: seq<ExpenseItem>, selected: Option<string>)
    ensures IsSubsequence(Filtered(items, selected), items)
  {
    match selected
    case None => SubsequenceOfItself(items);
    case Some(t) => SelectIsSubsequence(items, ByType, t);
  }

  lemma {:induction false} SubsequenceOfItself<T>(s: seq<T>)
    ensures IsSubsequence(s, s)
    decreases |s|
  {
    if s != [] {
      SubsequenceOfItself(s[1..]);
    }
  }

  /** The values of the `f` field that occur in `xs`. */
  function KeysOf(xs: seq<ExpenseItem>, f: Field): (ks: set<string>)
  {
    set x | x in xs :: Key(x, f)
  }

  lemma KeysOfSnoc(xs: seq<ExpenseItem>, x: ExpenseItem, f: Field)
    ensures KeysOf(xs + [x], f) == KeysOf(xs, f) + {Key(x, f)}
  {
    forall k | k in KeysOf(xs, f) ensures k in KeysOf(xs + [x], f) {
      var y :| y in xs && Key(y, f) == k;
      assert y in xs + [x];
    }
    assert x in xs + [x];
  }

  lemma {:induction false} SelectSnocAt(xs: seq<ExpenseItem>, x: ExpenseItem, f: Field, k: string)
    ensures Select(xs + [x], f, k) == Select(xs, f, k) + (if Key(x, f) == k then [x] else [])
    decreases |xs|
  {
    if xs == [] {
      assert [x][1..] == [];
    } else {
      var ys := xs + [x];
      assert ys[0] == xs[0];
      assert ys[1..] == xs[1..] + [x];
      var head := if Key(xs[0], f) == k then [xs[0]] else [];
      var tail := if Key(x, f) == k then [x] else [];
      SelectSnocAt(xs[1..], x, f, k);
      calc {
        Select(ys, f, k);
        head + Select(xs[1..] + [x], f, k);
        head + (Select(xs[1..], f, k) + tail);
        { assert head + (Select(xs[1..], f, k) + tail) == (head + Select(xs[1..], f, k)) + tail; }
        Select(xs, f, k) + tail;
      }
    }
  }

  lemma SelectOfAbsentKey(xs: seq<ExpenseItem>, f: Field, k: string)
    requires k !in KeysOf(xs, f)
    ensures Select(xs, f, k) == []
  {
    var r := Select(xs, f, k);
    if r != [] {
      SelectElementIsStored(xs, f, k, r[0]);
      assert false;
    }
  }

  /** `Dictionary(grouping:by:)`: every key that occurs in `xs`, mapped to the records with
      that key in their original order. It is built as the initializer builds it, one
      record at a time, each appended to its key's group. */
  function Grouping(xs: seq<ExpenseItem>, f: Field): (g: map<string, seq<ExpenseItem>>)
    ensures g.Keys == KeysOf(xs, f)
    ensures forall k :: k in g ==> g[k] != [] && g[k] == Select(xs, f, k)
    decreases |xs|
  {
    if xs == [] then map[]
    else
      var prefix, x := xs[..|xs| - 1], xs[|xs| - 1];
      assert xs == prefix + [x];
      var g0 := Grouping(prefix, f);
      var k := Key(x, f);
      GroupingStep(prefix, x, f, g0);
      g0[k := (if k in g0 then g0[k] else []) + [x]]
  }

  /** Appending one record to its key's group turns the grouping of `prefix` into the
      grouping of `prefix + [x]`. */
  lemma GroupingStep(prefix: seq<ExpenseItem>, x: ExpenseItem, f: Field, g0: map<string, seq<ExpenseItem>>)
    requires g0.Keys == KeysOf(prefix, f)
    requires forall k :: k in g0 ==> g0[k] != [] && g0[k] == Select(prefix, f, k)
    ensures var k := Key(x, f);
      var g := g0[k := (if k in g0 then g0[k] else []) + [x]];
      && g.Keys == KeysOf(prefix + [x], f)
      && forall k' :: k' in g ==> g[k'] != [] && g[k'] == Select(prefix + [x], f, k')
  {
    var k := Key(x, f);
    KeysOfSnoc(prefix, x, f);
    forall k' ensures Select(prefix + [x], f, k') == Select(prefix, f, k') + (if k == k' then [x] else []) {
      SelectSnocAt(prefix, x, f, k');
    }
    if k !in g0 {
      SelectOfAbsentKey(prefix, f, k);
    }
  }

  /** The distinct keys of `xs`, in the order of their first occurrence. It stands for the
      iteration order of the grouping dictionary, which Swift leaves unspecified. */
  function KeyOrder(xs: seq<ExpenseItem>, f: Field): (ks: seq<string>)
    ensures forall i, j :: 0 <= i < j < |ks| ==> ks[i] != ks[j]
    ensures forall k :: k in ks <==> k in KeysOf(xs, f)
    ensures |ks| == |KeysOf(xs, f)|
    decreases |xs|
  {
    if xs == [] then []
    else
      var prefix, x := xs[..|xs| - 1], xs[|xs| - 1];
      assert xs == prefix + [x];
      KeysOfSnoc(prefix, x, f);
      var ks := KeyOrder(prefix, f);
      if Key(x, f) in ks then
        assert KeysOf(xs, f) == KeysOf(prefix, f);
        ks
      else
        assert |KeysOf(prefix, f) + {Key(x, f)}| == |KeysOf(prefix, f)| + 1;
        ks + [Key(x, f)]
  }

  /** The position of the first record of `xs` whose `f` field is `k`; the group of `k`
      starts with that record. */
  function FirstIndex(xs: seq<ExpenseItem>, f: Field, k: string): (j: nat)
    requires k in KeysOf(xs, f)
    ensures j < |xs| && Key(xs[j], f) == k
    ensures forall i :: 0 <= i < j ==> Key(xs[i], f) != k
    ensures Select(xs, f, k) != [] && Select(xs, f, k)[0] == xs[j]
  {
    if Key(xs[0], f) == k then 0
    else
      var y :| y in xs && Key(y, f) == k;
      assert xs == [xs[0]] + xs[1..];
      assert y in xs[1..];
      1 + FirstIndex(xs[1..], f, k)
  }

  /** What `uniqueItems` promises of its result `r` for the list `xs` grouped by `f`:
      every element is the first record of `xs` with its key, no key occurs twice, and
      the keys of `r` are exactly the keys of `xs`. */
  predicate OneFirstPerKey(xs: seq<ExpenseItem>, f: Field, r: seq<ExpenseItem>)
  {
    && (forall i :: 0 <= i < |r| ==> Select(xs, f, Key(r[i], f)) != [] && r[i] == Select(xs, f, Key(r[i], f))[0])
    && (forall i, j :: 0 <= i < j < |r| ==> Key(r[i], f) != Key(r[j], f))
    && KeysOf(r, f) == KeysOf(xs, f)
  }

  /** `.values.compactMap { $0.first }` over the grouping dictionary, its values visited
      in the key order `order`: the first element of each group, an empty group giving
      nothing. When no group is empty, nothing is dropped and the result lines up with
      `order`. */
  function FirstOfEach(groups: map<string, seq<ExpenseItem>>, order: seq<string>): (r: seq<ExpenseItem>)
    requires forall k :: k in order ==> k in groups
    ensures |r| <= |order|
    ensures (forall k :: k in order ==> groups[k] != []) ==>
      |r| == |order| && forall i :: 0 <= i < |r| ==> r[i] == groups[order[i]][0]
  {
    if order == [] then []
    else
      var rest := FirstOfEach(groups, order[1..]);
      var group := groups[order[0]];
      if group == [] then rest else [group[0]] + rest
  }

  /** A record comes out of `compactMap { $0.first }` exactly when it heads a non-empty group
      whose key is in `order`: an empty group is skipped and the others are kept. */
  lemma {:induction false} FirstOfEachMembers(groups: map<string, seq<ExpenseItem>>, order: seq<string>, x: ExpenseItem)
    requires forall k :: k in order ==> k in groups
    ensures x in FirstOfEach(groups, order) <==> exists k :: k in order && groups[k] != [] && x == groups[k][0]
    decreases |order|
  {
    if order != [] {
      var rest := order[1..];
      FirstOfEachMembers(groups, rest, x);
      assert order == [order[0]] + rest;
      if exists k :: k in order && groups[k] != [] && x == groups[k][0] {
        var k :| k in order && groups[k] != [] && x == groups[k][0];
        if k != order[0] {
          assert k in rest;
        }
      }
      if x in FirstOfEach(groups, rest) {
        var k :| k in rest && groups[k] != [] && x == groups[k][0];
        assert k in order;
      }
    }
  }

  /** No group of the grouping dictionary is empty, so `compactMap` drops none of them. */
  lemma FirstsDropNoGroup(xs: seq<ExpenseItem>, f: Field)
    ensures |FirstOfEach(Grouping(xs, f), KeyOrder(xs, f))| == |KeyOrder(xs, f)|
  {
    var groups, order := Grouping(xs, f), KeyOrder(xs, f);
    assert forall k :: k in order ==> groups[k] != [];
  }

  lemma FirstOfGroupAt(xs: seq<ExpenseItem>, f: Field, i: nat)
    requires i < |KeyOrder(xs, f)|
    ensures var r := FirstOfEach(Grouping(xs, f), KeyOrder(xs, f));
      var k := KeyOrder(xs, f)[i];
      Key(r[i], f) == k && Select(xs, f, k) != [] && r[i] == Select(xs, f, k)[0]
  {
    var groups, order := Grouping(xs, f), KeyOrder(xs, f);
    assert forall k :: k in order ==> groups[k] != [];
    assert order[i] in groups;
    assert groups[order[i]][0] == Select(xs, f, order[i])[0];
  }

  lemma FirstsAreFirstOfTheirKey(xs: seq<ExpenseItem>, f: Field)
    ensures var r := FirstOfEach(Grouping(xs, f), KeyOrder(xs, f));
      forall i :: 0 <= i < |r| ==> Select(xs, f, Key(r[i], f)) != [] && r[i] == Select(xs, f, Key(r[i], f))[0]
  {
    var r := FirstOfEach(Grouping(xs, f), KeyOrder(xs, f));
    forall i | 0 <= i < |r|
      ensures Select(xs, f, Key(r[i], f)) != [] && r[i] == Select(xs, f, Key(r[i], f))[0]
    {
      FirstOfGroupAt(xs, f, i);
    }
  }

  lemma FirstsHaveDistinctKeys(xs: seq<ExpenseItem>, f: Field)
    ensures var r := FirstOfEach(Grouping(xs, f), KeyOrder(xs, f));
      forall i, j :: 0 <= i < j < |r| ==> Key(r[i], f) != Key(r[j], f)
  {
    var r := FirstOfEach(Grouping(xs, f), KeyOrder(xs, f));
    forall i, j | 0 <= i < j < |r| ensures Key(r[i], f) != Key(r[j], f) {
      FirstOfGroupAt(xs, f, i);
      FirstOfGroupAt(xs, f, j);
    }
  }

  lemma FirstsCoverAllKeys(xs: seq<ExpenseItem>, f: Field)
    ensures KeysOf(FirstOfEach(Grouping(xs, f), KeyOrder(xs, f)), f) == KeysOf(xs, f)
  {
    var order := KeyOrder(xs, f);
    var r := FirstOfEach(Grouping(xs, f), order);
    FirstsDropNoGroup(xs, f);
    forall i | 0 <= i < |r| ensures Key(r[i], f) == order[i] {
      FirstOfGroupAt(xs, f, i);
    }
    KeysOfAligned(r, order, KeysOf(xs, f), f);
  }

  /** A list whose keys, position by position, are a listing of the key set `ks` has
      exactly the keys `ks`. */
  lemma KeysOfAligned(r: seq<ExpenseItem>, order: seq<string>, ks: set<string>, f: Field)
    requires |r| == |order|
    requires forall i :: 0 <= i < |r| ==> Key(r[i], f) == order[i]
    requires forall k :: k in order <==> k in ks
    ensures KeysOf(r, f) == ks
  {
    forall k | k in KeysOf(r, f) ensures k in ks {
      var x :| x in r && Key(x, f) == k;
      var i :| 0 <= i < |r| && r[i] == x;
      assert order[i] == k;
    }
    forall k | k in ks ensures k in KeysOf(r, f) {
      var i :| 0 <= i < |order| && order[i] == k;
      assert r[i] in r;
    }
  }

  /** `uniqueItems`: the first record of each group of `filtered`, grouped by the field
      `valueChart` selects. Amounts are not summed: every element is a stored record. */
  function UniqueItems(filtered: seq<ExpenseItem>, valueChart: Option<string>): (r: seq<ExpenseItem>)
    ensures OneFirstPerKey(filtered, ChartField(valueChart), r)
    ensures |r| == |KeysOf(filtered, ChartField(valueChart))|
  {
    var f := ChartField(valueChart);
    FirstsAreFirstOfTheirKey(filtered, f);
    FirstsHaveDistinctKeys(filtered, f);
    FirstsCoverAllKeys(filtered, f);
    FirstOfEach(Grouping(filtered, f), KeyOrder(filtered, f))
  }

  lemma {:induction false} DistinctMultiplicity<T>(s: seq<T>, x: T)
    requires forall i, j :: 0 <= i < j < |s| ==> s[i] != s[j]
    ensures multiset(s)[x] == if x in s then 1 else 0
    decreases |s|
  {
    if s != [] {
      assert s == [s[0]] + s[1..];
      DistinctMultiplicity(s[1..], x);
    }
  }

  /** Swift leaves the order of `uniqueItems` open. Whatever order a result comes in,
      any two lists that meet its contract hold the same records: they are permutations
      of each other. */
  lemma UniqueItemsDeterminedUpToOrder(xs: seq<ExpenseItem>, f: Field, r1: seq<ExpenseItem>, r2: seq<ExpenseItem>)
    requires OneFirstPerKey(xs, f, r1) && OneFirstPerKey(xs, f, r2)
    ensures multiset(r1) == multiset(r2)
  {
    forall x | x in r1 ensures x in r2 {
      ElementOfOther(xs, f, r1, r2, x);
    }
    forall x | x in r2 ensures x in r1 {
      ElementOfOther(xs, f, r2, r1, x);
    }
    forall x ensures multiset(r1)[x] == multiset(r2)[x] {
      DistinctMultiplicity(r1, x);
      DistinctMultiplicity(r2, x);
    }
  }

  lemma ElementOfOther(xs: seq<ExpenseItem>, f: Field, r1: seq<ExpenseItem>, r2: seq<ExpenseItem>, x: ExpenseItem)
    requires OneFirstPerKey(xs, f, r1) && OneFirstPerKey(xs, f, r2)
    requires x in r1
    ensures x in r2
  {
    var i :| 0 <= i < |r1| && r1[i] == x;
    assert Key(x, f) in KeysOf(r2, f);
    var y :| y in r2 && Key(y, f) == Key(x, f);
    var j :| 0 <= j < |r2| && r2[j] == y;
  }

  /** `chartTitle`: the caption in the middle of the pie chart. */
  function ChartTitle(selected: Option<string>): (r: string)
    ensures r == "" <==> selected.Some? && selected.value != "Personal" && selected.value != "Business"
    ensures r != "" ==> r == if selected == None then "Both" else selected.value
  {
    match selected
    case Some("Personal") => "Personal"
    case Some("Business") => "Business"
    case None => "Both"
    case _ => ""
  }
}
