/** The `DataTable` component (src/components/DataTable.tsx): its three state
    cells (sort key, direction, selected ids) as one immutable record, the
    header-click and checkbox-click transitions, the derived sorted rows, the
    selection callback payload and what the component renders. */
module DataTable {
  import opened JsValues
  import opened RowSort

  /** A column descriptor. `sortable` is an optional boolean prop. */
  datatype Column = Column(key: string, title: string, dataIndex: string, sortable: Option<bool>)

  /** The component's props; `hasOnRowSelect` says whether a selection callback was passed. */
  datatype Props = Props(
    data: seq<Row>,
    columns: seq<Column>,
    loading: Option<bool>,
    selectable: Option<bool>,
    hasOnRowSelect: bool)

  /** The three `useState` cells: the sort directive and the selection set. */
  datatype TableState = TableState(sortKey: Option<string>, asc: bool, selected: set<int>)

  /** The state of a freshly mounted table: no sort key, ascending, nothing selected. */
  const Initial := TableState(None, true, {})

  /** The arrow shown after a header title. */
  datatype Arrow = Up | Down

  datatype HeaderCell = HeaderCell(title: string, arrow: Option<Arrow>)

  /** A body row: the record it shows and, when the table is selectable, its checkbox state. */
  datatype BodyRow = BodyRow(row: Row, checked: Option<bool>)

  /** What the component returns: one of the two messages, or the table. */
  datatype View =
    | LoadingMessage
    | NoDataMessage
    | Table(selectColumn: bool, headers: seq<HeaderCell>, body: seq<BodyRow>)

  /** The result of a checkbox click: the new state and, when a callback is
      present, the rows passed to it. */
  datatype Toggled = Toggled(state: TableState, payload: Option<seq<Row>>)

  // ---------------------------------------------------------------------------
  // Sort directive

  /** `toggleSort(key)`: the active column flips direction; any other column
      becomes active, ascending. */
  function ToggleSort(st: TableState, key: string): (r: TableState)
    ensures r.sortKey == Some(key)
    ensures st.sortKey == Some(key) ==> r.asc == !st.asc
    ensures st.sortKey != Some(key) ==> r.asc
    ensures r.selected == st.selected
  {
    if st.sortKey == Some(key) then st.(asc := !st.asc)
    else st.(sortKey := Some(key), asc := true)
  }

  /** A click on a column header: only a sortable column reacts. */
  function ClickHeader(st: TableState, col: Column): (r: TableState)
    ensures !IsTrue(col.sortable) ==> r == st
    ensures IsTrue(col.sortable) ==> r == ToggleSort(st, col.key)
  {
    if IsTrue(col.sortable) then ToggleSort(st, col.key) else st
  }

  /** Clicking the active column twice restores the directive. */
  lemma ToggleSortActiveTwice(st: TableState, key: string)
    requires st.sortKey == Some(key)
    ensures ToggleSort(ToggleSort(st, key), key) == st
  {
  }

  /** Clicking a column and then a different column leaves the second one
      active and ascending, whatever came before. */
  lemma SwitchColumnResetsAscending(st: TableState, c: string, c': string)
    requires c != c'
    ensures ToggleSort(ToggleSort(st, c), c').sortKey == Some(c')
    ensures ToggleSort(ToggleSort(st, c), c').asc
  {
  }

  // ---------------------------------------------------------------------------
  // Derived sort

  /** The `if (sortKey)` test: a key is active only when present and non-empty. */
  predicate Active(sortKey: Option<string>) {
    Truthy(sortKey)
  }

  /** `sortedData`: the records themselves when no key is active, otherwise a
      sorted copy ordered by the field named by the key. */
  function SortedData(data: seq<Row>, st: TableState): (r: seq<Row>)
    ensures multiset(r) == multiset(data)
    ensures |r| == |data|
    ensures !Active(st.sortKey) ==> r == data
    ensures Active(st.sortKey) ==> Ordered(r, st.sortKey.value, st.asc)
  {
    assert |multiset(data)| == |data|;
    if Active(st.sortKey) then SortBy(data, st.sortKey.value, st.asc) else data
  }

  /** When the sort column holds values of one kind, the displayed rows are
      non-decreasing (ascending) or non-increasing (descending) across every
      pair of positions. */
  lemma SortedDataMonotone(data: seq<Row>, st: TableState)
    requires Active(st.sortKey) && Homogeneous(data, st.sortKey.value)
    ensures Sorted(SortedData(data, st), st.sortKey.value, st.asc)
  {
    var r := SortedData(data, st);
    HomogeneousPermutation(r, data, st.sortKey.value);
    OrderedHomogeneousIsSorted(r, st.sortKey.value, st.asc);
  }

  /** One click on a sortable column that is not active yields rows in
      ascending order of that column; a second click yields descending order. */
  lemma ClickTwiceReversesOrder(data: seq<Row>, st: TableState, col: Column)
    requires IsTrue(col.sortable) && |col.key| > 0
    requires st.sortKey != Some(col.key)
    ensures var once := ClickHeader(st, col);
      once.asc && Ordered(SortedData(data, once), col.key, true)
    ensures var twice := ClickHeader(ClickHeader(st, col), col);
      !twice.asc && Ordered(SortedData(data, twice), col.key, false)
  {
  }

  // ---------------------------------------------------------------------------
  // Row selection

  /** `newSelected`: the selection set with membership of `id` flipped. */
  function ToggleId(sel: set<int>, id: int): (r: set<int>)
    ensures id in r <==> id !in sel
    ensures forall x | x != id :: x in r <==> x in sel
  {
    if id in sel then sel - {id} else sel + {id}
  }

  /** `xs` can be obtained from `ys` by deleting elements: it keeps their order. */
  predicate IsSubsequence(xs: seq<Row>, ys: seq<Row>)
    decreases |ys|
  {
    if |xs| == 0 then true
    else if |ys| == 0 then false
    else if xs[0] == ys[0] then IsSubsequence(xs[1..], ys[1..])
    else IsSubsequence(xs, ys[1..])
  }

  /** `data.filter((d) => sel.has(d.id))`: the records whose id is selected,
      in their input order. */
  function SelectedRows(data: seq<Row>, sel: set<int>): (r: seq<Row>)
    ensures forall x :: multiset(r)[x] == (if x.id in sel then multiset(data)[x] else 0)
    ensures forall x :: x in r <==> x in data && x.id in sel
    ensures IsSubsequence(r, data)
    decreases |data|
  {
    if |data| == 0 then []
    else
      assert data == [data[0]] + data[1..];
      var rest := SelectedRows(data[1..], sel);
      if data[0].id in sel then
        assert ([data[0]] + rest)[1..] == rest;
        [data[0]] + rest
      else
        SubsequenceSkip(rest, data);
        rest
  }

  lemma SubsequenceSkip(xs: seq<Row>, ys: seq<Row>)
    requires |ys| > 0 && IsSubsequence(xs, ys[1..])
    ensures IsSubsequence(xs, ys)
    decreases |xs| + |ys|
  {
    if |xs| > 0 && xs[0] == ys[0] {
      SubsequenceDropHead(xs, ys[1..]);
    }
  }

  lemma SubsequenceDropHead(xs: seq<Row>, ys: seq<Row>)
    requires |xs| > 0 && IsSubsequence(xs, ys)
    ensures IsSubsequence(xs[1..], ys)
    decreases |xs| + |ys|
  {
    if xs[0] == ys[0] {
      SubsequenceSkip(xs[1..], ys);
    } else {
      SubsequenceDropHead(xs, ys[1..]);
      SubsequenceSkip(xs[1..], ys);
    }
  }

  /** `toggleRow(id)`: flips membership of `id`, keeps the sort directive,
      and hands the callback exactly the input records with a selected id, in
      input (not display) order. */
  function ToggleRow(p: Props, st: TableState, id: int): (r: Toggled)
    ensures r.state.sortKey == st.sortKey && r.state.asc == st.asc
    ensures id in r.state.selected <==> id !in st.selected
    ensures forall x | x != id :: x in r.state.selected <==> x in st.selected
    ensures r.payload.Some? <==> p.hasOnRowSelect
    ensures r.payload.Some? ==> IsSubsequence(r.payload.value, p.data)
    ensures r.payload.Some? ==>
      forall x :: multiset(r.payload.value)[x] ==
        (if x.id in r.state.selected then multiset(p.data)[x] else 0)
  {
    var selected := ToggleId(st.selected, id);
    var st' := st.(selected := selected);
    Toggled(st', if p.hasOnRowSelect then Some(SelectedRows(p.data, selected)) else None)
  }

  /** Clicking the same checkbox twice restores the selection. */
  lemma ToggleRowTwice(p: Props, st: TableState, id: int)
    ensures ToggleRow(p, ToggleRow(p, st, id).state, id).state == st
  {
    var s1 := ToggleRow(p, st, id).state;
    var s2 := ToggleRow(p, s1, id).state;
    assert s2.selected == st.selected;
  }

  /** Once every id has been clicked, the payload is the whole input. */
  lemma {:induction false} SelectedRowsAll(data: seq<Row>, sel: set<int>)
    requires forall i | 0 <= i < |data| :: data[i].id in sel
    ensures SelectedRows(data, sel) == data
    decreases |data|
  {
    if |data| > 0 {
      SelectedRowsAll(data[1..], sel);
    }
  }

  // ---------------------------------------------------------------------------
  // Rendering

  /** The arrow after a header title: shown on a sortable column whose key is
      the sort key, up when ascending. */
  function ArrowFor(col: Column, st: TableState): (r: Option<Arrow>)
    ensures r.Some? <==> IsTrue(col.sortable) && st.sortKey == Some(col.key)
    ensures r.Some? ==> (r.value == Up <==> st.asc)
  {
    if IsTrue(col.sortable) && st.sortKey == Some(col.key) then
      Some(if st.asc then Up else Down)
    else None
  }

  function Headers(cols: seq<Column>, st: TableState): (r: seq<HeaderCell>)
    ensures |r| == |cols|
    ensures forall i | 0 <= i < |cols| :: r[i] == HeaderCell(cols[i].title, ArrowFor(cols[i], st))
  {
    seq(|cols|, i requires 0 <= i < |cols| => HeaderCell(cols[i].title, ArrowFor(cols[i], st)))
  }

  function Body(rows: seq<Row>, selectable: bool, st: TableState): (r: seq<BodyRow>)
    ensures |r| == |rows|
    ensures forall i | 0 <= i < |rows| :: r[i].row == rows[i]
    ensures forall i | 0 <= i < |rows| ::
      r[i].checked == (if selectable then Some(rows[i].id in st.selected) else None)
  {
    seq(|rows|, i requires 0 <= i < |rows| =>
      BodyRow(rows[i], if selectable then Some(rows[i].id in st.selected) else None))
  }

  /** What the component renders: loading first, then the empty message, then
      the table of sorted rows. */
  function Render(p: Props, st: TableState): (v: View)
    ensures v.LoadingMessage? <==> IsTrue(p.loading)
    ensures v.NoDataMessage? <==> !IsTrue(p.loading) && |p.data| == 0
    ensures v.Table? <==> !IsTrue(p.loading) && |p.data| > 0
    ensures v.Table? ==> v.selectColumn == IsTrue(p.selectable)
    ensures v.Table? ==> |v.headers| == |p.columns|
    ensures v.Table? ==> forall i | 0 <= i < |p.columns| ::
      v.headers[i].title == p.columns[i].title && v.headers[i].arrow == ArrowFor(p.columns[i], st)
    ensures v.Table? ==> |v.body| == |p.data|
    ensures v.Table? ==> forall i | 0 <= i < |v.body| ::
      && v.body[i].row == SortedData(p.data, st)[i]
      && v.body[i].checked == (if IsTrue(p.selectable) then Some(v.body[i].row.id in st.selected) else None)
  {
    if IsTrue(p.loading) then LoadingMessage
    else if |p.data| == 0 then NoDataMessage
    else Table(IsTrue(p.selectable), Headers(p.columns, st), Body(SortedData(p.data, st), IsTrue(p.selectable), st))
  }

  /** The table shows every input record exactly once. */
  lemma TableShowsEveryRecord(p: Props, st: TableState)
    requires Render(p, st).Table?
    ensures var body := Render(p, st).body;
      multiset(seq(|body|, i requires 0 <= i < |body| => body[i].row)) == multiset(p.data)
  {
    var body := Render(p, st).body;
    var rows := seq(|body|, i requires 0 <= i < |body| => body[i].row);
    assert rows == SortedData(p.data, st);
  }

  /** A sortable column keyed "" can be clicked into the directive, and its
      header then shows the arrow; but "" is falsy, so the rows stay in input
      order. */
  lemma EmptyKeyShowsArrowUnsorted(p: Props, st: TableState, i: int)
    requires st.sortKey == Some("")
    requires !IsTrue(p.loading) && |p.data| > 0
    requires 0 <= i < |p.columns| && p.columns[i].key == "" && IsTrue(p.columns[i].sortable)
    ensures Render(p, st).headers[i].arrow.Some?
    ensures forall k | 0 <= k < |p.data| :: Render(p, st).body[k].row == p.data[k]
  {
  }

  /** The callback payload is computed from the input records, so it does not
      depend on the sort directive. */
  lemma PayloadIgnoresSortDirective(p: Props, st: TableState, id: int, key: Option<string>, asc: bool)
    ensures ToggleRow(p, st, id).payload == ToggleRow(p, st.(sortKey := key, asc := asc), id).payload
  {
  }

  // ---------------------------------------------------------------------------
  // The sample data of src/App.tsx as worked examples

  function Person(id: int, name: string): Row {
    Row(id, map["name" := Str(name)])
  }

  /** Sorting [{1, "A"}, {4, "v"}] by name: ascending keeps the order ("A" < "v"
      by character code), descending reverses it. */
  lemma SortByNameExample()
    ensures SortedData([Person(1, "A"), Person(4, "v")], TableState(Some("name"), true, {}))
         == [Person(1, "A"), Person(4, "v")]
    ensures SortedData([Person(1, "A"), Person(4, "v")], TableState(Some("name"), false, {}))
         == [Person(4, "v"), Person(1, "A")]
  {
    assert StrLess("A", "v");
    LessAsymmetric(Str("A"), Str("v"));
  }

  /** The four sample records of the demo page, by id and name. */
  function SampleData(): seq<Row> {
    [Person(1, "A"), Person(2, "B"), Person(3, "C"), Person(4, "v")]
  }

  lemma SampleDataFilteredToThree()
    ensures SelectedRows(SampleData(), {3}) == [Person(3, "C")]
  {
    var d := SampleData();
    var tail := [Person(3, "C"), Person(4, "v")];
    assert tail[1..] == [Person(4, "v")];
    assert SelectedRows([Person(4, "v")], {3}) == [];
    assert SelectedRows(tail, {3}) == [Person(3, "C")];
    assert d[1..] == [Person(2, "B")] + tail && d[1..][1..] == tail;
    assert SelectedRows(d[1..], {3}) == [Person(3, "C")];
  }

  /** Clicking the checkboxes of ids 1 and 3 selects exactly those ids. */
  lemma SelectOneThenThree(p: Props)
    ensures ToggleRow(p, ToggleRow(p, Initial, 1).state, 3).state == TableState(None, true, {1, 3})
  {
  }

  /** Selecting ids 1 and 3 and then deselecting 1 leaves only id 3 selected
      and passes the records with id 3. */
  lemma DeselectAfterTwoSelections(p: Props)
    requires p.hasOnRowSelect
    ensures ToggleRow(p, ToggleRow(p, ToggleRow(p, Initial, 1).state, 3).state, 1)
         == Toggled(TableState(None, true, {3}), Some(SelectedRows(p.data, {3})))
  {
    SelectOneThenThree(p);
    assert ToggleId({1, 3}, 1) == {3};
  }

  /** On the sample records, that payload is the single record with id 3. */
  lemma SelectionExample(p: Props)
    requires p.data == SampleData() && p.hasOnRowSelect
    ensures ToggleRow(p, ToggleRow(p, ToggleRow(p, Initial, 1).state, 3).state, 1).payload
         == Some([Person(3, "C")])
  {
    DeselectAfterTwoSelections(p);
    SampleDataFilteredToThree();
  }
}
