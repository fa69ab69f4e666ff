/** The table-level part of process_excel_file (chunker.py): header-row detection, the
    subheaders above the first header row, the data map of each data row, and the chunk
    records written for a sheet and for a workbook. */
module ChunkBuilder {
  import Wrappers
  import opened Strings
  import opened Dicts
  import opened Cells
  import opened Rows
  import opened Headers
  import opened Segmenter

  /** One chunk record, as json.dump writes it: source_file, sheet_name, excel_row_number,
      global_header, subheaders and data (an insertion-ordered dict). */
  datatype Chunk = Chunk(
    sourceFile: string,
    sheetName: string,
    excelRowNumber: nat,
    globalHeader: seq<string>,
    subheaders: seq<string>,
    data: Dict<Cell>)

  /** A worksheet of the workbook: its name and its rows (iter_rows(values_only=True)). */
  datatype Sheet = Sheet(name: string, rows: seq<Row>)

  // ---------------------------------------------------------------------------------------
  // Header rows of a table
  // ---------------------------------------------------------------------------------------

  /** One step of a loop that appends head to what it has built: what is built plus what is
      still to come stays the whole. */
  lemma AppendStep<T>(before: seq<T>, head: seq<T>, rest: seq<T>, whole: seq<T>)
    requires before + (head + rest) == whole
    ensures (before + head) + rest == whole
  {
    assert (before + head) + rest == before + (head + rest);
  }

  /** col_header_rows: the rows of the table that are column header rows, in order. */
  function HeaderRows(t: Table): (hs: seq<Row>)
    ensures |hs| <= |t|
  {
    if t == [] then []
    else (if IsColumnHeaderRow(t[0].row) then [t[0].row] else []) + HeaderRows(t[1..])
  }

  /** Every collected row is a header row, and none is collected exactly when the table has no
      header row. */
  lemma {:induction false} HeaderRowsSpec(t: Table)
    ensures forall k :: 0 <= k < |HeaderRows(t)| ==> IsColumnHeaderRow(HeaderRows(t)[k])
    ensures HeaderRows(t) == [] <==> forall k :: 0 <= k < |t| ==> !IsColumnHeaderRow(t[k].row)
  {
    if t != [] {
      HeaderRowsSpec(t[1..]);
      assert forall k :: 1 <= k < |t| ==> t[k] == t[1..][k - 1];
    }
  }

  /** The rows of es that satisfy p, in order, and how many there are. */
  function Selected(p: Row -> bool, es: seq<Entry>): seq<Row> {
    if es == [] then [] else (if p(es[0].row) then [es[0].row] else []) + Selected(p, es[1..])
  }

  function SelectedCount(p: Row -> bool, es: seq<Entry>): nat {
    if es == [] then 0 else (if p(es[0].row) then 1 else 0) + SelectedCount(p, es[1..])
  }

  /** A row satisfying p with n such rows above it is entry n of the selection. */
  lemma {:induction false} SelectedAt(p: Row -> bool, es: seq<Entry>, k: nat)
    requires k < |es| && p(es[k].row)
    ensures SelectedCount(p, es[..k]) < |Selected(p, es)|
    ensures Selected(p, es)[SelectedCount(p, es[..k])] == es[k].row
    decreases k
  {
    var tail := es[1..];
    var head: seq<Row> := if p(es[0].row) then [es[0].row] else [];
    var all := head + Selected(p, tail);
    assert Selected(p, es) == all;
    if k == 0 {
      assert es[..0] == [];
    } else {
      assert tail[k - 1] == es[k];
      SelectedAt(p, tail, k - 1);
      var c := SelectedCount(p, tail[..k - 1]);
      assert es[..k][0] == es[0] && es[..k][1..] == tail[..k - 1];
      assert SelectedCount(p, es[..k]) == |head| + c;
      assert all[|head| + c] == Selected(p, tail)[c];
    }
  }

  lemma {:induction false} SelectedLength(p: Row -> bool, es: seq<Entry>)
    ensures |Selected(p, es)| == SelectedCount(p, es)
  {
    if es != [] {
      SelectedLength(p, es[1..]);
    }
  }

  /** col_header_rows is the selection of the header rows. */
  lemma {:induction false} HeaderRowsSelected(t: Table)
    ensures HeaderRows(t) == Selected(IsColumnHeaderRow, t)
  {
    if t != [] {
      HeaderRowsSelected(t[1..]);
    }
  }

  /** The number of header rows among es. */
  function HeaderCount(es: seq<Entry>): nat {
    SelectedCount(IsColumnHeaderRow, es)
  }

  /** col_header_rows holds every header row of the table, once each and in table order: as
      many entries as header rows, and the header row with n header rows above it at
      position n. */
  lemma HeaderRowsComplete(t: Table)
    ensures |HeaderRows(t)| == HeaderCount(t)
    ensures forall k :: 0 <= k < |t| && IsColumnHeaderRow(t[k].row) ==>
      HeaderCount(t[..k]) < |HeaderRows(t)| && HeaderRows(t)[HeaderCount(t[..k])] == t[k].row
  {
    HeaderRowsSelected(t);
    SelectedLength(IsColumnHeaderRow, t);
    forall k | 0 <= k < |t| && IsColumnHeaderRow(t[k].row)
      ensures HeaderCount(t[..k]) < |HeaderRows(t)| && HeaderRows(t)[HeaderCount(t[..k])] == t[k].row
    {
      SelectedAt(IsColumnHeaderRow, t, k);
    }
  }

  /** first_header_idx: the least index of a header row, or |t| when there is none. */
  function FirstHeaderIndex(t: Table): (f: nat)
    ensures f <= |t|
    ensures f < |t| ==> IsColumnHeaderRow(t[f].row)
  {
    if t == [] then 0
    else if IsColumnHeaderRow(t[0].row) then 0
    else 1 + FirstHeaderIndex(t[1..])
  }

  /** No row before the first header index is a header row. */
  lemma {:induction false} FirstHeaderIndexMinimal(t: Table)
    ensures forall k :: 0 <= k < FirstHeaderIndex(t) ==> !IsColumnHeaderRow(t[k].row)
  {
    if t != [] && !IsColumnHeaderRow(t[0].row) {
      FirstHeaderIndexMinimal(t[1..]);
      assert forall k :: 1 <= k < |t| ==> t[k] == t[1..][k - 1];
    }
  }

  /** With some header row collected, the first header index lies inside the table. */
  lemma {:induction false} FirstHeaderIndexInside(t: Table)
    ensures HeaderRows(t) != [] ==> FirstHeaderIndex(t) < |t|
  {
    if t != [] && !IsColumnHeaderRow(t[0].row) {
      FirstHeaderIndexInside(t[1..]);
      assert HeaderRows(t) == HeaderRows(t[1..]);
    }
  }

  /** The two facts together, as the table loop uses them. */
  lemma FirstHeaderIndexSpec(t: Table)
    ensures forall k :: 0 <= k < FirstHeaderIndex(t) ==> !IsColumnHeaderRow(t[k].row)
    ensures HeaderRows(t) != [] ==> FirstHeaderIndex(t) < |t|
  {
    FirstHeaderIndexMinimal(t);
    FirstHeaderIndexInside(t);
  }

  // ---------------------------------------------------------------------------------------
  // Subheaders
  // ---------------------------------------------------------------------------------------

  /** table[max(0, f - 2):f]: the (at most two) rows just above the first header row. */
  function Window(t: Table, f: nat): (w: seq<Entry>)
    requires f <= |t|
    ensures |w| <= 2
  {
    t[(if f >= 2 then f - 2 else 0)..f]
  }

  /** A row above the header that becomes a subheader: at most one numeric cell, and text. */
  predicate IsSubheader(r: Row) {
    CountNumeric(r) <= 1 && RowToText(r) != ""
  }

  /** The texts of the subheader rows among es, in order. */
  function SubheadersOf(es: seq<Entry>): (subs: seq<string>)
    ensures |subs| <= |es|
  {
    if es == [] then []
    else (if IsSubheader(es[0].row) then [RowToText(es[0].row)] else []) + SubheadersOf(es[1..])
  }

  function Subheaders(t: Table, f: nat): seq<string>
    requires f <= |t|
  {
    SubheadersOf(Window(t, f))
  }

  /** The subheaders of rows k to f: that of row k, when it is one, then those of the rest. */
  lemma SubheadersOfStep(t: Table, k: nat, f: nat)
    requires k < f <= |t|
    ensures SubheadersOf(t[k..f]) ==
      (if IsSubheader(t[k].row) then [RowToText(t[k].row)] else []) + SubheadersOf(t[k + 1..f])
  {
    assert t[k..f][0] == t[k] && t[k..f][1..] == t[k + 1..f];
  }

  /** The loop that fills subheaders. */
  method CollectSubheaders(t: Table, f: nat) returns (subs: seq<string>)
    requires f <= |t|
    ensures subs == Subheaders(t, f)
  {
    var start := if f >= 2 then f - 2 else 0;
    ghost var w := Window(t, f);
    subs := [];
    var k := start;
    while k < f
      invariant start <= k <= f
      invariant subs + SubheadersOf(t[k..f]) == SubheadersOf(w)
    {
      SubheadersOfStep(t, k, f);
      var r := t[k].row;
      if CountNumeric(r) <= 1 {
        var txt := RowToText(r);
        if txt != "" {
          subs := subs + [txt];
        }
      }
      k := k + 1;
    }
    assert t[f..f] == [];
    assert SubheadersOf(w) == Subheaders(t, f);
  }

  /** Every subheader is non-empty text of a row with at most one numeric cell. */
  lemma {:induction false} SubheadersOfSound(es: seq<Entry>)
    ensures forall i :: 0 <= i < |SubheadersOf(es)| ==>
      SubheadersOf(es)[i] != "" &&
      exists k :: 0 <= k < |es| && CountNumeric(es[k].row) <= 1 && SubheadersOf(es)[i] == RowToText(es[k].row)
    decreases |es|
  {
    if es != [] {
      SubheadersOfSound(es[1..]);
      var tail := SubheadersOf(es[1..]);
      var head := if IsSubheader(es[0].row) then [RowToText(es[0].row)] else [];
      assert SubheadersOf(es) == head + tail;
      forall i | |head| <= i < |SubheadersOf(es)|
        ensures exists k :: 0 <= k < |es| && CountNumeric(es[k].row) <= 1 && SubheadersOf(es)[i] == RowToText(es[k].row)
      {
        var k' :| 0 <= k' < |es[1..]| && CountNumeric(es[1..][k'].row) <= 1 && tail[i - |head|] == RowToText(es[1..][k'].row);
        assert es[k' + 1] == es[1..][k'];
      }
    }
  }

  /** Row k of the window is row start + k of the table, above the first header row. */
  lemma WindowAt(t: Table, f: nat, k: nat)
    requires f <= |t| && k < |Window(t, f)|
    ensures (if f >= 2 then f - 2 else 0) + k < f
    ensures Window(t, f)[k] == t[(if f >= 2 then f - 2 else 0) + k]
  {
  }

  /** The subheader of a row of the window, when it is one. */
  function SubheaderOfRow(t: Table, k: nat, f: nat): seq<string>
    requires f <= |t|
  {
    if k < f && IsSubheader(t[k].row) then [RowToText(t[k].row)] else []
  }

  /** The subheaders are those of the two rows above the first header row, upper row first,
      each row giving its text when it has at most one numeric cell and some text. */
  lemma SubheadersWindow(t: Table, f: nat)
    requires f <= |t|
    ensures var start := if f >= 2 then f - 2 else 0;
      Subheaders(t, f) == SubheaderOfRow(t, start, f) + SubheaderOfRow(t, start + 1, f)
  {
    var w := Window(t, f);
    assert Subheaders(t, f) == SubheadersOf(w);
    if f == 1 {
      assert w == [t[0]] && w[1..] == [];
      assert SubheadersOf(w) == SubheaderOfRow(t, 0, f) + SubheadersOf(w[1..]);
    } else if f >= 2 {
      assert w == [t[f - 2], t[f - 1]];
      var w1 := w[1..];
      assert w1 == [t[f - 1]] && w1[1..] == [];
      assert SubheadersOf(w1) == SubheaderOfRow(t, f - 1, f) + SubheadersOf(w1[1..]);
      assert SubheadersOf(w) == SubheaderOfRow(t, f - 2, f) + SubheadersOf(w1);
    }
  }

  /** Each subheader is the non-empty text of one of the at most two rows above the first
      header row that has at most one numeric cell. */
  lemma SubheadersSound(t: Table, f: nat)
    requires f <= |t|
    ensures |Subheaders(t, f)| <= 2
    ensures forall i :: 0 <= i < |Subheaders(t, f)| ==>
      Subheaders(t, f)[i] != "" &&
      exists k :: (if f >= 2 then f - 2 else 0) <= k < f && CountNumeric(t[k].row) <= 1 &&
        Subheaders(t, f)[i] == RowToText(t[k].row)
  {
    var start := if f >= 2 then f - 2 else 0;
    var w := Window(t, f);
    SubheadersOfSound(w);
    assert Subheaders(t, f) == SubheadersOf(w);
    forall i | 0 <= i < |Subheaders(t, f)|
      ensures exists k :: start <= k < f && CountNumeric(t[k].row) <= 1 && Subheaders(t, f)[i] == RowToText(t[k].row)
    {
      var k' :| 0 <= k' < |w| && CountNumeric(w[k'].row) <= 1 && Subheaders(t, f)[i] == RowToText(w[k'].row);
      WindowAt(t, f, k');
    }
  }

  /** Every row of the window with at most one numeric cell and some text gives a subheader,
      and two subheaders come in the order of their rows. */
  lemma SubheadersComplete(t: Table, f: nat)
    requires f <= |t|
    ensures forall k :: (if f >= 2 then f - 2 else 0) <= k < f && IsSubheader(t[k].row) ==>
      RowToText(t[k].row) in Subheaders(t, f)
    ensures |Subheaders(t, f)| == 2 ==> Subheaders(t, f) == [RowToText(t[f - 2].row), RowToText(t[f - 1].row)]
  {
    SubheadersWindow(t, f);
    var start := if f >= 2 then f - 2 else 0;
    var a := SubheaderOfRow(t, start, f);
    var b := SubheaderOfRow(t, start + 1, f);
    ghost var subs := Subheaders(t, f);
    assert subs == a + b;
    forall k | start <= k < f && IsSubheader(t[k].row) ensures RowToText(t[k].row) in subs {
      if k == start {
        assert a == [RowToText(t[k].row)];
        assert subs[0] == RowToText(t[k].row);
      } else {
        assert k == start + 1 && b == [RowToText(t[k].row)];
        assert subs[|a|] == RowToText(t[k].row);
      }
    }
    if |subs| == 2 {
      assert |a| == 1 && |b| == 1;
      assert start + 1 < f && start == f - 2;
      assert a == [RowToText(t[f - 2].row)] && b == [RowToText(t[f - 1].row)];
    }
  }

  /** At most two subheaders, exactly the non-empty texts of the rows with at most one numeric
      cell among the at most two rows above the first header row, in row order; with the
      header in the first row there are none. */
  lemma SubheadersSpec(t: Table, f: nat)
    requires f <= |t|
    ensures |Subheaders(t, f)| <= 2
    ensures forall i :: 0 <= i < |Subheaders(t, f)| ==>
      Subheaders(t, f)[i] != "" &&
      exists k :: (if f >= 2 then f - 2 else 0) <= k < f && CountNumeric(t[k].row) <= 1 &&
        Subheaders(t, f)[i] == RowToText(t[k].row)
    ensures f == 0 ==> Subheaders(t, f) == []
    ensures forall k :: (if f >= 2 then f - 2 else 0) <= k < f && IsSubheader(t[k].row) ==>
      RowToText(t[k].row) in Subheaders(t, f)
    ensures |Subheaders(t, f)| == 2 ==> Subheaders(t, f) == [RowToText(t[f - 2].row), RowToText(t[f - 1].row)]
  {
    SubheadersSound(t, f);
    SubheadersComplete(t, f);
  }

  // ---------------------------------------------------------------------------------------
  // The data map of one row
  // ---------------------------------------------------------------------------------------

  /** i < len(columns) and columns[i]: the column has a name, and the name is not "". */
  predicate Keyed(columns: seq<ColumnName>, i: nat) {
    i < |columns| && columns[i].Some? && columns[i].value != ""
  }

  /** Cell i of r goes into the data map. */
  predicate Stored(columns: seq<ColumnName>, r: Row, i: nat) {
    i < |r| && Keyed(columns, i) && r[i] != None
  }

  /** chunk["data"]: for each cell, left to right, whose column has a name and which is not
      None, data[name] = normalize_value(cell). */
  function DataOf(columns: seq<ColumnName>, r: Row): Dict<Cell> {
    if r == [] then []
    else
      var d := DataOf(columns, r[..|r| - 1]);
      var i := |r| - 1;
      if Keyed(columns, i) && r[i] != None then Store(d, columns[i].value, NormalizeValue(r[i])) else d
  }

  /** The loop that fills chunk["data"]. */
  method BuildDataMap(columns: seq<ColumnName>, r: Row) returns (data: Dict<Cell>)
    ensures data == DataOf(columns, r)
  {
    data := [];
    var i := 0;
    while i < |r|
      invariant 0 <= i <= |r|
      invariant data == DataOf(columns, r[..i])
    {
      assert r[..i + 1][..i] == r[..i];
      var v := r[i];
      if i < |columns| && columns[i].Some? && columns[i].value != "" && v != None {
        data := Store(data, columns[i].value, NormalizeValue(v));
      }
      i := i + 1;
    }
    assert r[..|r|] == r;
  }

  /** Some stored cell of r has column name k. */
  predicate StoredName(columns: seq<ColumnName>, r: Row, k: string) {
    exists i :: 0 <= i < |r| && Stored(columns, r, i) && columns[i].value == k
  }

  /** A name is stored in r exactly when it is stored in all but the last cell or by the last. */
  lemma StoredNameLast(columns: seq<ColumnName>, r: Row, k: string)
    requires r != []
    ensures StoredName(columns, r, k) <==>
      StoredName(columns, r[..|r| - 1], k) || (Stored(columns, r, |r| - 1) && columns[|r| - 1].value == k)
  {
    var init := r[..|r| - 1];
    if StoredName(columns, r, k) {
      var i :| 0 <= i < |r| && Stored(columns, r, i) && columns[i].value == k;
      if i < |init| {
        assert init[i] == r[i];
        assert Stored(columns, init, i);
      }
    }
    if StoredName(columns, init, k) {
      var i :| 0 <= i < |init| && Stored(columns, init, i) && columns[i].value == k;
      assert init[i] == r[i];
      assert Stored(columns, r, i);
    }
  }

  /** Each key of the data map occurs once. */
  lemma {:induction false} DataKeysUnique(columns: seq<ColumnName>, r: Row)
    ensures UniqueKeys(DataOf(columns, r))
  {
    if r != [] {
      var init := r[..|r| - 1];
      var last := |r| - 1;
      DataKeysUnique(columns, init);
      if Stored(columns, r, last) {
        StoreSpec(DataOf(columns, init), columns[last].value, NormalizeValue(r[last]));
      }
    }
  }

  /** The keys of the data map are exactly the names of the columns of the stored cells. */
  lemma {:induction false} DataKeys(columns: seq<ColumnName>, r: Row)
    ensures forall k :: HasKey(DataOf(columns, r), k) <==> StoredName(columns, r, k)
  {
    if r != [] {
      var init := r[..|r| - 1];
      var last := |r| - 1;
      DataKeys(columns, init);
      var d := DataOf(columns, init);
      assert r[last] == r[|r| - 1];
      forall k ensures HasKey(DataOf(columns, r), k) <==> StoredName(columns, r, k) {
        StoredNameLast(columns, r, k);
        if Stored(columns, r, last) {
          StoreSpec(d, columns[last].value, NormalizeValue(r[last]));
        } else {
          assert DataOf(columns, r) == d;
        }
      }
    }
  }

  /** The value under a column name is normalize_value of the last stored cell with that name:
      a later column with the same name overwrites an earlier one. */
  lemma {:induction false} DataValues(columns: seq<ColumnName>, r: Row, i: nat)
    requires Stored(columns, r, i)
    requires forall j :: i < j < |r| && Stored(columns, r, j) ==> columns[j].value != columns[i].value
    ensures HasKey(DataOf(columns, r), columns[i].value)
    ensures Get(DataOf(columns, r), columns[i].value) == NormalizeValue(r[i])
  {
    var init := r[..|r| - 1];
    var last := |r| - 1;
    var d := DataOf(columns, init);
    assert forall j :: 0 <= j < |init| ==> init[j] == r[j];
    if Stored(columns, r, last) {
      StoreSpec(d, columns[last].value, NormalizeValue(r[last]));
    }
    if i < last {
      DataValues(columns, init, i);
    }
  }

  /** The data map is empty exactly when no cell is stored. */
  lemma DataEmpty(columns: seq<ColumnName>, r: Row)
    ensures DataOf(columns, r) == [] <==> forall i :: 0 <= i < |r| ==> !Stored(columns, r, i)
  {
    DataKeys(columns, r);
    if DataOf(columns, r) != [] {
      assert HasKey(DataOf(columns, r), DataOf(columns, r)[0].0);
    } else {
      forall i | 0 <= i < |r| ensures !Stored(columns, r, i) {
        if Stored(columns, r, i) {
          assert !HasKey(DataOf(columns, r), columns[i].value);
        }
      }
    }
  }

  // ---------------------------------------------------------------------------------------
  // Chunks of a table, a sheet and a workbook
  // ---------------------------------------------------------------------------------------

  /** The chunk written for one row below the first header row, if any: only data rows with a
      non-empty data map produce one. */
  function RowChunk(file: string, sheet: string, gh: seq<string>, subs: seq<string>,
                    columns: seq<ColumnName>, e: Entry): seq<Chunk>
  {
    if !IsDataRow(e.row) then []
    else
      var d := DataOf(columns, e.row);
      if d == [] then [] else [Chunk(file, sheet, e.excelRow, gh, subs, d)]
  }

  function ChunksFrom(file: string, sheet: string, gh: seq<string>, subs: seq<string>,
                      columns: seq<ColumnName>, es: seq<Entry>): seq<Chunk>
  {
    if es == [] then []
    else RowChunk(file, sheet, gh, subs, columns, es[0]) + ChunksFrom(file, sheet, gh, subs, columns, es[1..])
  }

  /** The chunks of one table: none without a header row; otherwise one per data row after the
      first header row whose data map is not empty. */
  function TableChunks(file: string, sheet: string, gh: seq<string>, t: Table): seq<Chunk> {
    var hs := HeaderRows(t);
    if hs == [] then []
    else
      FirstHeaderIndexInside(t);
      var f := FirstHeaderIndex(t);
      ChunksFrom(file, sheet, gh, Subheaders(t, f), MergedColumns(hs), t[f + 1..])
  }

  function TablesChunks(file: string, sheet: string, gh: seq<string>, ts: seq<Table>): seq<Chunk> {
    if ts == [] then []
    else TableChunks(file, sheet, gh, ts[0]) + TablesChunks(file, sheet, gh, ts[1..])
  }

  /** The chunks of one worksheet. */
  function SheetChunks(file: string, s: Sheet): seq<Chunk> {
    TablesChunks(file, s.name, GlobalHeaderOf(s.rows), Tables(s.rows))
  }

  /** Some sheet of the workbook has this name. */
  predicate SheetNamed(sheets: seq<Sheet>, name: string) {
    exists k :: 0 <= k < |sheets| && sheets[k].name == name
  }

  /** The chunks of a workbook, sheet by sheet in wb.sheetnames order. */
  function WorkbookChunks(file: string, sheets: seq<Sheet>): seq<Chunk> {
    if sheets == [] then []
    else WorkbookChunks(file, sheets[..|sheets| - 1]) + SheetChunks(file, sheets[|sheets| - 1])
  }

  /** The body of the data-row loop: a data row gets a chunk when its data map is not empty. */
  method EmitRow(file: string, sheet: string, gh: seq<string>, subs: seq<string>,
                 columns: seq<ColumnName>, e: Entry) returns (rc: seq<Chunk>)
    ensures rc == RowChunk(file, sheet, gh, subs, columns, e)
  {
    rc := [];
    if IsDataRow(e.row) {
      var data := BuildDataMap(columns, e.row);
      if data != [] {
        rc := [Chunk(file, sheet, e.excelRow, gh, subs, data)];
      }
    }
  }

  /** The chunks of the entries from k on: those of entry k, then those of the rest. */
  lemma ChunksFromStep(file: string, sheet: string, gh: seq<string>, subs: seq<string>,
                       columns: seq<ColumnName>, es: seq<Entry>, k: nat)
    requires k < |es|
    ensures ChunksFrom(file, sheet, gh, subs, columns, es[k..]) ==
      RowChunk(file, sheet, gh, subs, columns, es[k]) + ChunksFrom(file, sheet, gh, subs, columns, es[k + 1..])
  {
    assert es[k..][0] == es[k] && es[k..][1..] == es[k + 1..];
  }

  /** The data-row loop of one table. */
  method ProcessTable(file: string, sheet: string, gh: seq<string>, t: Table) returns (chunks: seq<Chunk>)
    ensures chunks == TableChunks(file, sheet, gh, t)
  {
    var hs := HeaderRows(t);
    if hs == [] {
      return [];
    }
    var columns := MergeColumnHeaders(hs);
    FirstHeaderIndexInside(t);
    var f := FirstHeaderIndex(t);
    var subs := CollectSubheaders(t, f);
    ghost var es := t[f + 1..];
    chunks := [];
    var k := f + 1;
    while k < |t|
      invariant f + 1 <= k <= |t|
      invariant chunks + ChunksFrom(file, sheet, gh, subs, columns, t[k..]) == ChunksFrom(file, sheet, gh, subs, columns, es)
    {
      ChunksFromStep(file, sheet, gh, subs, columns, t, k);
      var rc := EmitRow(file, sheet, gh, subs, columns, t[k]);
      AppendStep(chunks, rc, ChunksFrom(file, sheet, gh, subs, columns, t[k + 1..]), ChunksFrom(file, sheet, gh, subs, columns, es));
      chunks := chunks + rc;
      k := k + 1;
    }
    assert t[k..] == [];
  }

  /** The sheet loop body: global header, table split, then each table in turn. */
  method ProcessSheet(file: string, s: Sheet) returns (chunks: seq<Chunk>)
    ensures chunks == SheetChunks(file, s)
  {
    var gh := GlobalHeader(s.rows);
    var tables := SplitTables(s.rows);
    chunks := [];
    var i := 0;
    while i < |tables|
      invariant 0 <= i <= |tables|
      invariant chunks + TablesChunks(file, s.name, gh, tables[i..]) == TablesChunks(file, s.name, gh, tables)
    {
      assert tables[i..][0] == tables[i] && tables[i..][1..] == tables[i + 1..];
      var tc := ProcessTable(file, s.name, gh, tables[i]);
      AppendStep(chunks, tc, TablesChunks(file, s.name, gh, tables[i + 1..]), TablesChunks(file, s.name, gh, tables));
      chunks := chunks + tc;
      i := i + 1;
    }
    assert tables[i..] == [];
  }

  /** The chunks of the first i + 1 sheets: those of the first i, then those of sheet i. */
  lemma WorkbookChunksStep(file: string, sheets: seq<Sheet>, i: nat)
    requires i < |sheets|
    ensures WorkbookChunks(file, sheets[..i + 1]) == WorkbookChunks(file, sheets[..i]) + SheetChunks(file, sheets[i])
  {
    assert sheets[..i + 1][..i] == sheets[..i];
    assert sheets[..i + 1][i] == sheets[i];
  }

  /** process_excel_file without its I/O: the chunks it writes, how many, and whether the
      output directory survives (it is removed when no chunk was written). */
  method ProcessExcelFile(file: string, sheets: seq<Sheet>) returns (chunks: seq<Chunk>, chunksWritten: nat, keepDir: bool)
    ensures chunks == WorkbookChunks(file, sheets)
    ensures chunksWritten == |chunks|
    ensures keepDir <==> chunksWritten > 0
  {
    chunks := [];
    chunksWritten := 0;
    var i := 0;
    while i < |sheets|
      invariant 0 <= i <= |sheets|
      invariant chunksWritten == |chunks|
      invariant chunks == WorkbookChunks(file, sheets[..i])
    {
      WorkbookChunksStep(file, sheets, i);
      var sc := ProcessSheet(file, sheets[i]);
      chunks := chunks + sc;
      chunksWritten := chunksWritten + |sc|;
      i := i + 1;
    }
    assert sheets[..|sheets|] == sheets;
    keepDir := chunksWritten != 0;
  }

  // ---------------------------------------------------------------------------------------
  // Properties of the emitted chunks
  // ---------------------------------------------------------------------------------------

  /** ch is the chunk of entry es[k]: a data row whose data map is not empty. */
  predicate ChunkOfEntry(file: string, sheet: string, gh: seq<string>, subs: seq<string>,
                         columns: seq<ColumnName>, e: Entry, ch: Chunk)
  {
    ch == Chunk(file, sheet, e.excelRow, gh, subs, DataOf(columns, e.row))
    && IsDataRow(e.row) && ch.data != []
  }

  /** Every chunk comes from one of the entries. */
  lemma {:induction false} ChunksFromSound(file: string, sheet: string, gh: seq<string>, subs: seq<string>,
                                           columns: seq<ColumnName>, es: seq<Entry>)
    ensures forall i :: 0 <= i < |ChunksFrom(file, sheet, gh, subs, columns, es)| ==>
      (exists k :: 0 <= k < |es| &&
        ChunkOfEntry(file, sheet, gh, subs, columns, es[k], ChunksFrom(file, sheet, gh, subs, columns, es)[i]))
    decreases |es|
  {
    if es == [] {
      assert ChunksFrom(file, sheet, gh, subs, columns, es) == [];
    } else {
      var tail := ChunksFrom(file, sheet, gh, subs, columns, es[1..]);
      var head := RowChunk(file, sheet, gh, subs, columns, es[0]);
      ChunksFromSound(file, sheet, gh, subs, columns, es[1..]);
      var cs := ChunksFrom(file, sheet, gh, subs, columns, es);
      assert cs == head + tail;
      forall i | 0 <= i < |cs|
        ensures exists k :: 0 <= k < |es| && ChunkOfEntry(file, sheet, gh, subs, columns, es[k], cs[i])
      {
        if i < |head| {
          assert cs[i] == head[0];
          assert ChunkOfEntry(file, sheet, gh, subs, columns, es[0], cs[i]);
        } else {
          assert cs[i] == tail[i - |head|];
          var k' :| 0 <= k' < |es[1..]| && ChunkOfEntry(file, sheet, gh, subs, columns, es[1..][k'], tail[i - |head|]);
          assert es[k' + 1] == es[1..][k'];
        }
      }
    }
  }

  /** Every data row among the entries whose data map is not empty gives a chunk. */
  lemma {:induction false} ChunksFromComplete(file: string, sheet: string, gh: seq<string>, subs: seq<string>,
                                              columns: seq<ColumnName>, es: seq<Entry>)
    ensures forall k :: 0 <= k < |es| && IsDataRow(es[k].row) && DataOf(columns, es[k].row) != [] ==>
      Chunk(file, sheet, es[k].excelRow, gh, subs, DataOf(columns, es[k].row)) in ChunksFrom(file, sheet, gh, subs, columns, es)
    decreases |es|
  {
    if es != [] {
      var tail := ChunksFrom(file, sheet, gh, subs, columns, es[1..]);
      var head := RowChunk(file, sheet, gh, subs, columns, es[0]);
      ChunksFromComplete(file, sheet, gh, subs, columns, es[1..]);
      assert ChunksFrom(file, sheet, gh, subs, columns, es) == head + tail;
      forall k | 1 <= k < |es| && IsDataRow(es[k].row) && DataOf(columns, es[k].row) != []
        ensures Chunk(file, sheet, es[k].excelRow, gh, subs, DataOf(columns, es[k].row)) in head + tail
      {
        assert es[1..][k - 1] == es[k];
      }
    }
  }

  /** The chunks of a table come from the data rows after the first header row, each with a
      non-empty data map built from the merged column names, and carry the table's
      subheaders; a table without a header row has none. */
  lemma TableChunksSound(file: string, sheet: string, gh: seq<string>, t: Table)
    ensures HeaderRows(t) == [] ==> TableChunks(file, sheet, gh, t) == []
    ensures HeaderRows(t) != [] ==>
      var f := FirstHeaderIndex(t);
      forall i :: 0 <= i < |TableChunks(file, sheet, gh, t)| ==>
        exists k :: f < k < |t| &&
          ChunkOfEntry(file, sheet, gh, Subheaders(t, f), MergedColumns(HeaderRows(t)), t[k], TableChunks(file, sheet, gh, t)[i])
  {
    var hs := HeaderRows(t);
    if hs != [] {
      FirstHeaderIndexInside(t);
      var f := FirstHeaderIndex(t);
      var columns := MergedColumns(hs);
      var subs := Subheaders(t, f);
      var es := t[f + 1..];
      ChunksFromSound(file, sheet, gh, subs, columns, es);
      var cs := TableChunks(file, sheet, gh, t);
      forall i | 0 <= i < |cs|
        ensures exists k :: f < k < |t| && ChunkOfEntry(file, sheet, gh, subs, columns, t[k], cs[i])
      {
        var k' :| 0 <= k' < |es| && ChunkOfEntry(file, sheet, gh, subs, columns, es[k'], cs[i]);
        assert es[k'] == t[f + 1 + k'];
      }
    }
  }

  /** Every data row after the first header row of a table whose data map is not empty gives
      a chunk of the table. */
  lemma TableChunksComplete(file: string, sheet: string, gh: seq<string>, t: Table)
    ensures HeaderRows(t) != [] ==>
      var f := FirstHeaderIndex(t);
      var columns := MergedColumns(HeaderRows(t));
      forall k :: f < k < |t| && IsDataRow(t[k].row) && DataOf(columns, t[k].row) != [] ==>
        Chunk(file, sheet, t[k].excelRow, gh, Subheaders(t, f), DataOf(columns, t[k].row)) in TableChunks(file, sheet, gh, t)
  {
    var hs := HeaderRows(t);
    if hs != [] {
      FirstHeaderIndexInside(t);
      var f := FirstHeaderIndex(t);
      var columns := MergedColumns(hs);
      var subs := Subheaders(t, f);
      var es := t[f + 1..];
      ChunksFromComplete(file, sheet, gh, subs, columns, es);
      var cs := TableChunks(file, sheet, gh, t);
      forall k | f < k < |t| && IsDataRow(t[k].row) && DataOf(columns, t[k].row) != []
        ensures Chunk(file, sheet, t[k].excelRow, gh, subs, DataOf(columns, t[k].row)) in cs
      {
        assert es[k - f - 1] == t[k];
      }
    }
  }

  /** An emitted chunk's row is a data row, so it is neither a header row nor a fund row, nor
      empty. */
  lemma EmittedRowIsNoHeader(file: string, sheet: string, gh: seq<string>, subs: seq<string>,
                             columns: seq<ColumnName>, e: Entry, ch: Chunk)
    requires ChunkOfEntry(file, sheet, gh, subs, columns, e, ch)
    ensures !IsColumnHeaderRow(e.row) && !IsEmptyRow(e.row) && !LooksLikeFundRow(e.row)
  {
    HeaderRowIsNotDataRow(e.row);
    DataRowIsNotEmpty(e.row);
  }

  /** Row numbers of a list of chunks rise strictly. */
  predicate RowsIncreasing(cs: seq<Chunk>) {
    forall i, j :: 0 <= i < j < |cs| ==> cs[i].excelRowNumber < cs[j].excelRowNumber
  }

  /** Two rising lists, the first between lo and a bound and the second above the bound, rise
      together and stay at or above lo. */
  lemma RowsIncreasingAppend(a: seq<Chunk>, b: seq<Chunk>, lo: nat, bound: nat)
    requires RowsIncreasing(a) && RowsIncreasing(b) && lo <= bound
    requires forall i :: 0 <= i < |a| ==> lo <= a[i].excelRowNumber <= bound
    requires forall j :: 0 <= j < |b| ==> bound < b[j].excelRowNumber
    ensures RowsIncreasing(a + b)
    ensures forall i :: 0 <= i < |a + b| ==> lo <= (a + b)[i].excelRowNumber
  {
    forall i, j | 0 <= i < j < |a + b|
      ensures (a + b)[i].excelRowNumber < (a + b)[j].excelRowNumber
    {
      if j < |a| {
        assert (a + b)[i] == a[i] && (a + b)[j] == a[j];
      } else if i < |a| {
        assert (a + b)[i] == a[i] && (a + b)[j] == b[j - |a|];
      } else {
        assert (a + b)[i] == b[i - |a|] && (a + b)[j] == b[j - |a|];
      }
    }
    forall i | 0 <= i < |a + b| ensures lo <= (a + b)[i].excelRowNumber {
      if i < |a| {
        assert (a + b)[i] == a[i];
      } else {
        assert (a + b)[i] == b[i - |a|];
      }
    }
  }

  /** Entries with strictly rising row numbers between lo and hi give chunks whose row numbers
      rise strictly and stay between lo and hi. */
  lemma {:induction false} ChunksFromIncreasing(file: string, sheet: string, gh: seq<string>, subs: seq<string>,
                                                columns: seq<ColumnName>, es: seq<Entry>, lo: nat, hi: nat)
    requires StrictlyIncreasing(es)
    requires forall k :: 0 <= k < |es| ==> lo <= es[k].excelRow <= hi
    ensures RowsIncreasing(ChunksFrom(file, sheet, gh, subs, columns, es))
    ensures forall i :: 0 <= i < |ChunksFrom(file, sheet, gh, subs, columns, es)| ==>
      lo <= ChunksFrom(file, sheet, gh, subs, columns, es)[i].excelRowNumber <= hi
    decreases |es|
  {
    if es != [] {
      assert forall k :: 0 <= k < |es[1..]| ==> es[1..][k] == es[k + 1];
      ChunksFromIncreasing(file, sheet, gh, subs, columns, es[1..], es[0].excelRow + 1, hi);
    }
  }

  /** Within a table of consecutive rows, the chunks' row numbers rise strictly and stay
      within the table's first and last row. */
  lemma TableChunksIncreasing(file: string, sheet: string, gh: seq<string>, t: Table)
    requires |t| > 0 && Consecutive(t, First(t))
    ensures RowsIncreasing(TableChunks(file, sheet, gh, t))
    ensures forall i :: 0 <= i < |TableChunks(file, sheet, gh, t)| ==>
      First(t) <= TableChunks(file, sheet, gh, t)[i].excelRowNumber <= Last(t)
  {
    var hs := HeaderRows(t);
    if hs != [] {
      FirstHeaderIndexInside(t);
      var f := FirstHeaderIndex(t);
      var es := t[f + 1..];
      assert forall k :: 0 <= k < |es| ==> es[k] == t[f + 1 + k];
      ChunksFromIncreasing(file, sheet, gh, Subheaders(t, f), MergedColumns(hs), es, First(t), Last(t));
    }
  }

  /** Tables that are blocks of consecutive rows, each one starting after the one before ends. */
  predicate TablesOrdered(ts: seq<Table>) {
    && (forall i :: 0 <= i < |ts| ==> |ts[i]| > 0 && Consecutive(ts[i], First(ts[i])))
    && (forall i :: 0 <= i < |ts| - 1 ==> First(ts[i + 1]) > Last(ts[i]))
  }

  /** Dropping the first of ordered tables leaves ordered tables, which start after it ends. */
  lemma TablesOrderedTail(ts: seq<Table>)
    requires ts != [] && TablesOrdered(ts)
    ensures TablesOrdered(ts[1..])
    ensures |ts[0]| > 0 && Consecutive(ts[0], First(ts[0])) && First(ts[0]) <= Last(ts[0])
    ensures ts[1..] != [] ==> First(ts[1..][0]) > Last(ts[0])
  {
    var rest := ts[1..];
    forall i | 0 <= i < |rest| ensures |rest[i]| > 0 && Consecutive(rest[i], First(rest[i])) {
      assert rest[i] == ts[i + 1];
    }
    forall i | 0 <= i < |rest| - 1 ensures First(rest[i + 1]) > Last(rest[i]) {
      assert rest[i] == ts[i + 1] && rest[i + 1] == ts[i + 2];
    }
    assert ts[0][|ts[0]| - 1].excelRow == First(ts[0]) + (|ts[0]| - 1);
  }

  /** Tables that follow each other with rising row numbers give chunks whose row numbers rise
      strictly across the tables, from the first table's first row on. */
  lemma {:induction false} TablesChunksIncreasing(file: string, sheet: string, gh: seq<string>, ts: seq<Table>)
    requires TablesOrdered(ts)
    ensures RowsIncreasing(TablesChunks(file, sheet, gh, ts))
    ensures ts != [] ==> forall i :: 0 <= i < |TablesChunks(file, sheet, gh, ts)| ==>
      First(ts[0]) <= TablesChunks(file, sheet, gh, ts)[i].excelRowNumber
  {
    if ts != [] {
      var rest := ts[1..];
      TablesOrderedTail(ts);
      var head := TableChunks(file, sheet, gh, ts[0]);
      var tail := TablesChunks(file, sheet, gh, rest);
      TableChunksIncreasing(file, sheet, gh, ts[0]);
      TablesChunksIncreasing(file, sheet, gh, rest);
      if rest == [] {
        assert tail == [];
      }
      RowsIncreasingAppend(head, tail, First(ts[0]), Last(ts[0]));
      assert TablesChunks(file, sheet, gh, ts) == head + tail;
    }
  }

  /** Within a sheet, the chunks' row numbers rise strictly, from row 3 on. */
  lemma SheetChunksIncreasing(file: string, s: Sheet)
    ensures RowsIncreasing(SheetChunks(file, s))
    ensures forall i :: 0 <= i < |SheetChunks(file, s)| ==> SheetChunks(file, s)[i].excelRowNumber >= 3
  {
    var ts := Tables(s.rows);
    TablesSpec(s.rows);
    TablesChunksIncreasing(file, s.name, GlobalHeaderOf(s.rows), ts);
    if ts != [] {
      assert ts[0][0] in Flatten(ts) by {
        assert Flatten(ts) == ts[0] + Flatten(ts[1..]);
      }
    }
  }

  /** f"{sheet_name}_row_{excel_row}.json": the file a chunk is written to. */
  function ChunkFileName(ch: Chunk): string {
    ch.sheetName + "_row_" + NatToString(ch.excelRowNumber) + ".json"
  }

  /** Within one sheet, the file name tells the row. */
  lemma FileNameInjective(a: Chunk, b: Chunk)
    requires a.sheetName == b.sheetName && ChunkFileName(a) == ChunkFileName(b)
    ensures a.excelRowNumber == b.excelRowNumber
  {
    var p := a.sheetName + "_row_";
    var na := NatToString(a.excelRowNumber);
    var nb := NatToString(b.excelRowNumber);
    assert ChunkFileName(a) == p + na + ".json";
    assert ChunkFileName(b) == p + nb + ".json";
    assert |na| == |nb|;
    assert na == ChunkFileName(a)[|p|..|p| + |na|];
    assert nb == ChunkFileName(b)[|p|..|p| + |nb|];
    NatToStringInjective(a.excelRowNumber, b.excelRowNumber);
  }

  /** No two chunks of a sheet are written to the same file, so none overwrites another. */
  lemma SheetFileNamesDistinct(file: string, s: Sheet)
    ensures forall i, j :: 0 <= i < j < |SheetChunks(file, s)| ==>
      ChunkFileName(SheetChunks(file, s)[i]) != ChunkFileName(SheetChunks(file, s)[j])
  {
    SheetChunksIncreasing(file, s);
    var cs := SheetChunks(file, s);
    SheetChunksNamed(file, s);
    forall i, j | 0 <= i < j < |cs| ensures ChunkFileName(cs[i]) != ChunkFileName(cs[j]) {
      if ChunkFileName(cs[i]) == ChunkFileName(cs[j]) {
        FileNameInjective(cs[i], cs[j]);
      }
    }
  }

  /** Every chunk of a run of tables names the file and the sheet, carries the global header,
      and has a non-empty data map. */
  lemma {:induction false} TablesChunksNamed(file: string, sheet: string, gh: seq<string>, ts: seq<Table>)
    ensures forall i :: 0 <= i < |TablesChunks(file, sheet, gh, ts)| ==>
      TablesChunks(file, sheet, gh, ts)[i].sourceFile == file &&
      TablesChunks(file, sheet, gh, ts)[i].sheetName == sheet &&
      TablesChunks(file, sheet, gh, ts)[i].globalHeader == gh &&
      TablesChunks(file, sheet, gh, ts)[i].data != []
  {
    if ts != [] {
      TablesChunksNamed(file, sheet, gh, ts[1..]);
      var t := ts[0];
      TableChunksSound(file, sheet, gh, t);
    }
  }

  /** Every chunk of a sheet names the file and the sheet, carries the sheet's global header,
      and has a non-empty data map. */
  lemma SheetChunksNamed(file: string, s: Sheet)
    ensures forall i :: 0 <= i < |SheetChunks(file, s)| ==>
      SheetChunks(file, s)[i].sourceFile == file &&
      SheetChunks(file, s)[i].sheetName == s.name &&
      SheetChunks(file, s)[i].globalHeader == GlobalHeaderOf(s.rows) &&
      SheetChunks(file, s)[i].data != []
  {
    TablesChunksNamed(file, s.name, GlobalHeaderOf(s.rows), Tables(s.rows));
  }

  /** A chunk written for this workbook: it names the file and one of the sheets, and its data
      map is not empty. */
  predicate FromWorkbook(file: string, sheets: seq<Sheet>, c: Chunk) {
    c.sourceFile == file && c.data != [] && SheetNamed(sheets, c.sheetName)
  }

  /** Chunk i of a workbook names the workbook and one of its sheets, with a non-empty data
      map. */
  lemma {:induction false} WorkbookChunkNamed(file: string, sheets: seq<Sheet>, i: nat)
    requires i < |WorkbookChunks(file, sheets)|
    ensures FromWorkbook(file, sheets, WorkbookChunks(file, sheets)[i])
    decreases |sheets|
  {
    var init := sheets[..|sheets| - 1];
    var a := WorkbookChunks(file, init);
    var b := SheetChunks(file, sheets[|sheets| - 1]);
    assert WorkbookChunks(file, sheets) == a + b;
    if i < |a| {
      WorkbookChunkNamed(file, init, i);
      var k :| 0 <= k < |init| && init[k].name == a[i].sheetName;
      assert sheets[k] == init[k];
    } else {
      SheetChunksNamed(file, sheets[|sheets| - 1]);
      assert b[i - |a|].sheetName == sheets[|sheets| - 1].name;
    }
  }

  /** Every chunk of a workbook names the workbook and one of its sheets, with a non-empty
      data map. */
  lemma WorkbookChunksNamed(file: string, sheets: seq<Sheet>)
    ensures forall i :: 0 <= i < |WorkbookChunks(file, sheets)| ==> FromWorkbook(file, sheets, WorkbookChunks(file, sheets)[i])
  {
    forall i | 0 <= i < |WorkbookChunks(file, sheets)|
      ensures FromWorkbook(file, sheets, WorkbookChunks(file, sheets)[i])
    {
      WorkbookChunkNamed(file, sheets, i);
    }
  }
}
