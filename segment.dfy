/** The sheet-level part of process_excel_file (chunker.py): the global header taken from the
    first two rows, and the hard split of the remaining rows into tables at empty rows. */
module Segmenter {
  import opened Cells
  import opened Rows

  /** A worksheet row together with its 1-based Excel row number. */
  datatype Entry = Entry(excelRow: nat, row: Row)

  /** A table: a list of (excel_row, row) pairs. */
  type Table = seq<Entry>

  // ---------------------------------------------------------------------------------------
  // Global header
  // ---------------------------------------------------------------------------------------

  /** The text of row i when it exists and is not "". */
  function HeaderLine(rows: seq<Row>, i: nat): seq<string> {
    if i < |rows| && RowToText(rows[i]) != "" then [RowToText(rows[i])] else []
  }

  /** The global header: the texts of rows 0 and 1, each when it is not "". */
  function GlobalHeaderOf(rows: seq<Row>): seq<string> {
    HeaderLine(rows, 0) + HeaderLine(rows, 1)
  }

  /** The loop over i in (0, 1) that fills global_header. */
  method GlobalHeader(rows: seq<Row>) returns (gh: seq<string>)
    ensures gh == GlobalHeaderOf(rows)
  {
    gh := [];
    var i := 0;
    while i < 2
      invariant 0 <= i <= 2
      invariant gh == if i == 0 then [] else if i == 1 then HeaderLine(rows, 0) else GlobalHeaderOf(rows)
    {
      if i < |rows| {
        var txt := RowToText(rows[i]);
        if txt != "" {
          gh := gh + [txt];
        }
      }
      i := i + 1;
    }
  }

  /** The global header has at most two entries, none of them "", each the text of row 0 or
      row 1, in that order; rows from index 2 on never contribute. */
  lemma GlobalHeaderSpec(rows: seq<Row>)
    ensures |GlobalHeaderOf(rows)| <= 2
    ensures forall k :: 0 <= k < |GlobalHeaderOf(rows)| ==> GlobalHeaderOf(rows)[k] != ""
    ensures |GlobalHeaderOf(rows)| == 2 ==>
      GlobalHeaderOf(rows) == [RowToText(rows[0]), RowToText(rows[1])]
    ensures |GlobalHeaderOf(rows)| == 1 ==>
      GlobalHeaderOf(rows)[0] == RowToText(rows[0]) || GlobalHeaderOf(rows)[0] == RowToText(rows[1])
    ensures |rows| >= 2 ==> GlobalHeaderOf(rows) == GlobalHeaderOf(rows[..2])
  {
    if |rows| >= 2 {
      assert rows[..2][0] == rows[0] && rows[..2][1] == rows[1];
    }
  }

  // ---------------------------------------------------------------------------------------
  // Table split
  // ---------------------------------------------------------------------------------------

  /** enumerate(rows[2:], start=3) */
  function Body(rows: seq<Row>): (es: seq<Entry>)
    ensures |es| == if |rows| > 2 then |rows| - 2 else 0
    ensures forall k :: 0 <= k < |es| ==> es[k] == Entry(k + 3, rows[k + 2])
  {
    if |rows| <= 2 then [] else seq(|rows| - 2, k requires 0 <= k < |rows| - 2 => Entry(k + 3, rows[k + 2]))
  }

  /** The leading run of non-empty rows. */
  function Run(es: seq<Entry>): (r: seq<Entry>)
    ensures |r| <= |es|
    ensures es != [] && !IsEmptyRow(es[0].row) ==> |r| > 0
  {
    if es == [] || IsEmptyRow(es[0].row) then [] else [es[0]] + Run(es[1..])
  }

  /** The run is a prefix of non-empty rows that stops at an empty row or at the end. */
  lemma {:induction false} RunSpec(es: seq<Entry>)
    ensures Run(es) == es[..|Run(es)|]
    ensures forall k :: 0 <= k < |Run(es)| ==> !IsEmptyRow(Run(es)[k].row)
    ensures |Run(es)| < |es| ==> IsEmptyRow(es[|Run(es)|].row)
  {
    if es != [] && !IsEmptyRow(es[0].row) {
      RunSpec(es[1..]);
    }
  }

  /** The tables of a list of entries: its maximal runs of non-empty rows, in order. */
  function Split(es: seq<Entry>): seq<Table>
    decreases |es|
  {
    if es == [] then []
    else if IsEmptyRow(es[0].row) then Split(es[1..])
    else
      var t := Run(es);
      [t] + Split(es[|t|..])
  }

  /** The tables of a worksheet. */
  function Tables(rows: seq<Row>): seq<Table> {
    Split(Body(rows))
  }

  /** What is still to come when the loop has built current and has rest left to read. */
  function Pending(current: Table, rest: seq<Entry>): seq<Table> {
    if current == [] then Split(rest)
    else
      var t := Run(rest);
      [current + t] + Split(rest[|t|..])
  }

  /** An empty row closes the current table. */
  lemma PendingClose(current: Table, rest: seq<Entry>)
    requires rest != [] && IsEmptyRow(rest[0].row) && current != []
    ensures Pending(current, rest) == [current] + Split(rest[1..])
  {
    assert Run(rest) == [];
    assert current + [] == current;
    assert rest[|Run(rest)|..] == rest;
  }

  /** An empty row with no current table is skipped. */
  lemma PendingSkip(rest: seq<Entry>)
    requires rest != [] && IsEmptyRow(rest[0].row)
    ensures Pending([], rest) == Pending([], rest[1..])
  {
  }

  /** A non-empty row joins the current table. */
  lemma PendingExtend(current: Table, rest: seq<Entry>)
    requires rest != [] && !IsEmptyRow(rest[0].row)
    ensures Pending(current, rest) == Pending(current + [rest[0]], rest[1..])
  {
    var t := Run(rest[1..]);
    assert Run(rest) == [rest[0]] + t;
    assert rest[|Run(rest)|..] == rest[1..][|t|..];
    if current == [] {
      assert Split(rest) == [Run(rest)] + Split(rest[|Run(rest)|..]);
      assert [] + [rest[0]] == [rest[0]];
    } else {
      assert current + Run(rest) == (current + [rest[0]]) + t;
    }
  }

  /** The loop of process_excel_file that splits rows[2:] into tables: an empty row closes the
      current table, when there is one; any other row joins it. */
  method SplitTables(rows: seq<Row>) returns (tables: seq<Table>)
    ensures tables == Tables(rows)
  {
    ghost var es := Body(rows);
    tables := [];
    var current: Table := [];
    var n := if |rows| > 2 then |rows| - 2 else 0;
    var j := 0;
    while j < n
      invariant 0 <= j <= n == |es|
      invariant Split(es) == tables + Pending(current, es[j..])
    {
      var excelRow := j + 3;
      var r := rows[j + 2];
      assert es[j..][0] == Entry(excelRow, r) && es[j..][1..] == es[j + 1..];
      ghost var rest := es[j..];
      if IsEmptyRow(r) {
        if current != [] {
          PendingClose(current, rest);
          assert tables + Pending(current, rest) == (tables + [current]) + Pending([], es[j + 1..]);
          tables := tables + [current];
          current := [];
        } else {
          PendingSkip(rest);
        }
      } else {
        PendingExtend(current, rest);
        current := current + [Entry(excelRow, r)];
      }
      j := j + 1;
    }
    assert es[j..] == [] && Run([]) == [] && current + [] == current;
    if current != [] {
      tables := tables + [current];
    }
  }

  // ---------------------------------------------------------------------------------------
  // Properties of the split
  // ---------------------------------------------------------------------------------------

  /** The entries whose rows are not empty, in order. */
  function NonEmptyEntries(es: seq<Entry>): (r: seq<Entry>)
    ensures |r| <= |es|
  {
    if es == [] then []
    else (if IsEmptyRow(es[0].row) then [] else [es[0]]) + NonEmptyEntries(es[1..])
  }

  function Flatten(ts: seq<Table>): seq<Entry> {
    if ts == [] then [] else ts[0] + Flatten(ts[1..])
  }

  lemma {:induction false} RunThenRest(es: seq<Entry>)
    ensures Run(es) + NonEmptyEntries(es[|Run(es)|..]) == NonEmptyEntries(es)
  {
    if es != [] && !IsEmptyRow(es[0].row) {
      RunThenRest(es[1..]);
      assert es[|Run(es)|..] == es[1..][|Run(es[1..])|..];
    }
  }

  /** Concatenating the tables gives back exactly the non-empty entries, in order. */
  lemma {:induction false} FlattenSplit(es: seq<Entry>)
    ensures Flatten(Split(es)) == NonEmptyEntries(es)
    decreases |es|
  {
    if es != [] {
      if IsEmptyRow(es[0].row) {
        FlattenSplit(es[1..]);
      } else {
        var t := Run(es);
        FlattenSplit(es[|t|..]);
        RunThenRest(es);
        assert Split(es)[1..] == Split(es[|t|..]);
      }
    }
  }

  /** Row numbers that go up by one from base, as enumerate(..., start=base) produces. */
  predicate Consecutive(es: seq<Entry>, base: nat) {
    forall k :: 0 <= k < |es| ==> es[k].excelRow == base + k
  }

  /** Every table is non-empty, holds no empty row, and is a block of consecutive rows that
      starts at or after the first row number. */
  lemma {:induction false} SplitTablesWellFormed(es: seq<Entry>, base: nat)
    requires Consecutive(es, base)
    ensures forall i :: 0 <= i < |Split(es)| ==> |Split(es)[i]| > 0
    ensures forall i, k :: 0 <= i < |Split(es)| && 0 <= k < |Split(es)[i]| ==> !IsEmptyRow(Split(es)[i][k].row)
    ensures forall i :: 0 <= i < |Split(es)| ==> Consecutive(Split(es)[i], Split(es)[i][0].excelRow)
    ensures forall i :: 0 <= i < |Split(es)| ==> Split(es)[i][0].excelRow >= base
    decreases |es|
  {
    if es != [] {
      if IsEmptyRow(es[0].row) {
        SplitTablesWellFormed(es[1..], base + 1);
      } else {
        var t := Run(es);
        var rest := es[|t|..];
        RunSpec(es);
        SplitTablesWellFormed(rest, base + |t|);
        assert Split(es) == [t] + Split(rest);
        assert forall i :: 1 <= i < |Split(es)| ==> Split(es)[i] == Split(rest)[i - 1];
      }
    }
  }

  /** First and last row number of a table. */
  function First(t: Table): nat requires |t| > 0 { t[0].excelRow }
  function Last(t: Table): nat requires |t| > 0 { t[|t| - 1].excelRow }

  /** Consecutive tables are separated by at least one row, which is empty: no table ends
      where the next one begins. */
  lemma {:induction false} SplitTablesSeparated(es: seq<Entry>, base: nat)
    requires Consecutive(es, base)
    ensures forall i :: 0 <= i < |Split(es)| - 1 && |Split(es)[i]| > 0 && |Split(es)[i + 1]| > 0 ==>
      First(Split(es)[i + 1]) > Last(Split(es)[i]) + 1
    decreases |es|
  {
    if es != [] {
      if IsEmptyRow(es[0].row) {
        SplitTablesSeparated(es[1..], base + 1);
      } else {
        var t := Run(es);
        var rest := es[|t|..];
        RunSpec(es);
        SplitTablesSeparated(rest, base + |t|);
        assert Split(es) == [t] + Split(rest);
        assert forall i :: 1 <= i < |Split(es)| ==> Split(es)[i] == Split(rest)[i - 1];
        if rest != [] {
          assert Split(rest) == Split(rest[1..]);
          SplitTablesWellFormed(rest[1..], base + |t| + 1);
        }
      }
    }
  }

  predicate StrictlyIncreasing(es: seq<Entry>) {
    forall i, j :: 0 <= i < j < |es| ==> es[i].excelRow < es[j].excelRow
  }

  lemma {:induction false} NonEmptyEntriesMembers(es: seq<Entry>)
    ensures forall e :: e in NonEmptyEntries(es) ==> e in es && !IsEmptyRow(e.row)
    decreases |es|
  {
    if es != [] {
      NonEmptyEntriesMembers(es[1..]);
    }
  }

  lemma {:induction false} NonEmptyEntriesIncreasing(es: seq<Entry>)
    requires StrictlyIncreasing(es)
    ensures StrictlyIncreasing(NonEmptyEntries(es))
    decreases |es|
  {
    if es != [] {
      NonEmptyEntriesIncreasing(es[1..]);
      var tail := NonEmptyEntries(es[1..]);
      NonEmptyEntriesMembers(es[1..]);
      forall i | 0 <= i < |tail| ensures es[0].excelRow < tail[i].excelRow {
        assert tail[i] in es[1..];
      }
    }
  }

  /** The tables of a worksheet: concatenated, they are exactly its non-empty rows from the
      third on, each with its row number (index + 1), in order, with row numbers rising
      strictly from 3; every table is a non-empty block of consecutive non-empty rows, and
      consecutive tables have an empty row between them. */
  lemma TablesSpec(rows: seq<Row>)
    ensures Flatten(Tables(rows)) == NonEmptyEntries(Body(rows))
    ensures StrictlyIncreasing(Flatten(Tables(rows)))
    ensures forall e :: e in Flatten(Tables(rows)) ==>
      3 <= e.excelRow <= |rows| && e.row == rows[e.excelRow - 1] && !IsEmptyRow(e.row)
    ensures forall i :: 0 <= i < |Tables(rows)| ==> |Tables(rows)[i]| > 0
    ensures forall i, k :: 0 <= i < |Tables(rows)| && 0 <= k < |Tables(rows)[i]| ==>
      !IsEmptyRow(Tables(rows)[i][k].row)
    ensures forall i :: 0 <= i < |Tables(rows)| ==> Consecutive(Tables(rows)[i], First(Tables(rows)[i]))
    ensures forall i :: 0 <= i < |Tables(rows)| - 1 ==>
      First(Tables(rows)[i + 1]) > Last(Tables(rows)[i]) + 1
  {
    var es := Body(rows);
    FlattenSplit(es);
    SplitTablesWellFormed(es, 3);
    SplitTablesSeparated(es, 3);
    NonEmptyEntriesIncreasing(es);
    NonEmptyEntriesMembers(es);
    assert forall e :: e in es ==> 3 <= e.excelRow <= |rows| && e.row == rows[e.excelRow - 1];
  }

  /** Empty rows alone never make a table: a sheet whose rows from the third on are all empty
      has no tables. */
  lemma {:induction false} NoTablesFromEmptyRows(es: seq<Entry>)
    requires forall k :: 0 <= k < |es| ==> IsEmptyRow(es[k].row)
    ensures Split(es) == []
    decreases |es|
  {
    if es != [] {
      NoTablesFromEmptyRows(es[1..]);
    }
  }
}
