/** merge_column_headers (chunker.py): one column name per column index, built from every
    header row of a table. */
module Headers {
  import Wrappers
  import opened Strings
  import opened Cells
  import opened Rows

  /** A merged column name; None where no header row names the column. */
  type ColumnName = Wrappers.Option<string>

  /** max(len(r) for r in header_rows) */
  function MaxWidth(hs: seq<Row>): nat
    requires |hs| > 0
  {
    if |hs| == 1 then |hs[0]|
    else
      var w := MaxWidth(hs[1..]);
      if |hs[0]| > w then |hs[0]| else w
  }

  /** MaxWidth is the length of a longest header row. */
  lemma {:induction false} MaxWidthSpec(hs: seq<Row>)
    requires |hs| > 0
    ensures forall k :: 0 <= k < |hs| ==> |hs[k]| <= MaxWidth(hs)
    ensures exists k :: 0 <= k < |hs| && |hs[k]| == MaxWidth(hs)
  {
    if |hs| > 1 {
      MaxWidthSpec(hs[1..]);
      assert forall k :: 1 <= k < |hs| ==> hs[k] == hs[1..][k - 1];
      if |hs[0]| <= MaxWidth(hs[1..]) {
        var k :| 0 <= k < |hs[1..]| && |hs[1..][k]| == MaxWidth(hs[1..]);
        assert |hs[k + 1]| == MaxWidth(hs);
      } else {
        assert |hs[0]| == MaxWidth(hs);
      }
    } else {
      assert |hs[0]| == MaxWidth(hs);
    }
  }

  /** Row r has a non-blank cell at column c. */
  predicate Names(r: Row, c: nat) {
    c < |r| && !IsBlank(r[c])
  }

  /** What header row r contributes to column c: its stripped text, when it names c. */
  function Part(r: Row, c: nat): seq<string> {
    if Names(r, c) then [CellLabel(r[c])] else []
  }

  /** The list parts for column c: the contributions of the header rows, in their order. */
  function Parts(hs: seq<Row>, c: nat): (ps: seq<string>)
    ensures |ps| <= |hs|
  {
    if hs == [] then [] else Parts(hs[..|hs| - 1], c) + Part(hs[|hs| - 1], c)
  }

  /** Column c gets no parts exactly when no header row has a non-blank cell there. */
  lemma {:induction false} PartsEmptyIff(hs: seq<Row>, c: nat)
    ensures Parts(hs, c) == [] <==> forall k :: 0 <= k < |hs| ==> !Names(hs[k], c)
  {
    if hs != [] {
      var init := hs[..|hs| - 1];
      assert forall k :: 0 <= k < |init| ==> init[k] == hs[k];
      PartsEmptyIff(init, c);
    }
  }

  function MergedName(ps: seq<string>): ColumnName {
    if ps == [] then Wrappers.None else Wrappers.Some(Join(" | ", ps))
  }

  /** The merged names of columns 0 .. n-1. */
  function MergedUpTo(hs: seq<Row>, n: nat): (r: seq<ColumnName>)
    ensures |r| == n
  {
    if n == 0 then [] else MergedUpTo(hs, n - 1) + [MergedName(Parts(hs, n - 1))]
  }

  lemma {:induction false} MergedUpToAt(hs: seq<Row>, n: nat)
    ensures forall c :: 0 <= c < n ==> MergedUpTo(hs, n)[c] == MergedName(Parts(hs, c))
  {
    if n > 0 {
      MergedUpToAt(hs, n - 1);
      var init := MergedUpTo(hs, n - 1);
      assert MergedUpTo(hs, n) == init + [MergedName(Parts(hs, n - 1))];
      assert forall c :: 0 <= c < n - 1 ==> MergedUpTo(hs, n)[c] == init[c];
    }
  }

  /** The merged column names of a table's header rows. */
  function MergedColumns(hs: seq<Row>): seq<ColumnName>
    requires |hs| > 0
  {
    MergedUpTo(hs, MaxWidth(hs))
  }

  /** The inner loop of merge_column_headers: the parts of column c, row by row. */
  method CollectParts(headerRows: seq<Row>, c: nat) returns (parts: seq<string>)
    ensures parts == Parts(headerRows, c)
  {
    parts := [];
    var k := 0;
    while k < |headerRows|
      invariant 0 <= k <= |headerRows|
      invariant parts == Parts(headerRows[..k], c)
    {
      var r := headerRows[k];
      assert headerRows[..k + 1][..k] == headerRows[..k];
      if c < |r| && !IsBlank(r[c]) {
        assert Names(r, c);
        parts := parts + [CellLabel(r[c])];
      }
      k := k + 1;
    }
    assert headerRows[..|headerRows|] == headerRows;
  }

  /** merge_column_headers: computes MergedColumns, whose meaning MergedColumnsSpec states. */
  method MergeColumnHeaders(headerRows: seq<Row>) returns (merged: seq<ColumnName>)
    requires |headerRows| > 0
    ensures merged == MergedColumns(headerRows)
  {
    var maxCols := MaxWidth(headerRows);
    merged := [];
    var c := 0;
    while c < maxCols
      invariant 0 <= c <= maxCols
      invariant merged == MergedUpTo(headerRows, c)
    {
      var parts := CollectParts(headerRows, c);
      var name := if parts != [] then Wrappers.Some(Join(" | ", parts)) else Wrappers.None;
      assert name == MergedName(Parts(headerRows, c));
      merged := merged + [name];
      c := c + 1;
    }
  }

  /** The merged names: as many as the longest header row has cells; a column is None exactly
      when no header row has a non-blank cell there, and otherwise the " | "-join of the
      stripped header texts at that column, in header-row order. */
  lemma MergedColumnsSpec(hs: seq<Row>)
    requires |hs| > 0
    ensures forall k :: 0 <= k < |hs| ==> |hs[k]| <= |MergedColumns(hs)|
    ensures exists k :: 0 <= k < |hs| && |hs[k]| == |MergedColumns(hs)|
    ensures forall c :: 0 <= c < |MergedColumns(hs)| ==>
      (MergedColumns(hs)[c] == Wrappers.None <==> forall k :: 0 <= k < |hs| ==> !Names(hs[k], c))
    ensures forall c :: 0 <= c < |MergedColumns(hs)| && MergedColumns(hs)[c].Some? ==>
      MergedColumns(hs)[c].value == Join(" | ", Parts(hs, c))
  {
    MaxWidthSpec(hs);
    MergedUpToAt(hs, MaxWidth(hs));
    forall c | 0 <= c < MaxWidth(hs) {
      PartsEmptyIff(hs, c);
    }
  }

  /** When every header row names column c, the merged name takes all of them, in order. */
  lemma {:induction false} PartsAllRows(hs: seq<Row>, c: nat)
    requires forall k :: 0 <= k < |hs| ==> Names(hs[k], c)
    ensures |Parts(hs, c)| == |hs|
    ensures forall k :: 0 <= k < |hs| ==> c < |hs[k]| && Parts(hs, c)[k] == CellLabel(hs[k][c])
  {
    if hs != [] {
      var init := hs[..|hs| - 1];
      assert forall k :: 0 <= k < |init| ==> init[k] == hs[k];
      PartsAllRows(init, c);
      var last := hs[|hs| - 1];
      assert Part(last, c) == [CellLabel(last[c])];
      var ps := Parts(hs, c);
      assert ps == Parts(init, c) + [CellLabel(last[c])];
      forall k | 0 <= k < |hs| ensures c < |hs[k]| && ps[k] == CellLabel(hs[k][c]) {
        if k < |init| {
          assert ps[k] == Parts(init, c)[k];
        }
      }
    }
  }
}
