/** The row predicates of chunker.py: empty, numeric count, text, fund row, data row, header row. */
module Rows {
  import opened Strings
  import opened Cells

  type Row = seq<Cell>

  /** is_empty_row: Python's all() over the cells, so a row without cells is empty. */
  predicate IsEmptyRow(row: Row) {
    |row| == 0 || (IsBlank(row[0]) && IsEmptyRow(row[1..]))
  }

  /** A row is empty exactly when every cell is blank. */
  lemma {:induction false} IsEmptyRowSpec(row: Row)
    ensures IsEmptyRow(row) <==> forall i :: 0 <= i < |row| ==> IsBlank(row[i])
  {
    if row != [] {
      IsEmptyRowSpec(row[1..]);
      assert forall i :: 1 <= i < |row| ==> row[i] == row[1..][i - 1];
    }
  }

  /** count_numeric */
  function CountNumeric(row: Row): (n: nat)
    ensures n <= |row|
  {
    if row == [] then 0 else (if IsNumeric(row[0]) then 1 else 0) + CountNumeric(row[1..])
  }

  /** No cell counts exactly when no cell is numeric. */
  lemma {:induction false} CountNumericZero(row: Row)
    ensures CountNumeric(row) == 0 <==> forall i :: 0 <= i < |row| ==> !IsNumeric(row[i])
  {
    if row != [] {
      CountNumericZero(row[1..]);
      assert forall i :: 1 <= i < |row| ==> row[i] == row[1..][i - 1];
    }
  }

  /** The non-blank cells, in order (the list non_empty of is_column_header_row). */
  function NonBlankCells(row: Row): (r: seq<Cell>)
    ensures |r| <= |row|
  {
    if row == [] then []
    else (if IsBlank(row[0]) then [] else [row[0]]) + NonBlankCells(row[1..])
  }

  /** The non-blank cells are exactly the cells of the row that are not blank. */
  lemma {:induction false} NonBlankCellsMembers(row: Row)
    ensures forall c :: c in NonBlankCells(row) <==> c in row && !IsBlank(c)
  {
    if row != [] {
      NonBlankCellsMembers(row[1..]);
      assert row == [row[0]] + row[1..];
    }
  }

  /** The positions, offset by base, of the non-blank cells (the list idxs). */
  function NonBlankIndicesFrom(row: Row, base: nat): (r: seq<nat>)
    ensures |r| == |NonBlankCells(row)|
  {
    if row == [] then []
    else
      var rest := NonBlankIndicesFrom(row[1..], base + 1);
      (if IsBlank(row[0]) then [] else [base]) + rest
  }

  function NonBlankIndices(row: Row): seq<nat> {
    NonBlankIndicesFrom(row, 0)
  }

  /** The stripped texts of the non-blank cells, in order. */
  function NonBlankTexts(row: Row): (r: seq<string>)
    ensures r == [] <==> IsEmptyRow(row)
  {
    if row == [] then []
    else (if IsBlank(row[0]) then [] else [CellLabel(row[0])]) + NonBlankTexts(row[1..])
  }

  /** Every non-blank cell contributes its label. */
  lemma {:induction false} NonBlankTextsMembers(row: Row)
    ensures forall i :: 0 <= i < |row| && !IsBlank(row[i]) ==> CellLabel(row[i]) in NonBlankTexts(row)
  {
    if row != [] {
      NonBlankTextsMembers(row[1..]);
      assert forall i :: 1 <= i < |row| ==> row[i] == row[1..][i - 1];
    }
  }

  /** row_to_text: the stripped texts of the non-blank cells joined with " | "; "" for an empty
      row. */
  function RowToText(row: Row): (r: string)
    ensures IsEmptyRow(row) ==> r == ""
  {
    Join(" | ", NonBlankTexts(row))
  }

  /** The text of a row is not "" once some non-blank cell has text that survives stripping. */
  lemma RowToTextSpec(row: Row)
    ensures (exists i :: 0 <= i < |row| && !IsBlank(row[i]) && CellLabel(row[i]) != "") ==> RowToText(row) != ""
  {
    NonBlankTextsMembers(row);
  }

  /** looks_like_fund_row: the first cell is a string longer than 12 characters with no digit.
      The source reads row[0], so it needs a cell to read. */
  predicate LooksLikeFundRow(row: Row)
    requires |row| > 0
  {
    row[0].Str? && |row[0].s| > 12 && !(exists i :: 0 <= i < |row[0].s| && IsDigit(row[0].s[i]))
  }

  /** is_data_row: some numeric cell, and not a fund row. Python's `and` never reads row[0]
      of a row without numeric cells. */
  predicate IsDataRow(row: Row) {
    CountNumeric(row) >= 1 && !LooksLikeFundRow(row)
  }

  function Max(xs: seq<nat>): (m: nat)
    requires |xs| > 0
    ensures m in xs && forall k :: 0 <= k < |xs| ==> xs[k] <= m
  {
    if |xs| == 1 then xs[0] else var m := Max(xs[1..]); if xs[0] > m then xs[0] else m
  }

  function Min(xs: seq<nat>): (m: nat)
    requires |xs| > 0
    ensures m in xs && forall k :: 0 <= k < |xs| ==> m <= xs[k]
  {
    if |xs| == 1 then xs[0] else var m := Min(xs[1..]); if xs[0] < m then xs[0] else m
  }

  /** is_column_header_row: at least two non-blank cells, none of them numeric, and the
      non-blank positions spread over at most their count plus two. */
  function IsColumnHeaderRow(row: Row): (r: bool)
    ensures r ==> |NonBlankCells(row)| >= 2
    ensures r ==> CountNumeric(row) == 0
  {
    var nonEmpty := NonBlankCells(row);
    if |nonEmpty| < 2 then false
    else if exists k :: 0 <= k < |nonEmpty| && IsNumeric(nonEmpty[k]) then false
    else
      NonBlankCellsMembers(row);
      CountNumericZero(row);
      assert forall i :: 0 <= i < |row| && IsNumeric(row[i]) ==> row[i] in nonEmpty;
      var idxs := NonBlankIndices(row);
      Max(idxs) - Min(idxs) <= |idxs| + 2
  }

  /** Position p, offset by base, holds a non-blank cell of the row. */
  predicate NonBlankAt(row: Row, base: nat, p: nat) {
    base <= p < base + |row| && !IsBlank(row[p - base])
  }

  lemma NonBlankAtTail(row: Row, base: nat, p: nat)
    requires row != [] && NonBlankAt(row[1..], base + 1, p)
    ensures NonBlankAt(row, base, p)
  {
    assert row[1..][p - (base + 1)] == row[p - base];
  }

  /** Every entry of idxs is the position, offset by base, of a non-blank cell. */
  lemma {:induction false} NonBlankIndicesSound(row: Row, base: nat)
    ensures forall j :: 0 <= j < |NonBlankIndicesFrom(row, base)| ==> NonBlankAt(row, base, NonBlankIndicesFrom(row, base)[j])
  {
    if row != [] {
      var rest := NonBlankIndicesFrom(row[1..], base + 1);
      NonBlankIndicesSound(row[1..], base + 1);
      var head: seq<nat> := if IsBlank(row[0]) then [] else [base];
      var all := head + rest;
      assert NonBlankIndicesFrom(row, base) == all;
      forall j | 0 <= j < |all| ensures NonBlankAt(row, base, all[j]) {
        if j >= |head| {
          assert all[j] == rest[j - |head|];
          NonBlankAtTail(row, base, all[j]);
        }
      }
    }
  }

  /** Every non-blank cell has its position, offset by base, among idxs. */
  lemma {:induction false} NonBlankIndicesComplete(row: Row, base: nat)
    ensures forall i :: 0 <= i < |row| && !IsBlank(row[i]) ==> base + i in NonBlankIndicesFrom(row, base)
  {
    if row != [] {
      var tail := row[1..];
      var rest := NonBlankIndicesFrom(tail, base + 1);
      NonBlankIndicesComplete(tail, base + 1);
      forall i | 1 <= i < |row| && !IsBlank(row[i]) ensures base + i in rest {
        assert tail[i - 1] == row[i];
        assert base + 1 + (i - 1) in rest;
      }
      if IsBlank(row[0]) {
        assert NonBlankIndicesFrom(row, base) == rest;
      } else {
        assert NonBlankIndicesFrom(row, base) == [base] + rest;
      }
    }
  }

  /** A position below a strictly rising list keeps it strictly rising when put in front. */
  lemma ConsIncreasing(base: nat, rest: seq<nat>)
    requires forall i, j :: 0 <= i < j < |rest| ==> rest[i] < rest[j]
    requires forall j :: 0 <= j < |rest| ==> base < rest[j]
    ensures forall i, j :: 0 <= i < j < |[base] + rest| ==> ([base] + rest)[i] < ([base] + rest)[j]
  {
    var all := [base] + rest;
    forall i, j | 0 <= i < j < |all| ensures all[i] < all[j] {
      assert all[j] == rest[j - 1];
      if i > 0 {
        assert all[i] == rest[i - 1];
      }
    }
  }

  /** The positions in idxs rise strictly: they come in the order of the row. */
  lemma {:induction false} NonBlankIndicesIncreasing(row: Row, base: nat)
    ensures forall i, j :: 0 <= i < j < |NonBlankIndicesFrom(row, base)| ==>
      NonBlankIndicesFrom(row, base)[i] < NonBlankIndicesFrom(row, base)[j]
  {
    if row != [] {
      var tail := row[1..];
      var rest := NonBlankIndicesFrom(tail, base + 1);
      NonBlankIndicesIncreasing(tail, base + 1);
      NonBlankIndicesSound(tail, base + 1);
      if IsBlank(row[0]) {
        assert NonBlankIndicesFrom(row, base) == rest;
      } else {
        forall j | 0 <= j < |rest| ensures base < rest[j] {
          assert NonBlankAt(tail, base + 1, rest[j]);
        }
        ConsIncreasing(base, rest);
        assert NonBlankIndicesFrom(row, base) == [base] + rest;
      }
    }
  }

  /** When idxs are exactly the non-blank positions, max(idxs) - min(idxs) <= bound says that
      no two non-blank cells are further apart than bound. */
  lemma SpreadBound(row: Row, idxs: seq<nat>, bound: nat)
    requires |idxs| > 0
    requires forall j :: 0 <= j < |idxs| ==> NonBlankAt(row, 0, idxs[j])
    requires forall i :: 0 <= i < |row| && !IsBlank(row[i]) ==> 0 + i in idxs
    ensures Max(idxs) - Min(idxs) <= bound <==>
      forall i, j :: 0 <= i < j < |row| && !IsBlank(row[i]) && !IsBlank(row[j]) ==> j - i <= bound
  {
    var hi := Max(idxs);
    var lo := Min(idxs);
    if hi - lo <= bound {
      forall i, j | 0 <= i < j < |row| && !IsBlank(row[i]) && !IsBlank(row[j])
        ensures j - i <= bound
      {
        assert 0 + i in idxs && 0 + j in idxs;
      }
    } else {
      var a :| 0 <= a < |idxs| && idxs[a] == lo;
      var b :| 0 <= b < |idxs| && idxs[b] == hi;
      assert NonBlankAt(row, 0, idxs[a]) && NonBlankAt(row, 0, idxs[b]);
    }
  }

  /** is_column_header_row holds exactly when the row has at least two non-blank cells, none
      of the row's cells is numeric, and no two non-blank cells are further apart than the
      number of non-blank cells plus two. */
  lemma IsColumnHeaderRowSpec(row: Row)
    ensures IsColumnHeaderRow(row) <==>
      && |NonBlankCells(row)| >= 2
      && CountNumeric(row) == 0
      && forall i, j :: 0 <= i < j < |row| && !IsBlank(row[i]) && !IsBlank(row[j]) ==>
           j - i <= |NonBlankCells(row)| + 2
  {
    var nonEmpty := NonBlankCells(row);
    if |nonEmpty| >= 2 && CountNumeric(row) == 0 {
      NonBlankCellsMembers(row);
      CountNumericZero(row);
      forall k | 0 <= k < |nonEmpty| ensures !IsNumeric(nonEmpty[k]) {
        assert nonEmpty[k] in nonEmpty;
      }
      var idxs := NonBlankIndices(row);
      NonBlankIndicesSound(row, 0);
      NonBlankIndicesComplete(row, 0);
      assert IsColumnHeaderRow(row) == (Max(idxs) - Min(idxs) <= |idxs| + 2);
      SpreadBound(row, idxs, |idxs| + 2);
    }
  }

  /** Header rows and data rows are mutually exclusive: a header row has no numeric cell. */
  lemma HeaderRowIsNotDataRow(row: Row)
    ensures IsColumnHeaderRow(row) ==> !IsDataRow(row)
  {
  }

  /** A fund row is never a data row, whatever numeric cells it has. */
  lemma FundRowIsNotDataRow(row: Row)
    requires |row| > 0 && LooksLikeFundRow(row)
    ensures !IsDataRow(row)
  {
  }

  /** A data row has a numeric cell and so is never empty. */
  lemma DataRowIsNotEmpty(row: Row)
    requires IsDataRow(row)
    ensures !IsEmptyRow(row) && |row| > 0
  {
  }
}
