/** The quality metrics computed for an uploaded table (the valuator's `score`).

    A table is modelled as its column count and its rows; a DataFrame is always
    rectangular, so every row has exactly `width` cells. The report's missing
    ratio is the exact quotient; rounding it to four decimals is not modelled. */
module DatasetQuality {

  /** One cell: the missing marker (NaN / None / NA), a text value or a number. */
  datatype Cell = Missing | Text(s: string) | Num(n: int)

  datatype Table = Table(width: nat, rows: seq<seq<Cell>>)

  /** The six counts of the quality overview. */
  datatype QualityReport = QualityReport(
    rows: nat,
    cols: nat,
    missingCells: nat,
    missingRatio: real,
    duplicates: nat,
    emptyColumns: nat)

  const ZeroReport := QualityReport(0, 0, 0, 0.0, 0, 0)

  predicate Rectangular(t: Table) {
    forall i :: 0 <= i < |t.rows| ==> |t.rows[i]| == t.width
  }

  /** A DataFrame is `empty` when either axis has length zero. */
  predicate IsEmpty(t: Table)
    ensures IsEmpty(t) <==> |t.rows| * t.width == 0
  {
    |t.rows| == 0 || t.width == 0
  }

  /** The characters Python's `str.isspace` accepts, which is what `\s` matches in a
      text pattern. */
  predicate IsSpace(c: char) {
    c == ' ' || ('\t' <= c <= '\r') || ('\U{1C}' <= c <= '\U{1F}') ||
    c == '\U{85}' || c == '\U{A0}' || c == '\U{1680}' ||
    ('\U{2000}' <= c <= '\U{200A}') || c == '\U{2028}' || c == '\U{2029}' ||
    c == '\U{202F}' || c == '\U{205F}' || c == '\U{3000}'
  }

  /** Text that `^\s*$` matches; the empty string is one. */
  predicate IsWhitespaceText(s: string)
    ensures |s| == 0 ==> IsWhitespaceText(s)
  {
    forall k :: 0 <= k < |s| ==> IsSpace(s[k])
  }

  /** A cell that is missing once strings matching `^\s*$` are replaced by NA.
      The replacement touches text cells only, never numbers. */
  predicate IsBlank(c: Cell) {
    match c
    case Missing => true
    case Text(s) => IsWhitespaceText(s)
    case Num(_) => false
  }

  /** Every row has at least k cells. */
  predicate HasColumns(rows: seq<seq<Cell>>, k: nat) {
    forall i :: 0 <= i < |rows| ==> k <= |rows[i]|
  }

  // ---------------------------------------------------------------------------
  // Missing cells: `isna().sum()` per column, then summed over the columns
  // ---------------------------------------------------------------------------

  function MissingInColumn(rows: seq<seq<Cell>>, j: nat): (n: nat)
    requires HasColumns(rows, j + 1)
    ensures n <= |rows|
    decreases |rows|
  {
    if |rows| == 0 then 0
    else MissingInColumn(rows[..|rows| - 1], j) + (if rows[|rows| - 1][j] == Missing then 1 else 0)
  }

  /** The missing cells of the first k columns, summed column by column. */
  function MissingCells(rows: seq<seq<Cell>>, k: nat): (n: nat)
    requires HasColumns(rows, k)
    ensures n <= |rows| * k
  {
    if k == 0 then 0
    else MissingCells(rows, k - 1) + MissingInColumn(rows, k - 1)
  }

  /** The missing cells among the first k cells of one row. */
  function RowMissing(row: seq<Cell>, k: nat): (n: nat)
    requires k <= |row|
    ensures n <= k
  {
    if k == 0 then 0
    else RowMissing(row, k - 1) + (if row[k - 1] == Missing then 1 else 0)
  }

  /** Reference count: the missing cells of the first k columns, summed row by row. */
  function MissingByRows(rows: seq<seq<Cell>>, k: nat): nat
    requires HasColumns(rows, k)
    decreases |rows|
  {
    if |rows| == 0 then 0
    else MissingByRows(rows[..|rows| - 1], k) + RowMissing(rows[|rows| - 1], k)
  }

  lemma {:induction false} MissingInColumnSnoc(rows: seq<seq<Cell>>, r: seq<Cell>, j: nat)
    requires HasColumns(rows, j + 1) && j < |r|
    ensures HasColumns(rows + [r], j + 1)
    ensures MissingInColumn(rows + [r], j) == MissingInColumn(rows, j) + (if r[j] == Missing then 1 else 0)
  {
    assert (rows + [r])[..|rows|] == rows;
  }

  lemma {:induction false} MissingCellsSnoc(rows: seq<seq<Cell>>, r: seq<Cell>, k: nat)
    requires HasColumns(rows, k) && k <= |r|
    ensures HasColumns(rows + [r], k)
    ensures MissingCells(rows + [r], k) == MissingCells(rows, k) + RowMissing(r, k)
  {
    if k > 0 {
      MissingCellsSnoc(rows, r, k - 1);
      MissingInColumnSnoc(rows, r, k - 1);
    }
  }

  /** Summing the missing markers column by column (as the valuator does) gives the
      same total as summing them row by row. */
  lemma {:induction false} MissingCellsByRows(rows: seq<seq<Cell>>, k: nat)
    requires HasColumns(rows, k)
    ensures MissingCells(rows, k) == MissingByRows(rows, k)
    decreases |rows|
  {
    if |rows| == 0 {
      MissingCellsOfNoRows(rows, k);
    } else {
      var p, r := rows[..|rows| - 1], rows[|rows| - 1];
      assert rows == p + [r];
      MissingCellsByRows(p, k);
      MissingCellsSnoc(p, r, k);
    }
  }

  lemma {:induction false} MissingCellsOfNoRows(rows: seq<seq<Cell>>, k: nat)
    requires |rows| == 0
    ensures HasColumns(rows, k) && MissingCells(rows, k) == 0
  {
    if k > 0 {
      MissingCellsOfNoRows(rows, k - 1);
    }
  }

  // ---------------------------------------------------------------------------
  // Duplicate rows: `duplicated()` with its default keep="first"
  // ---------------------------------------------------------------------------

  /** The rows equal to some earlier row; the first occurrence is not counted. */
  function DuplicateCount<T(==)>(rows: seq<T>): (n: nat)
    ensures n <= |rows|
    ensures |rows| > 0 ==> n < |rows|
  {
    if |rows| == 0 then 0
    else DuplicateCount(rows[..|rows| - 1]) + (if rows[|rows| - 1] in rows[..|rows| - 1] then 1 else 0)
  }

  function Distinct<T>(rows: seq<T>): set<T> {
    set x | x in rows
  }

  /** The duplicate count is the number of rows minus the number of distinct rows. */
  lemma {:induction false} DuplicatesAreRowsMinusDistinct<T>(rows: seq<T>)
    ensures |Distinct(rows)| <= |rows|
    ensures DuplicateCount(rows) == |rows| - |Distinct(rows)|
  {
    if |rows| == 0 {
      assert Distinct(rows) == {};
    } else {
      var p, x := rows[..|rows| - 1], rows[|rows| - 1];
      assert rows == p + [x];
      assert Distinct(rows) == Distinct(p) + {x};
      DuplicatesAreRowsMinusDistinct(p);
      if x in p {
        assert Distinct(rows) == Distinct(p);
      } else {
        assert x !in Distinct(p);
      }
    }
  }

  predicate PairwiseDistinct<T(==)>(rows: seq<T>) {
    forall i, j :: 0 <= i < j < |rows| ==> rows[i] != rows[j]
  }

  /** No row is counted as a duplicate exactly when all rows differ. */
  lemma {:induction false} NoDuplicatesIffAllDistinct<T>(rows: seq<T>)
    ensures DuplicateCount(rows) == 0 <==> PairwiseDistinct(rows)
  {
    if |rows| > 0 {
      var p, x := rows[..|rows| - 1], rows[|rows| - 1];
      NoDuplicatesIffAllDistinct(p);
      if PairwiseDistinct(rows) {
        assert PairwiseDistinct(p) by {
          forall i, j | 0 <= i < j < |p| ensures p[i] != p[j] {
            assert p[i] == rows[i] && p[j] == rows[j];
          }
        }
        assert x !in p by {
          forall i | 0 <= i < |p| ensures p[i] != x {
            assert p[i] == rows[i];
          }
        }
      }
      if DuplicateCount(rows) == 0 {
        assert x !in p;
        forall i, j | 0 <= i < j < |rows| ensures rows[i] != rows[j] {
          if j < |rows| - 1 {
            assert rows[i] == p[i] && rows[j] == p[j];
          } else {
            assert rows[i] == p[i];
          }
        }
      }
    }
  }

  // ---------------------------------------------------------------------------
  // Empty columns: blank after replacing whitespace-only strings by NA
  // ---------------------------------------------------------------------------

  predicate ColumnBlank(rows: seq<seq<Cell>>, j: nat)
    requires HasColumns(rows, j + 1)
  {
    forall i :: 0 <= i < |rows| ==> IsBlank(rows[i][j])
  }

  /** The number of blank columns among the first k. */
  function EmptyColumnCount(rows: seq<seq<Cell>>, k: nat): (n: nat)
    requires HasColumns(rows, k)
    ensures n <= k
  {
    if k == 0 then 0
    else EmptyColumnCount(rows, k - 1) + (if ColumnBlank(rows, k - 1) then 1 else 0)
  }

  function BlankColumns(rows: seq<seq<Cell>>, k: nat): set<nat>
    requires HasColumns(rows, k)
  {
    set j: nat | j < k && ColumnBlank(rows, j)
  }

  /** The empty-column count is the size of the set of blank column indices. */
  lemma {:induction false} EmptyColumnsAreBlankColumns(rows: seq<seq<Cell>>, k: nat)
    requires HasColumns(rows, k)
    ensures EmptyColumnCount(rows, k) == |BlankColumns(rows, k)|
  {
    if k == 0 {
      assert BlankColumns(rows, k) == {};
    } else {
      EmptyColumnsAreBlankColumns(rows, k - 1);
      BlankColumnsStep(rows, k);
    }
  }

  lemma BlankColumnsStep(rows: seq<seq<Cell>>, k: nat)
    requires 0 < k && HasColumns(rows, k)
    ensures k - 1 !in BlankColumns(rows, k - 1)
    ensures BlankColumns(rows, k) ==
      BlankColumns(rows, k - 1) + (if ColumnBlank(rows, k - 1) then {k - 1} else {})
  {
  }

  /** A column holding only whitespace strings is counted as empty, yet none of its
      cells is a missing cell: missing cells are counted before the replacement. */
  lemma {:induction false} WhitespaceColumnIsEmptyNotMissing(rows: seq<seq<Cell>>, j: nat)
    requires HasColumns(rows, j + 1)
    requires forall i :: 0 <= i < |rows| ==> rows[i][j].Text? && IsWhitespaceText(rows[i][j].s)
    ensures ColumnBlank(rows, j)
    ensures MissingInColumn(rows, j) == 0
    decreases |rows|
  {
    if |rows| > 0 {
      WhitespaceColumnIsEmptyNotMissing(rows[..|rows| - 1], j);
    }
  }

  // ---------------------------------------------------------------------------
  // The report
  // ---------------------------------------------------------------------------

  /** The quality report of a table, with the empty table short-circuited to zeros. */
  function Score(t: Table): (r: QualityReport)
    requires Rectangular(t)
    ensures IsEmpty(t) ==> r == ZeroReport
    ensures !IsEmpty(t) ==> r.rows == |t.rows| && r.cols == t.width
    ensures !IsEmpty(t) ==> r.missingRatio == r.missingCells as real / (r.rows * r.cols) as real
    ensures r.missingCells <= r.rows * r.cols
    ensures 0.0 <= r.missingRatio <= 1.0
    ensures r.duplicates <= r.rows && (r.rows > 0 ==> r.duplicates < r.rows)
    ensures r.emptyColumns <= r.cols
  {
    if IsEmpty(t) then ZeroReport
    else
      var rows := |t.rows|;
      var cols := t.width;
      var total := rows * cols;
      var missing := MissingCells(t.rows, cols);
      RatioBounds(missing, total);
      QualityReport(rows, cols, missing, missing as real / total as real,
                    DuplicateCount(t.rows), EmptyColumnCount(t.rows, cols))
  }

  lemma RatioBounds(part: nat, whole: nat)
    requires 0 < whole && part <= whole
    ensures 0.0 <= part as real / whole as real <= 1.0
  {
  }

  /** The report's counts, each against its independent reference definition. */
  lemma {:induction false} ScoreCounts(t: Table)
    requires Rectangular(t) && !IsEmpty(t)
    ensures Score(t).missingCells == MissingByRows(t.rows, t.width)
    ensures Score(t).duplicates == |t.rows| - |Distinct(t.rows)|
    ensures Score(t).emptyColumns == |BlankColumns(t.rows, t.width)|
  {
    MissingCellsByRows(t.rows, t.width);
    DuplicatesAreRowsMinusDistinct(t.rows);
    EmptyColumnsAreBlankColumns(t.rows, t.width);
  }

  /** A table with rows [A, A, A] has two duplicates. */
  lemma ThreeEqualRowsHaveTwoDuplicates(a: seq<Cell>)
    requires |a| > 0
    ensures Score(Table(|a|, [a, a, a])).duplicates == 2
  {
    var rows := [a, a, a];
    assert rows[..2] == [a, a] && [a, a][..1] == [a] && [a][..0] == [];
    assert DuplicateCount([a]) == 0;
    assert DuplicateCount([a, a]) == 1;
  }

  /** Headers without rows still give the all-zero report, so a table with columns
      but no rows reports 0 columns. */
  lemma HeadersWithoutRowsGiveZeros(width: nat)
    ensures Score(Table(width, [])) == ZeroReport
  {
  }
}
