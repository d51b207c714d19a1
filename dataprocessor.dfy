/**
 * `DataFrameCleaner`: a cleaner that holds one data frame and replaces it,
 * step by step, with a cleaned version.  A frame is modelled as its index
 * name, its column labels and its rows; a row is its index label and its
 * cells, each a string or missing.
 */
module DataProcessor {
  import opened Wrappers
  import opened Seqs
  import opened PyText

  // ---------------------------------------------------------------------
  // Frames
  // ---------------------------------------------------------------------

  /** A cell: a string, or the missing value. */
  type Cell = Option<string>

  /** A row's index label: its default position, or the cell moved into the index. */
  datatype Label = Position(n: nat) | Key(value: Cell)

  datatype Row = Row(indexLabel: Label, cells: map<string, Cell>)

  datatype Frame = Frame(indexName: Option<string>, columns: seq<string>, rows: seq<Row>)

  /** Column labels are unique and every row has a cell in exactly those columns. */
  predicate WellFormed(f: Frame) {
    && Distinct(f.columns)
    && forall i :: 0 <= i < |f.rows| ==> f.rows[i].cells.Keys == (set c | c in f.columns)
  }

  /** The cell of `row` in `column`, missing when the row has none. */
  function CellOf(row: Row, column: string): Cell {
    if column in row.cells then row.cells[column] else None
  }

  // ---------------------------------------------------------------------
  // change_index (dataprocessor.py:32-38)
  // ---------------------------------------------------------------------

  /** The column labels without `column`, in order. */
  function RemoveLabel(columns: seq<string>, column: string): (r: seq<string>)
    ensures forall c :: c in r <==> c in columns && c != column
    ensures IsSubsequence(r, columns)
    ensures Distinct(columns) ==> Distinct(r)
  {
    var r := Filter(columns, c => c != column);
    FilterMembers(columns, c => c != column);
    FilterDistinct(columns, c => c != column);
    r
  }

  /**
   * `DataFrame.set_index(column)`: the column's cells become the row
   * labels, the column leaves the columns, and the previous labels are
   * discarded.
   */
  function SetIndex(f: Frame, column: string): (r: Frame)
    requires column in f.columns
    ensures r.indexName == Some(column)
    ensures forall c :: c in r.columns <==> c in f.columns && c != column
    ensures IsSubsequence(r.columns, f.columns)
    ensures |r.rows| == |f.rows|
    ensures forall i :: 0 <= i < |r.rows| ==>
      r.rows[i].indexLabel == Key(CellOf(f.rows[i], column)) && r.rows[i].cells == f.rows[i].cells - {column}
    ensures WellFormed(f) ==> WellFormed(r)
  {
    var rows := seq(|f.rows|, i requires 0 <= i < |f.rows| =>
      Row(Key(CellOf(f.rows[i], column)), f.rows[i].cells - {column}));
    Frame(Some(column), RemoveLabel(f.columns, column), rows)
  }

  // ---------------------------------------------------------------------
  // remove_duplicates (dataprocessor.py:40-43)
  // ---------------------------------------------------------------------

  /** The cells of each row, without the labels: what `drop_duplicates` compares. */
  function CellsOf(rows: seq<Row>): (r: seq<map<string, Cell>>)
    ensures |r| == |rows|
    ensures forall i :: 0 <= i < |rows| ==> r[i] == rows[i].cells
  {
    seq(|rows|, i requires 0 <= i < |rows| => rows[i].cells)
  }

  /** No earlier row of `rows` has the same cells as `rows[i]`. */
  predicate FirstOccurrence(rows: seq<Row>, i: nat)
    requires i < |rows|
  {
    rows[i].cells !in CellsOf(rows[..i])
  }

  /**
   * `DataFrame.drop_duplicates()`: keep the first row of each set of rows
   * with equal cells in every column; the index label takes no part.
   */
  function DropDuplicates(rows: seq<Row>): (r: seq<Row>)
    ensures IsSubsequence(r, rows)
    ensures Distinct(CellsOf(r))
    decreases |rows|
  {
    if rows == [] then []
    else
      var n := |rows| - 1;
      var init := rows[..n];
      var kept := DropDuplicates(init);
      if rows[n].cells in CellsOf(init) then kept
      else
        var r := kept + [rows[n]];
        assert r[..|kept|] == kept;
        assert rows[n].cells !in CellsOf(kept) by {
          SubsequenceMembers(kept, init);
          forall k | 0 <= k < |kept| ensures CellsOf(kept)[k] != rows[n].cells {
            var i :| 0 <= i < n && init[i] == kept[k];
            assert CellsOf(init)[i] == kept[k].cells;
          }
        }
        assert CellsOf(r) == CellsOf(kept) + [rows[n].cells];
        r
  }

  /** The first row with given cells is kept. */
  lemma {:induction false} DropDuplicatesKeepsFirst(rows: seq<Row>, i: nat)
    requires i < |rows| && FirstOccurrence(rows, i)
    ensures rows[i] in DropDuplicates(rows)
    decreases |rows|
  {
    var n := |rows| - 1;
    var init := rows[..n];
    if i < n {
      assert init[..i] == rows[..i] && init[i] == rows[i];
      DropDuplicatesKeepsFirst(init, i);
    } else {
      assert init == rows[..i];
    }
  }

  /** Every row's cells survive, in the row that first has them. */
  lemma {:induction false} DropDuplicatesCovers(rows: seq<Row>, i: nat)
    requires i < |rows|
    ensures rows[i].cells in CellsOf(DropDuplicates(rows))
    decreases |rows|
  {
    var n := |rows| - 1;
    var init := rows[..n];
    var kept := DropDuplicates(init);
    if i < n {
      assert init[i] == rows[i];
      DropDuplicatesCovers(init, i);
      var k :| 0 <= k < |kept| && CellsOf(kept)[k] == rows[i].cells;
      if rows[n].cells !in CellsOf(init) {
        assert CellsOf(kept + [rows[n]])[k] == rows[i].cells;
      }
    } else if rows[n].cells in CellsOf(init) {
      var j :| 0 <= j < n && CellsOf(init)[j] == rows[n].cells;
      DropDuplicatesCovers(init, j);
    } else {
      assert CellsOf(kept + [rows[n]])[|kept|] == rows[n].cells;
    }
  }

  /** Rows whose cells are already pairwise different lose nothing. */
  lemma {:induction false} DropDuplicatesNoop(rows: seq<Row>)
    requires Distinct(CellsOf(rows))
    ensures DropDuplicates(rows) == rows
    decreases |rows|
  {
    if rows != [] {
      var n := |rows| - 1;
      var init := rows[..n];
      assert Distinct(CellsOf(init)) by {
        forall i, j | 0 <= i < j < n ensures CellsOf(init)[i] != CellsOf(init)[j] {
          assert CellsOf(rows)[i] != CellsOf(rows)[j];
        }
      }
      DropDuplicatesNoop(init);
      assert rows[n].cells !in CellsOf(init) by {
        forall i | 0 <= i < n ensures CellsOf(init)[i] != rows[n].cells {
          assert CellsOf(rows)[i] != CellsOf(rows)[n];
        }
      }
      assert rows == init + [rows[n]];
    }
  }

  /** Removing duplicates twice is removing them once. */
  lemma DropDuplicatesIdempotent(rows: seq<Row>)
    ensures DropDuplicates(DropDuplicates(rows)) == DropDuplicates(rows)
  {
    DropDuplicatesNoop(DropDuplicates(rows));
  }

  /** Which rows survive depends on the cells alone, not on the index labels. */
  lemma {:induction false} DropDuplicatesIgnoresLabels(a: seq<Row>, b: seq<Row>)
    requires CellsOf(a) == CellsOf(b)
    ensures CellsOf(DropDuplicates(a)) == CellsOf(DropDuplicates(b))
    decreases |a|
  {
    if a != [] {
      var n := |a| - 1;
      assert CellsOf(a[..n]) == CellsOf(b[..n]) by {
        forall i | 0 <= i < n ensures CellsOf(a[..n])[i] == CellsOf(b[..n])[i] {
          assert CellsOf(a)[i] == CellsOf(b)[i];
        }
      }
      DropDuplicatesIgnoresLabels(a[..n], b[..n]);
      assert a[n].cells == CellsOf(a)[n] == CellsOf(b)[n] == b[n].cells;
      var ka, kb := DropDuplicates(a[..n]), DropDuplicates(b[..n]);
      if a[n].cells !in CellsOf(a[..n]) {
        assert CellsOf(ka + [a[n]]) == CellsOf(ka) + [a[n].cells];
        assert CellsOf(kb + [b[n]]) == CellsOf(kb) + [b[n].cells];
      }
    }
  }

  /** Two rows with the same cells are duplicates even under different labels. */
  lemma LabelsDoNotSeparate(first: Row, second: Row)
    requires first.cells == second.cells
    ensures DropDuplicates([first, second]) == [first]
  {
    var rows := [first, second];
    assert rows[..1] == [first];
    assert [first][..0] == [];
    assert CellsOf(rows[..1]) == [first.cells];
  }

  // ---------------------------------------------------------------------
  // remove_missing_values (dataprocessor.py:45-48)
  // ---------------------------------------------------------------------

  /** The row has no missing cell. */
  predicate IsComplete(row: Row) {
    forall c :: c in row.cells ==> row.cells[c].Some?
  }

  /** `DataFrame.dropna()`: exactly the rows without a missing cell, in order. */
  function DropMissing(rows: seq<Row>): (r: seq<Row>)
    ensures IsSubsequence(r, rows)
    ensures forall k :: 0 <= k < |r| ==> IsComplete(r[k]) && r[k] in rows
    ensures forall i :: 0 <= i < |rows| && IsComplete(rows[i]) ==> rows[i] in r
    ensures forall row :: multiset(r)[row] == if IsComplete(row) then multiset(rows)[row] else 0
  {
    FilterMembers(rows, IsComplete);
    FilterCounts(rows, IsComplete);
    Filter(rows, IsComplete)
  }

  /** A frame without missing cells is left alone, and dropping twice is dropping once. */
  lemma DropMissingIdempotent(rows: seq<Row>)
    ensures (forall i :: 0 <= i < |rows| ==> IsComplete(rows[i])) ==> DropMissing(rows) == rows
    ensures DropMissing(DropMissing(rows)) == DropMissing(rows)
  {
    if forall i :: 0 <= i < |rows| ==> IsComplete(rows[i]) {
      FilterKeepsAll(rows, IsComplete);
    }
    FilterIdempotent(rows, IsComplete);
  }

  /** Rows are dropped one by one: `dropna` of a concatenation is the concatenation of the two. */
  lemma DropMissingAppend(a: seq<Row>, b: seq<Row>)
    ensures DropMissing(a + b) == DropMissing(a) + DropMissing(b)
  {
    FilterAppend(a, b, IsComplete);
  }

  // ---------------------------------------------------------------------
  // The column text operations (dataprocessor.py:88-126)
  // ---------------------------------------------------------------------

  /** A `Series.str` method on one cell: missing stays missing. */
  function MapCell(g: string -> string, c: Cell): (d: Cell)
    ensures d.None? <==> c.None?
    ensures c.Some? ==> d.value == g(c.value)
  {
    match c
    case None => None
    case Some(s) => Some(g(s))
  }

  /** One row after a `Series.str` method on `column`: that cell mapped, the rest as they were. */
  function MapRow(row: Row, column: string, g: string -> string): (r: Row)
    ensures r.indexLabel == row.indexLabel && r.cells.Keys == row.cells.Keys
    ensures forall c :: c in row.cells && c != column ==> r.cells[c] == row.cells[c]
    ensures column in row.cells ==> r.cells[column] == MapCell(g, row.cells[column])
  {
    if column in row.cells then Row(row.indexLabel, row.cells[column := MapCell(g, row.cells[column])]) else row
  }

  /** `self.dataframe[column] = self.dataframe[column].str.<g>()`. */
  function MapColumn(f: Frame, column: string, g: string -> string): (r: Frame)
    ensures r.indexName == f.indexName && r.columns == f.columns && |r.rows| == |f.rows|
    ensures forall i :: 0 <= i < |r.rows| ==> r.rows[i] == MapRow(f.rows[i], column, g)
    ensures WellFormed(f) ==> WellFormed(r)
  {
    Frame(f.indexName, f.columns, seq(|f.rows|, i requires 0 <= i < |f.rows| => MapRow(f.rows[i], column, g)))
  }

  /** Every present cell of `column` satisfies `p`. */
  predicate ColumnAll(f: Frame, column: string, p: string -> bool) {
    forall i :: 0 <= i < |f.rows| && column in f.rows[i].cells && f.rows[i].cells[column].Some? ==>
      p(f.rows[i].cells[column].value)
  }

  /** Mapping a row's cell with `g` and then with `h` maps it once with their composition. */
  lemma MapRowCompose(row: Row, column: string, g: string -> string, h: string -> string, k: string -> string)
    requires forall s :: k(s) == h(g(s))
    ensures MapRow(MapRow(row, column, g), column, h) == MapRow(row, column, k)
  {
    if column in row.cells {
      var left, right := MapRow(MapRow(row, column, g), column, h), MapRow(row, column, k);
      assert left.cells[column] == right.cells[column];
      assert left.cells == right.cells;
    }
  }

  /** Mapping a column with `g` and then with `h` maps it once with their composition. */
  lemma MapColumnCompose(f: Frame, column: string, g: string -> string, h: string -> string, k: string -> string)
    requires forall s :: k(s) == h(g(s))
    ensures MapColumn(MapColumn(f, column, g), column, h) == MapColumn(f, column, k)
  {
    var left, right := MapColumn(MapColumn(f, column, g), column, h), MapColumn(f, column, k);
    forall i | 0 <= i < |left.rows| ensures left.rows[i] == right.rows[i] {
      MapRowCompose(f.rows[i], column, g, h, k);
    }
  }

  /** A present cell of a column mapped with `g` holds a value `g` returns. */
  lemma MapColumnAll(f: Frame, column: string, g: string -> string, p: string -> bool)
    requires forall s :: p(g(s))
    ensures ColumnAll(MapColumn(f, column, g), column, p)
  {
    var r := MapColumn(f, column, g);
    forall i | 0 <= i < |r.rows| && column in r.rows[i].cells && r.rows[i].cells[column].Some?
      ensures p(r.rows[i].cells[column].value)
    {
      assert r.rows[i] == MapRow(f.rows[i], column, g);
    }
  }

  /** `str.replace(r"[^a-zA-Z0-9]", "", regex=True)`: keep the ASCII letters and digits. */
  function RemoveSpecial(s: string): (r: string)
    ensures AllChars(r, IsAsciiAlnum)
    ensures IsSubsequence(r, s)
    ensures forall i :: 0 <= i < |s| && IsAsciiAlnum(s[i]) ==> s[i] in r
    ensures forall c :: multiset(r)[c] == if IsAsciiAlnum(c) then multiset(s)[c] else 0
  {
    FilterMembers(s, IsAsciiAlnum);
    FilterCounts(s, IsAsciiAlnum);
    Filter(s, IsAsciiAlnum)
  }

  predicate IsLowerAlnum(c: char) { IsAsciiLower(c) || IsAsciiDigit(c) }

  predicate AllLowerAlnum(s: string) { AllChars(s, IsLowerAlnum) }

  predicate AllAlnum(s: string) { AllChars(s, IsAsciiAlnum) }

  /** `clean_text_column` on one cell: lower-case, strip, remove special characters. */
  function CleanText(s: string): (r: string)
    ensures AllLowerAlnum(r)
  {
    var stripped := Strip(Lower(s));
    StripCharsKeeps(Lower(s), IsSpace, NotAsciiUpper);
    FilterKeepsProperty(stripped, IsAsciiAlnum, NotAsciiUpper);
    RemoveSpecial(stripped)
  }

  predicate NotAsciiUpper(c: char) { !IsAsciiUpper(c) }

  /** Dropping leading characters the filter would drop anyway changes nothing. */
  lemma {:induction false} FilterLStrip(s: string, drop: char -> bool, p: char -> bool)
    requires forall c :: drop(c) ==> !p(c)
    ensures Filter(LStrip(s, drop), p) == Filter(s, p)
    decreases |s|
  {
    if s != [] && drop(s[0]) {
      FilterLStrip(s[1..], drop, p);
      assert s == [s[0]] + s[1..];
      FilterAppend([s[0]], s[1..], p);
      assert [s[0]][..0] == [];
    }
  }

  /** Nor does dropping trailing ones. */
  lemma {:induction false} FilterRStrip(s: string, drop: char -> bool, p: char -> bool)
    requires forall c :: drop(c) ==> !p(c)
    ensures Filter(RStrip(s, drop), p) == Filter(s, p)
    decreases |s|
  {
    if s != [] && drop(s[|s| - 1]) {
      FilterRStrip(s[..|s| - 1], drop, p);
    }
  }

  /** Whitespace is neither a letter nor a digit. */
  lemma SpaceIsNotAlnum()
    ensures forall c :: IsSpace(c) ==> !IsAsciiAlnum(c)
  {
  }

  /** The first two steps of `clean_text_column` on one cell. */
  function LowerStrip(s: string): string {
    Strip(Lower(s))
  }

  /** Stripping whitespace before removing special characters changes nothing. */
  lemma StripBeforeRemoveSpecial(s: string)
    ensures RemoveSpecial(Strip(s)) == RemoveSpecial(s)
  {
    SpaceIsNotAlnum();
    FilterLStrip(s, IsSpace, IsAsciiAlnum);
    FilterRStrip(LStrip(s, IsSpace), IsSpace, IsAsciiAlnum);
  }

  /** So `clean_text_column` is lower-casing followed by special-character removal. */
  lemma CleanTextIsLowerAlnum(s: string)
    ensures CleanText(s) == RemoveSpecial(Lower(s))
  {
    StripBeforeRemoveSpecial(Lower(s));
  }

  /** A lower-case letter or digit is not whitespace and has no capital form. */
  lemma LowerAlnumFixed(c: char)
    requires IsLowerAlnum(c)
    ensures !IsSpace(c) && !IsAsciiUpper(c) && !IsLatin1Upper(c) && IsAsciiAlnum(c)
  {
  }

  /** Cleaning text twice is cleaning it once. */
  lemma CleanTextIdempotent(s: string)
    ensures CleanText(CleanText(s)) == CleanText(s)
  {
    var v := CleanText(s);
    forall i | 0 <= i < |v| ensures !IsSpace(v[i]) && !IsAsciiUpper(v[i]) && !IsLatin1Upper(v[i]) && IsAsciiAlnum(v[i]) {
      LowerAlnumFixed(v[i]);
    }
    LowerNoop(v);
    StripCharsNoop(v, IsSpace);
    FilterKeepsAll(v, IsAsciiAlnum);
  }

  /** Cleaning a column twice is cleaning it once. */
  lemma CleanColumnIdempotent(f: Frame, column: string)
    ensures MapColumn(MapColumn(f, column, CleanText), column, CleanText) == MapColumn(f, column, CleanText)
  {
    forall s ensures CleanText(s) == CleanText(CleanText(s)) {
      CleanTextIdempotent(s);
    }
    MapColumnCompose(f, column, CleanText, CleanText, CleanText);
  }

  /** Removing special characters a second time changes nothing. */
  lemma RemoveSpecialIdempotent(s: string)
    ensures RemoveSpecial(RemoveSpecial(s)) == RemoveSpecial(s)
  {
    FilterIdempotent(s, IsAsciiAlnum);
  }

  // ---------------------------------------------------------------------
  // DataFrameCleaner (dataprocessor.py:11-131)
  // ---------------------------------------------------------------------

  /**
   * Each column method first asserts that the column is one of the frame's
   * columns; the `ok` it returns is false exactly when that assertion
   * fails, and the frame is then left as it was.
   */
  class DataFrameCleaner {
    var dataframe: Frame

    ghost predicate Valid()
      reads this
    {
      WellFormed(dataframe)
    }

    constructor(dataframe: Frame)
      requires WellFormed(dataframe)
      ensures Valid() && this.dataframe == dataframe
    {
      this.dataframe := dataframe;
    }

    /** `set_index(column)` after checking the column exists. */
    method ChangeIndex(column: string) returns (ok: bool)
      requires Valid()
      modifies this
      ensures Valid()
      ensures ok <==> column in old(dataframe.columns)
      ensures ok ==> dataframe == SetIndex(old(dataframe), column)
      ensures !ok ==> dataframe == old(dataframe)
    {
      if column !in dataframe.columns {
        return false;
      }
      dataframe := SetIndex(dataframe, column);
      return true;
    }

    /**
     * `drop_duplicates()`: the columns and index name stay, the rows are
     * deduplicated.  A frame without columns is empty to pandas, which then
     * returns it unchanged.
     */
    method RemoveDuplicates()
      requires Valid()
      modifies this
      ensures Valid()
      ensures old(dataframe.columns) == [] ==> dataframe == old(dataframe)
      ensures old(dataframe.columns) != [] ==> dataframe == old(dataframe).(rows := DropDuplicates(old(dataframe.rows)))
    {
      if dataframe.columns == [] {
        return;
      }
      var rows := DropDuplicates(dataframe.rows);
      SubsequenceMembers(rows, dataframe.rows);
      dataframe := dataframe.(rows := rows);
    }

    /** `dropna()`: the columns and index name stay, incomplete rows go. */
    method RemoveMissingValues()
      requires Valid()
      modifies this
      ensures Valid()
      ensures dataframe == old(dataframe).(rows := DropMissing(old(dataframe.rows)))
    {
      var rows := DropMissing(dataframe.rows);
      dataframe := dataframe.(rows := rows);
    }

    /** Replace a column by `g` of it, after checking the column exists. */
    method MapExistingColumn(column: string, g: string -> string) returns (ok: bool)
      requires Valid()
      modifies this
      ensures Valid()
      ensures ok <==> column in old(dataframe.columns)
      ensures ok ==> dataframe == MapColumn(old(dataframe), column, g)
      ensures !ok ==> dataframe == old(dataframe)
    {
      if column !in dataframe.columns {
        return false;
      }
      dataframe := MapColumn(dataframe, column, g);
      return true;
    }

    /** `lower_case_column`: `str.lower` on every present cell of the column. */
    method LowerCaseColumn(column: string) returns (ok: bool)
      requires Valid()
      modifies this
      ensures Valid()
      ensures ok <==> column in old(dataframe.columns)
      ensures ok ==> dataframe == MapColumn(old(dataframe), column, Lower)
      ensures !ok ==> dataframe == old(dataframe)
    {
      ok := MapExistingColumn(column, Lower);
    }

    /** `remove_white_spaces`: `str.strip` on every present cell of the column. */
    method RemoveWhiteSpaces(column: string) returns (ok: bool)
      requires Valid()
      modifies this
      ensures Valid()
      ensures ok <==> column in old(dataframe.columns)
      ensures ok ==> dataframe == MapColumn(old(dataframe), column, Strip)
      ensures !ok ==> dataframe == old(dataframe)
    {
      ok := MapExistingColumn(column, Strip);
    }

    /** `remove_special_characters`: only `[a-zA-Z0-9]` is left in the column. */
    method RemoveSpecialCharacters(column: string) returns (ok: bool)
      requires Valid()
      modifies this
      ensures Valid()
      ensures ok <==> column in old(dataframe.columns)
      ensures ok ==> dataframe == MapColumn(old(dataframe), column, RemoveSpecial)
      ensures ok ==> ColumnAll(dataframe, column, AllAlnum)
      ensures !ok ==> dataframe == old(dataframe)
    {
      ok := MapExistingColumn(column, RemoveSpecial);
      if ok {
        MapColumnAll(old(dataframe), column, RemoveSpecial, AllAlnum);
      }
    }

    /**
     * `clean_text_column`: check the column, then lower-case it, strip it
     * and remove its special characters; only `[a-z0-9]` is left.
     */
    method CleanTextColumn(column: string) returns (ok: bool)
      requires Valid()
      modifies this
      ensures Valid()
      ensures ok <==> column in old(dataframe.columns)
      ensures ok ==> dataframe == MapColumn(old(dataframe), column, CleanText)
      ensures ok ==> ColumnAll(dataframe, column, AllLowerAlnum)
      ensures !ok ==> dataframe == old(dataframe)
    {
      if column !in dataframe.columns {
        return false;
      }
      ghost var before := dataframe;
      ok := LowerCaseColumn(column);
      ok := RemoveWhiteSpaces(column);
      MapColumnCompose(before, column, Lower, Strip, LowerStrip);
      ok := RemoveSpecialCharacters(column);
      MapColumnCompose(before, column, LowerStrip, RemoveSpecial, CleanText);
      MapColumnAll(before, column, CleanText, AllLowerAlnum);
    }

    /** `get_cleaned_dataframe`: the current frame, nothing changed. */
    method GetCleanedDataframe() returns (df: Frame)
      ensures df == dataframe
    {
      df := dataframe;
    }
  }
}
