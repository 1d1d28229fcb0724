/** The two tables the quiz view exports to Word besides the test itself:
    the matrix (handleDownloadMatrixWord), one numbered row per matrix row
    with its twelve counts and their total, and the detailed specification
    (handleDownloadSpecWord), one row per learning outcome of the grouped
    tree with the topic and unit written out on every row. Only the table
    bodies are modelled; the HTML around them is fixed text. */
module WordTables {
  import opened Wrappers
  import opened Catalog
  import opened Text
  import opened Matrix
  import opened Grouping
  import opened SpecTable

  // ---- the matrix table ----

  /** `${row.counts[qType][level] || ''}`: a zero count is an empty cell. */
  function MatrixCell(v: int): string
  {
    if v == 0 then "" else IntToString(v)
  }

  datatype MatrixWordRow = MatrixWordRow(number: string, topic: string, knowledgeUnit: string,
                                         cells: seq<string>, total: int)

  /** The twelve cells, types outermost and levels innermost. */
  function MatrixCells(c: Counts): seq<string>
  {
    seq(12, k requires 0 <= k < 12 => MatrixCell(Get(c, ColumnType(k), ColumnLevel(k))))
  }

  /** The body of the matrix table: row `idx` is numbered `idx + 1`, and its
      total is the nested `reduce` over types and levels. */
  function MatrixWordRows(rows: seq<Row>): seq<MatrixWordRow>
  {
    seq(|rows|, i requires 0 <= i < |rows| =>
      MatrixWordRow(IntToString(i + 1), rows[i].topic, rows[i].knowledgeUnit,
                    MatrixCells(rows[i].counts), CellSum(rows[i].counts)))
  }

  /** A cell is empty exactly when its count is zero, and otherwise reads
      back as the count. */
  lemma MatrixCellRoundTrip(v: int)
    ensures MatrixCell(v) == "" <==> v == 0
    ensures v != 0 ==> ParseInt(MatrixCell(v)) == v
  {
    if v != 0 {
      IntToStringRoundTrip(v);
    }
  }

  /** Row by row, the table numbers the matrix rows 1, 2, … in order and
      shows each one's names and counts. */
  lemma MatrixWordRowsFaithful(rows: seq<Row>)
    ensures var w := MatrixWordRows(rows);
      && |w| == |rows|
      && forall i :: 0 <= i < |w| ==>
           && ParseInt(w[i].number) == i + 1
           && w[i].topic == rows[i].topic && w[i].knowledgeUnit == rows[i].knowledgeUnit
           && |w[i].cells| == 12
           && forall k :: 0 <= k < 12 ==>
                var v := Get(rows[i].counts, ColumnType(k), ColumnLevel(k));
                (w[i].cells[k] == "" <==> v == 0) && (v != 0 ==> ParseInt(w[i].cells[k]) == v)
  {
    var w := MatrixWordRows(rows);
    forall i | 0 <= i < |w| ensures ParseInt(w[i].number) == i + 1 {
      IntToStringRoundTrip(i + 1);
    }
    forall i, k | 0 <= i < |w| && 0 <= k < 12
      ensures var v := Get(rows[i].counts, ColumnType(k), ColumnLevel(k));
        (w[i].cells[k] == "" <==> v == 0) && (v != 0 ==> ParseInt(w[i].cells[k]) == v)
    {
      MatrixCellRoundTrip(Get(rows[i].counts, ColumnType(k), ColumnLevel(k)));
    }
  }

  /** Sum of the `total` column. */
  function TotalColumn(w: seq<MatrixWordRow>): int
  {
    if w == [] then 0 else TotalColumn(w[..|w| - 1]) + w[|w| - 1].total
  }

  lemma {:induction false} TotalColumnIsSumCells(rows: seq<Row>)
    ensures TotalColumn(MatrixWordRows(rows)) == SumCells(rows)
  {
    if rows != [] {
      var init := rows[..|rows| - 1];
      TotalColumnIsSumCells(init);
      assert MatrixWordRows(rows)[..|rows| - 1] == MatrixWordRows(init);
    }
  }

  /** The totals of the exported rows add up to the grand total of the
      column totals shown under the on-screen matrix. */
  lemma MatrixWordGrandTotal(rows: seq<Row>)
    ensures TotalColumn(MatrixWordRows(rows)) == CellSum(ColumnTotals(rows))
  {
    TotalColumnIsSumCells(rows);
    CellSumOfColumnTotals(rows);
  }

  // ---- the specification table ----

  datatype SpecWordRow = SpecWordRow(chuDe: string, noiDung: string, yeuCau: string, cells: seq<string>)

  /** `countGroup[qType]?.[level] || ''` in the twelve cells; the topic and
      the unit repeat on every row instead of spanning. */
  function SpecWordRowOf(cat: Catalog, s: Slot): SpecWordRow
  {
    SpecWordRow(s.chuDe, s.noiDung, s.yeuCau, ShownCells(cat, s.countGroup))
  }

  /** The body of the specification table for the leaves `ss` of the
      grouped tree (`Slots(Group(specification))`), in order. */
  function SpecWordRows(cat: Catalog, ss: seq<Slot>): seq<SpecWordRow>
  {
    seq(|ss|, i requires 0 <= i < |ss| => SpecWordRowOf(cat, ss[i]))
  }

  /** The Word table has a row for every row of the on-screen table (the
      quiz view's copy, without a total column), with the same outcome and
      the same twelve cells; where the on-screen row carries a topic or a
      unit cell, the Word row names the same topic or unit. */
  lemma SpecWordMatchesScreen(cat: Catalog, ss: seq<Slot>)
    ensures var word := SpecWordRows(cat, ss);
      var screen := RowsOf(cat, false, ss);
      && |word| == |screen|
      && forall i :: 0 <= i < |word| ==>
           && word[i].yeuCau == screen[i].outcome
           && word[i].cells == screen[i].counts
           && (screen[i].topicCell.Some? ==> screen[i].topicCell.value.text == word[i].chuDe)
           && (screen[i].unitCell.Some? ==> screen[i].unitCell.value.text == word[i].noiDung)
  {
    RowsOfAt(cat, false, ss);
  }
}
