/** The assessment matrix of MatrixCreator: an ordered list of rows, each a
    (topic, knowledge unit) pair with a complete type x level grid of
    question counts and a derived percentage; the three edits the component
    makes to it (save from the add-content form, overwrite one cell, remove
    a row), and the totals shown under the table.

    Weights are in hundredths of a point and the stored percentage is in
    hundredths of a percent, so `percentage = 10 * points` holds exactly. */
module Matrix {
  import opened Wrappers
  import opened Seqs
  import opened Catalog

  datatype Row = Row(id: string, topic: string, knowledgeUnit: string, learningOutcome: string, counts: Counts, percentage: int)

  /** The add-content form (`modalData`). */
  datatype Draft = Draft(topic: string, knowledgeUnit: string, learningOutcome: string, qType: QType, level: Level, count: int)

  /** The form's initial and reset value. */
  const EmptyDraft: Draft := Draft("", "", "", QTypes[0], Levels[0], 1)

  /** A row's percentage, derived from its counts: 10 x points. */
  function Percentage(c: Counts, weight: QType -> nat): int
  {
    10 * Points(c, weight)
  }

  predicate Consistent(r: Row, weight: QType -> nat)
  {
    r.percentage == Percentage(r.counts, weight)
  }

  /** No stored percentage is stale. */
  predicate AllConsistent(rows: seq<Row>, weight: QType -> nat)
  {
    forall i :: 0 <= i < |rows| ==> Consistent(rows[i], weight)
  }

  /** The (topic, knowledge unit) pair identifies a row. */
  predicate UniqueKeys(rows: seq<Row>)
  {
    forall i, j :: 0 <= i < j < |rows| ==> !(rows[i].topic == rows[j].topic && rows[i].knowledgeUnit == rows[j].knowledgeUnit)
  }

  function KeyIs(topic: string, unit: string): Row -> bool
  {
    (r: Row) => r.topic == topic && r.knowledgeUnit == unit
  }

  function IdIs(id: string): Row -> bool
  {
    (r: Row) => r.id == id
  }

  function IdIsNot(id: string): Row -> bool
  {
    (r: Row) => r.id != id
  }

  // ---- the row points shown in the table (a nested reduce) ----

  function WeightedLevelsUpTo(c: Counts, weight: QType -> nat, t: QType, n: nat): int
    requires n <= |Levels|
  {
    if n == 0 then 0 else WeightedLevelsUpTo(c, weight, t, n - 1) + Get(c, t, Levels[n - 1]) * weight(t)
  }

  function RowTotalPointsUpTo(c: Counts, weight: QType -> nat, n: nat): int
    requires n <= |QTypes|
  {
    if n == 0 then 0 else RowTotalPointsUpTo(c, weight, n - 1) + WeightedLevelsUpTo(c, weight, QTypes[n - 1], |Levels|)
  }

  /** Sum over types and levels of count x weight(type). */
  function RowTotalPoints(c: Counts, weight: QType -> nat): int
  {
    RowTotalPointsUpTo(c, weight, |QTypes|)
  }

  lemma WeightedLevels(c: Counts, weight: QType -> nat, t: QType)
    ensures WeightedLevelsUpTo(c, weight, t, |Levels|) == TypeTotal(c, t) * weight(t)
  {
    TypeTotalCells(c, t);
    assert WeightedLevelsUpTo(c, weight, t, 1) == Get(c, t, Know) * weight(t);
    assert WeightedLevelsUpTo(c, weight, t, 2) == Get(c, t, Know) * weight(t) + Get(c, t, Understand) * weight(t);
    MulDistributes(Get(c, t, Know), Get(c, t, Understand), weight(t));
    MulDistributes(Get(c, t, Know) + Get(c, t, Understand), Get(c, t, Apply), weight(t));
  }

  /** The points displayed in a row's total column and its stored
      percentage agree: percentage = 10 x displayed points. */
  lemma RowTotalPointsMatchPercentage(c: Counts, weight: QType -> nat)
    ensures Percentage(c, weight) == 10 * RowTotalPoints(c, weight)
  {
    forall t ensures WeightedLevelsUpTo(c, weight, t, |Levels|) == TypeTotal(c, t) * weight(t) {
      WeightedLevels(c, weight, t);
    }
    PointsTypes(c, weight);
    assert RowTotalPointsUpTo(c, weight, 1) == TypeTotal(c, MultipleChoice) * weight(MultipleChoice);
    assert RowTotalPointsUpTo(c, weight, 2) == RowTotalPointsUpTo(c, weight, 1) + TypeTotal(c, TrueFalse) * weight(TrueFalse);
    assert RowTotalPointsUpTo(c, weight, 3) == RowTotalPointsUpTo(c, weight, 2) + TypeTotal(c, ShortAnswer) * weight(ShortAnswer);
  }

  /** The `for (const type of QUESTION_TYPES)` loop of the two handlers
      that recompute a row's points. */
  method RowPoints(c: Counts, weight: QType -> nat) returns (rowPoints: int)
    ensures rowPoints == Points(c, weight)
  {
    rowPoints := 0;
    for i := 0 to |QTypes|
      invariant rowPoints == PointsUpTo(c, weight, i)
    {
      var t := QTypes[i];
      var typeTotalInRow := TypeTotal(c, t);
      rowPoints := rowPoints + typeTotalInRow * weight(t);
    }
  }

  // ---- handleSaveModal ----

  /** The existing row with the draft's cell incremented; the outcome is
      filled only when the row has none. */
  function Merge(r: Row, d: Draft, weight: QType -> nat): Row
  {
    var counts := Set(r.counts, d.qType, d.level, Get(r.counts, d.qType, d.level) + d.count);
    r.(counts := counts,
       learningOutcome := if r.learningOutcome == "" then d.learningOutcome else r.learningOutcome,
       percentage := Percentage(counts, weight))
  }

  /** The appended row: every cell 0 but the draft's; its percentage is
      computed by the shortcut count x weight x 10. */
  function NewRow(id: string, d: Draft, weight: QType -> nat): Row
  {
    Row(id, d.topic, d.knowledgeUnit, d.learningOutcome, Single(d.qType, d.level, d.count), 10 * (d.count * weight(d.qType)))
  }

  /** The matrix after saving the draft (`newId` is the fresh id the
      component would draw from the clock and a random number). */
  function Saved(rows: seq<Row>, d: Draft, newId: string, weight: QType -> nat): seq<Row>
  {
    if d.topic == "" || d.knowledgeUnit == "" then rows
    else
      var i := FindIndex(rows, KeyIs(d.topic, d.knowledgeUnit));
      if i > -1 then rows[i := Merge(rows[i], d, weight)]
      else rows + [NewRow(newId, d, weight)]
  }

  /** The shortcut used for a new row agrees with the general formula. */
  lemma NewRowConsistent(id: string, d: Draft, weight: QType -> nat)
    ensures Consistent(NewRow(id, d, weight), weight)
    ensures Points(Single(d.qType, d.level, d.count), weight) == d.count * weight(d.qType)
  {
    var c := Single(d.qType, d.level, d.count);
    PointsTypes(c, weight);
    forall t ensures TypeTotal(c, t) == if t == d.qType then d.count else 0 {
      TypeTotalCells(c, t);
    }
  }

  /** The first row with a given key is the only one when keys are unique. */
  lemma FindKeyUnique(rows: seq<Row>, i: int, topic: string, unit: string)
    requires UniqueKeys(rows)
    requires 0 <= i < |rows| && rows[i].topic == topic && rows[i].knowledgeUnit == unit
    ensures FindIndex(rows, KeyIs(topic, unit)) == i
  {
    var k := FindIndex(rows, KeyIs(topic, unit));
    assert KeyIs(topic, unit)(rows[i]);
    assert 0 <= k <= i;
    assert KeyIs(topic, unit)(rows[k]);
  }

  /** Saving with a blank topic or knowledge unit changes nothing. When a
      row with the draft's key exists, saving adds `count` to that row's
      (type, level) cell, fills its outcome only if empty, keeps its id,
      topic, unit and other cells, recomputes its percentage, and leaves the
      matrix length and every other row unchanged. */
  lemma SaveMerges(rows: seq<Row>, d: Draft, newId: string, weight: QType -> nat, i: int)
    requires UniqueKeys(rows)
    requires 0 <= i < |rows| && rows[i].topic == d.topic && rows[i].knowledgeUnit == d.knowledgeUnit
    ensures d.topic == "" || d.knowledgeUnit == "" ==> Saved(rows, d, newId, weight) == rows
    ensures d.topic != "" && d.knowledgeUnit != "" ==>
      var r := Saved(rows, d, newId, weight);
      && |r| == |rows|
      && (forall j :: 0 <= j < |rows| && j != i ==> r[j] == rows[j])
      && r[i].id == rows[i].id && r[i].topic == rows[i].topic && r[i].knowledgeUnit == rows[i].knowledgeUnit
      && Get(r[i].counts, d.qType, d.level) == Get(rows[i].counts, d.qType, d.level) + d.count
      && (forall t: QType, l: Level :: (t != d.qType || l != d.level) ==> Get(r[i].counts, t, l) == Get(rows[i].counts, t, l))
      && r[i].learningOutcome == (if rows[i].learningOutcome == "" then d.learningOutcome else rows[i].learningOutcome)
      && Consistent(r[i], weight)
  {
    FindKeyUnique(rows, i, d.topic, d.knowledgeUnit);
  }

  /** When no row has the draft's key, saving appends exactly one row at the
      end: the fresh id, the draft's topic, unit and outcome, all twelve
      cells 0 except (type, level) = count, and percentage count x weight x 10. */
  lemma SaveAppends(rows: seq<Row>, d: Draft, newId: string, weight: QType -> nat)
    requires d.topic != "" && d.knowledgeUnit != ""
    requires forall j :: 0 <= j < |rows| ==> !(rows[j].topic == d.topic && rows[j].knowledgeUnit == d.knowledgeUnit)
    ensures var r := Saved(rows, d, newId, weight);
      && |r| == |rows| + 1
      && r[..|rows|] == rows
      && r[|rows|].id == newId && r[|rows|].topic == d.topic && r[|rows|].knowledgeUnit == d.knowledgeUnit
      && r[|rows|].learningOutcome == d.learningOutcome
      && (forall t: QType, l: Level :: Get(r[|rows|].counts, t, l) == if t == d.qType && l == d.level then d.count else 0)
      && r[|rows|].percentage == 10 * d.count * weight(d.qType)
      && Consistent(r[|rows|], weight)
  {
    forall j | 0 <= j < |rows| ensures !KeyIs(d.topic, d.knowledgeUnit)(rows[j]) { }
    NewRowConsistent(newId, d, weight);
  }

  /** Saving keeps every percentage consistent with its counts and the
      (topic, unit) key unique. */
  lemma SavePreservesInvariants(rows: seq<Row>, d: Draft, newId: string, weight: QType -> nat)
    requires AllConsistent(rows, weight) && UniqueKeys(rows)
    ensures AllConsistent(Saved(rows, d, newId, weight), weight)
    ensures UniqueKeys(Saved(rows, d, newId, weight))
  {
    if d.topic != "" && d.knowledgeUnit != "" {
      var i := FindIndex(rows, KeyIs(d.topic, d.knowledgeUnit));
      if i == -1 {
        NewRowConsistent(newId, d, weight);
        var r := Saved(rows, d, newId, weight);
        forall a, b | 0 <= a < b < |r|
          ensures !(r[a].topic == r[b].topic && r[a].knowledgeUnit == r[b].knowledgeUnit)
        {
          if b == |rows| {
            assert !KeyIs(d.topic, d.knowledgeUnit)(rows[a]);
          }
        }
      }
    }
  }

  // ---- handleCountChange ----

  /** A row carrying the given counts and the percentage derived from them. */
  function WithCounts(r: Row, c: Counts, weight: QType -> nat): Row
  {
    r.(counts := c, percentage := Percentage(c, weight))
  }

  /** `currentMatrix.map(row => row.id !== id ? row : {...row, counts})` */
  function ReplaceCounts(rows: seq<Row>, id: string, c: Counts, weight: QType -> nat): (r: seq<Row>)
    ensures |r| == |rows|
  {
    seq(|rows|, k requires 0 <= k < |rows| => if rows[k].id == id then WithCounts(rows[k], c, weight) else rows[k])
  }

  /** The matrix after writing `value` into cell (t, l) of the row with
      the given id. The new grid is a copy of the FIRST row with that id
      (`find`), and every row with that id receives it (`map`). */
  function CountChanged(rows: seq<Row>, id: string, t: QType, l: Level, value: int, weight: QType -> nat): seq<Row>
  {
    var i := FindIndex(rows, IdIs(id));
    if i == -1 then rows
    else ReplaceCounts(rows, id, Set(rows[i].counts, t, l, value), weight)
  }

  /** An unknown id changes nothing. Otherwise every row with that id keeps
      its id, topic, unit and outcome, receives `value` in cell (t, l) as
      given (no adding, no clamping), takes every other cell from the FIRST
      row with that id, and gets its percentage recomputed; every row with
      another id is untouched. */
  lemma CountChangeEffect(rows: seq<Row>, id: string, t: QType, l: Level, value: int, weight: QType -> nat)
    ensures (forall j :: 0 <= j < |rows| ==> rows[j].id != id) ==> CountChanged(rows, id, t, l, value, weight) == rows
    ensures var r := CountChanged(rows, id, t, l, value, weight);
      && |r| == |rows|
      && (forall k :: 0 <= k < |rows| && rows[k].id != id ==> r[k] == rows[k])
    ensures var r := CountChanged(rows, id, t, l, value, weight);
      var first := FindIndex(rows, IdIs(id));
      forall k :: 0 <= k < |rows| && rows[k].id == id ==>
        && 0 <= first <= k && rows[first].id == id
        && r[k].id == id && r[k].topic == rows[k].topic && r[k].knowledgeUnit == rows[k].knowledgeUnit
        && r[k].learningOutcome == rows[k].learningOutcome
        && Get(r[k].counts, t, l) == value
        && (forall t': QType, l': Level :: (t' != t || l' != l) ==> Get(r[k].counts, t', l') == Get(rows[first].counts, t', l'))
        && Consistent(r[k], weight)
  {
    var first := FindIndex(rows, IdIs(id));
    forall j | 0 <= j < |rows| && rows[j].id == id ensures 0 <= first <= j {
      assert IdIs(id)(rows[j]);
    }
    if first == -1 {
      forall j | 0 <= j < |rows| ensures rows[j].id != id {
        assert !IdIs(id)(rows[j]);
      }
    } else {
      assert IdIs(id)(rows[first]);
    }
  }

  /** Writing the same value into the same cell twice equals writing it once. */
  lemma CountChangeIdempotent(rows: seq<Row>, id: string, t: QType, l: Level, value: int, weight: QType -> nat)
    ensures CountChanged(CountChanged(rows, id, t, l, value, weight), id, t, l, value, weight)
         == CountChanged(rows, id, t, l, value, weight)
  {
    var r1 := CountChanged(rows, id, t, l, value, weight);
    var i := FindIndex(rows, IdIs(id));
    if i != -1 {
      var c := Set(rows[i].counts, t, l, value);
      assert forall k :: 0 <= k < |rows| ==> r1[k].id == rows[k].id;
      var i1 := FindIndex(r1, IdIs(id));
      assert IdIs(id)(rows[i]) && IdIs(id)(r1[i]);
      assert 0 <= i1 <= i;
      assert IdIs(id)(r1[i1]) && IdIs(id)(rows[i1]);
      assert i1 == i;
      assert r1[i].counts == c;
      CountsExtensional(Set(c, t, l, value), c);
      var r2 := CountChanged(r1, id, t, l, value, weight);
      assert |r2| == |r1|;
      forall k | 0 <= k < |r1| ensures r2[k] == r1[k] { }
    }
  }

  /** A cell edit keeps every percentage consistent and the keys unique. */
  lemma CountChangePreservesInvariants(rows: seq<Row>, id: string, t: QType, l: Level, value: int, weight: QType -> nat)
    requires AllConsistent(rows, weight) && UniqueKeys(rows)
    ensures AllConsistent(CountChanged(rows, id, t, l, value, weight), weight)
    ensures UniqueKeys(CountChanged(rows, id, t, l, value, weight))
  {
    var r := CountChanged(rows, id, t, l, value, weight);
    assert forall k :: 0 <= k < |rows| ==> r[k].topic == rows[k].topic && r[k].knowledgeUnit == rows[k].knowledgeUnit;
  }

  // ---- handleRemoveRow ----

  /** `matrix.filter(row => row.id !== id)` */
  function Removed(rows: seq<Row>, id: string): seq<Row>
  {
    Filter(rows, IdIsNot(id))
  }

  /** Removal drops exactly the rows with the given id, keeps the others in
      their original order, and keeps the invariants. */
  lemma RemoveEffect(rows: seq<Row>, id: string, weight: QType -> nat)
    ensures forall r :: r in Removed(rows, id) <==> r in rows && r.id != id
    ensures |Removed(rows, id)| == |rows| - Count(rows, IdIs(id))
    ensures forall a, b :: Removed(a + b, id) == Removed(a, id) + Removed(b, id)
    ensures AllConsistent(rows, weight) ==> AllConsistent(Removed(rows, id), weight)
    ensures UniqueKeys(rows) ==> UniqueKeys(Removed(rows, id))
  {
    FilterMembers(rows, IdIsNot(id));
    forall a, b ensures Removed(a + b, id) == Removed(a, id) + Removed(b, id) {
      FilterAppend(a, b, IdIsNot(id));
    }
    RemoveCount(rows, id);
    RemoveKeepsInvariants(rows, id, weight);
  }

  lemma {:induction false} RemoveCount(rows: seq<Row>, id: string)
    ensures Count(rows, IdIsNot(id)) == |rows| - Count(rows, IdIs(id))
  {
    if rows != [] {
      RemoveCount(rows[1..], id);
    }
  }

  lemma {:induction false} RemoveKeepsInvariants(rows: seq<Row>, id: string, weight: QType -> nat)
    ensures AllConsistent(rows, weight) ==> AllConsistent(Removed(rows, id), weight)
    ensures UniqueKeys(rows) ==> UniqueKeys(Removed(rows, id))
  {
    if rows != [] {
      RemoveKeepsInvariants(rows[1..], id, weight);
      var tail := Removed(rows[1..], id);
      FilterMembers(rows[1..], IdIsNot(id));
      assert Removed(rows, id) == (if rows[0].id != id then [rows[0]] else []) + tail;
      if UniqueKeys(rows) {
        assert UniqueKeys(rows[1..]);
        forall x | x in tail ensures !(x.topic == rows[0].topic && x.knowledgeUnit == rows[0].knowledgeUnit) {
          var j :| 0 <= j < |rows[1..]| && rows[1..][j] == x;
          assert rows[j + 1] == x;
        }
        var r := Removed(rows, id);
        if rows[0].id != id {
          forall a, b | 0 <= a < b < |r|
            ensures !(r[a].topic == r[b].topic && r[a].knowledgeUnit == r[b].knowledgeUnit)
          {
            if a == 0 {
              assert r[b] == tail[b - 1] && r[b] in tail;
            } else {
              assert r[a] == tail[a - 1] && r[b] == tail[b - 1];
            }
          }
        }
      }
      if AllConsistent(rows, weight) {
        assert AllConsistent(rows[1..], weight);
      }
    }
  }

  // ---- totals under the table ----

  /** `columnTotals[t][l]`: the sum of that cell over all rows, accumulated
      in row order. */
  function ColumnTotals(rows: seq<Row>): Counts
  {
    if rows == [] then Zero else Add(ColumnTotals(rows[..|rows| - 1]), rows[|rows| - 1].counts)
  }

  /** The nested `forEach` that accumulates the column totals. */
  method ComputeColumnTotals(rows: seq<Row>) returns (totals: Counts)
    ensures totals == ColumnTotals(rows)
  {
    totals := Zero;
    for r := 0 to |rows|
      invariant totals == ColumnTotals(rows[..r])
    {
      ghost var before := totals;
      var row := rows[r];
      for i := 0 to |QTypes|
        invariant forall t: QType, l: Level ::
          Get(totals, t, l) == Get(before, t, l) + (if TypeIndex(t) < i then Get(row.counts, t, l) else 0)
      {
        var qType := QTypes[i];
        IndexOfPosition(i, 0);
        for j := 0 to |Levels|
          invariant forall t: QType, l: Level ::
            Get(totals, t, l) == Get(before, t, l) + (if Swept(t, l, i, j) then Get(row.counts, t, l) else 0)
        {
          var level := Levels[j];
          IndexOfPosition(i, j);
          totals := Set(totals, qType, level, Get(totals, qType, level) + Get(row.counts, qType, level));
        }
      }
      assert rows[..r + 1][..r] == rows[..r];
      CountsExtensional(totals, Add(before, row.counts));
    }
    assert rows[..|rows|] == rows;
  }

  /** Cell (t, l) comes before position (i, j) of the type-major sweep. */
  predicate Swept(t: QType, l: Level, i: nat, j: nat)
  {
    TypeIndex(t) < i || (TypeIndex(t) == i && LevelIndex(l) < j)
  }

  /** Column totals of a concatenation are the cell-wise sum. */
  lemma {:induction false} ColumnTotalsAppend(a: seq<Row>, b: seq<Row>)
    ensures ColumnTotals(a + b) == Add(ColumnTotals(a), ColumnTotals(b))
  {
    if b == [] {
      assert a + b == a;
      CountsExtensional(ColumnTotals(a), Add(ColumnTotals(a), Zero));
    } else {
      var b' := b[..|b| - 1];
      assert (a + b)[..|a + b| - 1] == a + b';
      ColumnTotalsAppend(a, b');
      CountsExtensional(ColumnTotals(a + b), Add(ColumnTotals(a), ColumnTotals(b)));
    }
  }

  /** Saving a non-blank draft adds exactly `count` to the (type, level)
      column total and leaves the other eleven totals unchanged. */
  lemma SaveColumnTotals(rows: seq<Row>, d: Draft, newId: string, weight: QType -> nat)
    requires d.topic != "" && d.knowledgeUnit != ""
    ensures ColumnTotals(Saved(rows, d, newId, weight)) == Add(ColumnTotals(rows), Single(d.qType, d.level, d.count))
  {
    var i := FindIndex(rows, KeyIs(d.topic, d.knowledgeUnit));
    var delta := Single(d.qType, d.level, d.count);
    if i == -1 {
      ColumnTotalsAppend(rows, [NewRow(newId, d, weight)]);
      assert ColumnTotals([NewRow(newId, d, weight)]) == Add(Zero, delta);
      CountsExtensional(Add(Zero, delta), delta);
    } else {
      var m := Merge(rows[i], d, weight);
      assert rows == rows[..i] + [rows[i]] + rows[i + 1..];
      assert rows[i := m] == rows[..i] + [m] + rows[i + 1..];
      ColumnTotalsAppend(rows[..i] + [rows[i]], rows[i + 1..]);
      ColumnTotalsAppend(rows[..i], [rows[i]]);
      ColumnTotalsAppend(rows[..i] + [m], rows[i + 1..]);
      ColumnTotalsAppend(rows[..i], [m]);
      assert ColumnTotals([rows[i]]) == Add(Zero, rows[i].counts);
      assert ColumnTotals([m]) == Add(Zero, m.counts);
      CountsExtensional(ColumnTotals(rows[i := m]), Add(ColumnTotals(rows), delta));
    }
  }

  lemma ColumnTotalsSingle(x: Row)
    ensures ColumnTotals([x]) == x.counts
  {
    assert [x][..0] == [];
    CountsExtensional(Add(Zero, x.counts), x.counts);
  }

  lemma AddZero(c: Counts)
    ensures Add(Zero, c) == c && Add(c, Zero) == c
  {
    CountsExtensional(Add(Zero, c), c);
    CountsExtensional(Add(c, Zero), c);
  }

  /** Filtering a single row keeps its counts exactly when it is kept. */
  lemma FilterOneColumnTotals(y: Row, p: Row -> bool)
    ensures ColumnTotals(Filter([y], p)) == if p(y) then y.counts else Zero
  {
    assert [y][1..] == [];
    if p(y) {
      assert Filter([y], p) == [y];
      ColumnTotalsSingle(y);
    }
  }

  /** Splitting the rows by a predicate splits the totals. */
  lemma {:induction false} FilterColumnTotals(rows: seq<Row>, p: Row -> bool, q: Row -> bool)
    requires forall x :: q(x) == !p(x)
    ensures ColumnTotals(rows) == Add(ColumnTotals(Filter(rows, p)), ColumnTotals(Filter(rows, q)))
  {
    if rows == [] {
      AddZero(Zero);
    } else {
      var init, y := rows[..|rows| - 1], rows[|rows| - 1];
      assert rows == init + [y];
      FilterColumnTotals(init, p, q);
      FilterAppend(init, [y], p);
      FilterAppend(init, [y], q);
      ColumnTotalsAppend(Filter(init, p), Filter([y], p));
      ColumnTotalsAppend(Filter(init, q), Filter([y], q));
      FilterOneColumnTotals(y, p);
      FilterOneColumnTotals(y, q);
      CountsExtensional(ColumnTotals(rows), Add(ColumnTotals(Filter(rows, p)), ColumnTotals(Filter(rows, q))));
    }
  }

  /** Removing by id subtracts exactly the removed rows from the totals. */
  lemma RemoveColumnTotals(rows: seq<Row>, id: string)
    ensures ColumnTotals(rows) == Add(ColumnTotals(Removed(rows, id)), ColumnTotals(Filter(rows, IdIs(id))))
  {
    FilterColumnTotals(rows, IdIsNot(id), IdIs(id));
  }

  /** `grandTotalPointsByLevel[l]` over the first `n` types. */
  function PointsByLevelUpTo(totals: Counts, weight: QType -> nat, l: Level, n: nat): int
    requires n <= |QTypes|
  {
    if n == 0 then 0 else PointsByLevelUpTo(totals, weight, l, n - 1) + Get(totals, QTypes[n - 1], l) * weight(QTypes[n - 1])
  }

  /** Points allocated to cognitive level `l`: sum over types of the column
      total times the type's weight. */
  function PointsByLevel(totals: Counts, weight: QType -> nat, l: Level): int
  {
    PointsByLevelUpTo(totals, weight, l, |QTypes|)
  }

  function TotalPointsUpTo(totals: Counts, weight: QType -> nat, n: nat): int
    requires n <= |Levels|
  {
    if n == 0 then 0 else TotalPointsUpTo(totals, weight, n - 1) + PointsByLevel(totals, weight, Levels[n - 1])
  }

  /** `totalPoints`: the sum of the per-level points. */
  function TotalPoints(totals: Counts, weight: QType -> nat): int
  {
    TotalPointsUpTo(totals, weight, |Levels|)
  }

  /** Summing by level first or by type first gives the same points. */
  lemma TotalPointsIsPoints(totals: Counts, weight: QType -> nat)
    ensures TotalPoints(totals, weight) == Points(totals, weight)
  {
    forall l ensures PointsByLevel(totals, weight, l) ==
      Get(totals, MultipleChoice, l) * weight(MultipleChoice) + Get(totals, TrueFalse, l) * weight(TrueFalse)
      + Get(totals, ShortAnswer, l) * weight(ShortAnswer) + Get(totals, Essay, l) * weight(Essay)
    {
      assert PointsByLevelUpTo(totals, weight, l, 1) == Get(totals, MultipleChoice, l) * weight(MultipleChoice);
      assert PointsByLevelUpTo(totals, weight, l, 2) == PointsByLevelUpTo(totals, weight, l, 1) + Get(totals, TrueFalse, l) * weight(TrueFalse);
      assert PointsByLevelUpTo(totals, weight, l, 3) == PointsByLevelUpTo(totals, weight, l, 2) + Get(totals, ShortAnswer, l) * weight(ShortAnswer);
    }
    assert TotalPointsUpTo(totals, weight, 1) == PointsByLevel(totals, weight, Know);
    assert TotalPointsUpTo(totals, weight, 2) == TotalPointsUpTo(totals, weight, 1) + PointsByLevel(totals, weight, Understand);
    forall t ensures TypeTotal(totals, t) * weight(t) == Get(totals, t, Know) * weight(t) + Get(totals, t, Understand) * weight(t) + Get(totals, t, Apply) * weight(t) {
      TypeTotalCells(totals, t);
      MulDistributes(Get(totals, t, Know), Get(totals, t, Understand), weight(t));
      MulDistributes(Get(totals, t, Know) + Get(totals, t, Understand), Get(totals, t, Apply), weight(t));
    }
    PointsTypes(totals, weight);
  }

  /** Sum of the rows' points. */
  function SumRowPoints(rows: seq<Row>, weight: QType -> nat): int
  {
    if rows == [] then 0 else SumRowPoints(rows[..|rows| - 1], weight) + Points(rows[|rows| - 1].counts, weight)
  }

  /** Sum of the stored percentages. */
  function SumPercentages(rows: seq<Row>): int
  {
    if rows == [] then 0 else SumPercentages(rows[..|rows| - 1]) + rows[|rows| - 1].percentage
  }

  /** The total points under the table equal the sum of the rows' points,
      and ten times it equals the sum of the stored percentages. */
  lemma {:induction false} TotalPointsIsSumOfRows(rows: seq<Row>, weight: QType -> nat)
    ensures TotalPoints(ColumnTotals(rows), weight) == SumRowPoints(rows, weight)
    ensures AllConsistent(rows, weight) ==> 10 * TotalPoints(ColumnTotals(rows), weight) == SumPercentages(rows)
  {
    TotalPointsIsPoints(ColumnTotals(rows), weight);
    if rows == [] {
      PointsTypes(Zero, weight);
      forall t ensures TypeTotal(Zero, t) == 0 { TypeTotalCells(Zero, t); }
    } else {
      var init := rows[..|rows| - 1];
      TotalPointsIsSumOfRows(init, weight);
      TotalPointsIsPoints(ColumnTotals(init), weight);
      AddSums(ColumnTotals(init), rows[|rows| - 1].counts, weight);
      if AllConsistent(rows, weight) {
        assert AllConsistent(init, weight);
        assert Consistent(rows[|rows| - 1], weight);
      }
    }
  }

  // ---- isSubmittable ----

  /** The gating predicate: at least one row and a positive question count. */
  predicate Submittable(rows: seq<Row>)
  {
    |rows| > 0 && CellSum(ColumnTotals(rows)) > 0
  }

  /** The nested `for` loops that add up the column totals. */
  method IsSubmittable(rows: seq<Row>, columnTotals: Counts) returns (submittable: bool)
    requires columnTotals == ColumnTotals(rows)
    ensures submittable == Submittable(rows)
  {
    var totalQuestionsCount := 0;
    for i := 0 to |QTypes|
      invariant totalQuestionsCount == CellSumUpTo(columnTotals, i)
    {
      var qType := QTypes[i];
      for j := 0 to |Levels|
        invariant totalQuestionsCount == CellSumUpTo(columnTotals, i) + LevelSumUpTo(columnTotals, qType, j)
      {
        totalQuestionsCount := totalQuestionsCount + Get(columnTotals, qType, Levels[j]);
      }
    }
    submittable := |rows| > 0 && totalQuestionsCount > 0;
  }

  /** Sum of all cells of all rows. */
  function SumCells(rows: seq<Row>): int
  {
    if rows == [] then 0 else SumCells(rows[..|rows| - 1]) + CellSum(rows[|rows| - 1].counts)
  }

  lemma {:induction false} CellSumOfColumnTotals(rows: seq<Row>)
    ensures CellSum(ColumnTotals(rows)) == SumCells(rows)
  {
    if rows == [] {
      CellSumTypes(Zero);
      forall t ensures TypeTotal(Zero, t) == 0 { TypeTotalCells(Zero, t); }
    } else {
      CellSumOfColumnTotals(rows[..|rows| - 1]);
      AddSums(ColumnTotals(rows[..|rows| - 1]), rows[|rows| - 1].counts, (t: QType) => 0);
    }
  }

  predicate HasPositiveCell(c: Counts)
  {
    exists t: QType, l: Level :: Get(c, t, l) > 0
  }

  predicate NonNegative(c: Counts)
  {
    forall t: QType, l: Level :: Get(c, t, l) >= 0
  }

  lemma CellSumSign(c: Counts)
    ensures CellSum(c) > 0 ==> HasPositiveCell(c)
    ensures NonNegative(c) ==> CellSum(c) >= 0
    ensures NonNegative(c) && HasPositiveCell(c) ==> CellSum(c) > 0
  {
    CellSumTypes(c);
    forall t ensures TypeTotal(c, t) == Get(c, t, Know) + Get(c, t, Understand) + Get(c, t, Apply) {
      TypeTotalCells(c, t);
    }
    if CellSum(c) > 0 && !HasPositiveCell(c) {
      assert forall t: QType, l: Level :: Get(c, t, l) <= 0;
      assert false;
    }
  }

  /** A submittable matrix has a row with a positive cell; conversely, when
      no cell is negative, any row with a positive cell makes it
      submittable. In particular an empty matrix, or one whose rows are all
      zero, is not submittable. */
  lemma {:induction false} SubmittableIffPositiveCell(rows: seq<Row>)
    ensures Submittable(rows) ==> exists i :: 0 <= i < |rows| && HasPositiveCell(rows[i].counts)
    ensures (forall i :: 0 <= i < |rows| ==> NonNegative(rows[i].counts)) && (exists i :: 0 <= i < |rows| && HasPositiveCell(rows[i].counts))
            ==> Submittable(rows)
  {
    CellSumOfColumnTotals(rows);
    SumCellsSign(rows);
  }

  lemma {:induction false} SumCellsSign(rows: seq<Row>)
    ensures SumCells(rows) > 0 ==> exists i :: 0 <= i < |rows| && HasPositiveCell(rows[i].counts)
    ensures (forall i :: 0 <= i < |rows| ==> NonNegative(rows[i].counts)) ==> SumCells(rows) >= 0
    ensures (forall i :: 0 <= i < |rows| ==> NonNegative(rows[i].counts)) && (exists i :: 0 <= i < |rows| && HasPositiveCell(rows[i].counts))
            ==> SumCells(rows) > 0
  {
    if rows != [] {
      var init := rows[..|rows| - 1];
      var last := rows[|rows| - 1];
      SumCellsSign(init);
      CellSumSign(last.counts);
      if SumCells(rows) > 0 && CellSum(last.counts) <= 0 {
        var i :| 0 <= i < |init| && HasPositiveCell(init[i].counts);
        assert rows[i] == init[i];
      }
      if (forall i :: 0 <= i < |rows| ==> NonNegative(rows[i].counts)) {
        assert forall i :: 0 <= i < |init| ==> NonNegative(init[i].counts) by {
          forall i | 0 <= i < |init| ensures NonNegative(init[i].counts) { assert init[i] == rows[i]; }
        }
        if exists i :: 0 <= i < |rows| && HasPositiveCell(rows[i].counts) {
          var i :| 0 <= i < |rows| && HasPositiveCell(rows[i].counts);
          if i < |init| {
            assert init[i] == rows[i];
          }
        }
      }
    }
  }

  /** The commit button: enabled only with a topic, a unit, an outcome and
      a count of at least 1. */
  predicate CanCommit(d: Draft)
  {
    d.topic != "" && d.knowledgeUnit != "" && d.count >= 1 && d.learningOutcome != ""
  }

  /** A committed draft always adds `count` >= 1 questions to the matrix. */
  lemma CommitAddsQuestions(rows: seq<Row>, d: Draft, newId: string, weight: QType -> nat)
    requires CanCommit(d)
    ensures SumCells(Saved(rows, d, newId, weight)) == SumCells(rows) + d.count
    ensures SumCells(Saved(rows, d, newId, weight)) > SumCells(rows)
  {
    SaveColumnTotals(rows, d, newId, weight);
    CellSumOfColumnTotals(rows);
    CellSumOfColumnTotals(Saved(rows, d, newId, weight));
    AddSums(ColumnTotals(rows), Single(d.qType, d.level, d.count), weight);
    var c := Single(d.qType, d.level, d.count);
    CellSumTypes(c);
    forall t ensures TypeTotal(c, t) == if t == d.qType then d.count else 0 {
      TypeTotalCells(c, t);
    }
  }

  /** The matrix editor: the rows (the `matrix` state it edits through
      `setMatrix`), the add-content form and whether it is open. */
  class MatrixEditor {
    var rows: seq<Row>
    var modalOpen: bool
    var draft: Draft
    const weight: QType -> nat

    ghost predicate Valid()
      reads this
    {
      AllConsistent(rows, weight) && UniqueKeys(rows)
    }

    constructor (weight: QType -> nat, rows: seq<Row>)
      requires AllConsistent(rows, weight) && UniqueKeys(rows)
      ensures Valid()
      ensures this.weight == weight && this.rows == rows && !modalOpen && draft == EmptyDraft
    {
      this.weight := weight;
      this.rows := rows;
      modalOpen := false;
      draft := EmptyDraft;
    }

    method OpenModal()
      modifies this
      ensures modalOpen && rows == old(rows) && draft == old(draft)
    {
      modalOpen := true;
    }

    /** Closing the form also resets it. */
    method CloseModal()
      modifies this
      ensures !modalOpen && draft == EmptyDraft && rows == old(rows)
    {
      modalOpen := false;
      draft := EmptyDraft;
    }

    /** Choosing a topic clears the unit and outcome already chosen. */
    method SelectTopic(topic: string)
      modifies this
      ensures draft == old(draft).(topic := topic, knowledgeUnit := "", learningOutcome := "")
      ensures rows == old(rows) && modalOpen == old(modalOpen)
    {
      draft := draft.(topic := topic, knowledgeUnit := "", learningOutcome := "");
    }

    /** Choosing a knowledge unit clears the outcome already chosen. */
    method SelectUnit(unit: string)
      modifies this
      ensures draft == old(draft).(knowledgeUnit := unit, learningOutcome := "")
      ensures rows == old(rows) && modalOpen == old(modalOpen)
    {
      draft := draft.(knowledgeUnit := unit, learningOutcome := "");
    }

    /** The outcome, type, level and count inputs set their field only. */
    method SetDetails(outcome: string, qType: QType, level: Level, count: int)
      modifies this
      ensures draft == old(draft).(learningOutcome := outcome, qType := qType, level := level, count := count)
      ensures rows == old(rows) && modalOpen == old(modalOpen)
    {
      draft := draft.(learningOutcome := outcome, qType := qType, level := level, count := count);
    }

    /** `handleSaveModal`. A blank topic or unit returns early, leaving the
        form open; otherwise the matrix is updated and the form closed. */
    method SaveModal(newId: string)
      requires Valid()
      modifies this
      ensures Valid()
      ensures rows == Saved(old(rows), old(draft), newId, weight)
      ensures old(draft).topic == "" || old(draft).knowledgeUnit == "" ==> modalOpen == old(modalOpen) && draft == old(draft)
      ensures old(draft).topic != "" && old(draft).knowledgeUnit != "" ==> !modalOpen && draft == EmptyDraft
    {
      SavePreservesInvariants(rows, draft, newId, weight);
      if draft.topic == "" || draft.knowledgeUnit == "" {
        return;
      }
      var d := draft;
      var existingRowIndex := FindIndex(rows, KeyIs(d.topic, d.knowledgeUnit));
      if existingRowIndex > -1 {
        var updatedRow := rows[existingRowIndex];
        var newCounts := Set(updatedRow.counts, d.qType, d.level, Get(updatedRow.counts, d.qType, d.level) + d.count);
        var outcome := if updatedRow.learningOutcome == "" then d.learningOutcome else updatedRow.learningOutcome;
        var rowPoints := RowPoints(newCounts, weight);
        rows := rows[existingRowIndex := updatedRow.(counts := newCounts, learningOutcome := outcome, percentage := 10 * rowPoints)];
      } else {
        var rowPoints := d.count * weight(d.qType);
        rows := rows + [Row(newId, d.topic, d.knowledgeUnit, d.learningOutcome, Single(d.qType, d.level, d.count), 10 * rowPoints)];
      }
      CloseModal();
    }

    /** `handleRemoveRow`. */
    method RemoveRow(id: string)
      requires Valid()
      modifies this`rows
      ensures Valid()
      ensures rows == Removed(old(rows), id)
    {
      RemoveKeepsInvariants(rows, id, weight);
      rows := Filter(rows, IdIsNot(id));
    }

    /** `handleCountChange`. */
    method CountChange(id: string, qType: QType, level: Level, value: int)
      requires Valid()
      modifies this`rows
      ensures Valid()
      ensures rows == CountChanged(old(rows), id, qType, level, value, weight)
    {
      CountChangePreservesInvariants(rows, id, qType, level, value, weight);
      var i := FindIndex(rows, IdIs(id));
      if i == -1 {
        return;
      }
      var newCounts := Set(rows[i].counts, qType, level, value);
      var rowPoints := RowPoints(newCounts, weight);
      var current := rows;
      rows := seq(|current|, k requires 0 <= k < |current| =>
        if current[k].id != id then current[k] else current[k].(counts := newCounts, percentage := 10 * rowPoints));
    }
  }
}
