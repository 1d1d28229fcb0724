/** The detailed specification table of SpecificationDisplay (and its copy
    in the quiz view): one body row per learning outcome of the grouped
    tree, in tree order, where the first row of a topic carries the topic
    cell spanning the topic's rows and the first row of a knowledge unit
    carries the unit cell spanning the unit's rows. */
module SpecTable {
  import opened Wrappers
  import opened Assoc
  import opened Catalog
  import opened Text
  import opened Grouping

  // ---- the walk over the grouped tree ----

  /** One leaf of the tree as the emitter meets it, with the state of the
      two first-row flags and the two spans at that moment. */
  datatype Slot = Slot(chuDe: string, noiDung: string, yeuCau: string, countGroup: Leaf,
                       firstOfTopic: bool, firstOfUnit: bool, topicSpan: nat, unitSpan: nat)

  /** `Object.keys(yeuCauGroup).length`: the unit's row span. */
  function UnitSpan(outcomes: OutcomeMap): nat
  {
    |outcomes.keys|
  }

  /** The running value of the `reduce` over the first `j` units. */
  function TopicSpanUpTo(units: UnitMap, j: nat): nat
    requires j <= |units.keys|
  {
    if j == 0 then 0 else TopicSpanUpTo(units, j - 1) + UnitSpan(GetOr(units, units.keys[j - 1], Empty()))
  }

  /** The topic's row span: the number of outcomes over all its units. */
  function TopicSpan(units: UnitMap): nat
  {
    TopicSpanUpTo(units, |units.keys|)
  }

  /** The slots of the first `k` outcomes of unit `n`; `topicFresh` says
      whether no row of the topic was emitted before this unit. */
  function UnitSlots(c: string, tspan: nat, topicFresh: bool, n: string, outcomes: OutcomeMap, k: nat): (ss: seq<Slot>)
    requires k <= |outcomes.keys|
    ensures |ss| == k
    ensures forall m :: 0 <= m < k ==>
      ss[m] == Slot(c, n, outcomes.keys[m], GetOr(outcomes, outcomes.keys[m], Empty()),
                    topicFresh && m == 0, m == 0, tspan, UnitSpan(outcomes))
  {
    if k == 0 then []
    else
      var o := outcomes.keys[k - 1];
      UnitSlots(c, tspan, topicFresh, n, outcomes, k - 1)
        + [Slot(c, n, o, GetOr(outcomes, o, Empty()), topicFresh && k == 1, k == 1, tspan, UnitSpan(outcomes))]
  }

  /** The slots of the first `j` units of topic `c`. */
  function TopicSlots(c: string, units: UnitMap, tspan: nat, j: nat): seq<Slot>
    requires j <= |units.keys|
  {
    if j == 0 then []
    else
      var before := TopicSlots(c, units, tspan, j - 1);
      var n := units.keys[j - 1];
      var outcomes := GetOr(units, n, Empty());
      before + UnitSlots(c, tspan, before == [], n, outcomes, |outcomes.keys|)
  }

  lemma TopicSlotsStep(c: string, units: UnitMap, tspan: nat, j: nat)
    requires j < |units.keys|
    ensures
      var before := TopicSlots(c, units, tspan, j);
      var outcomes := GetOr(units, units.keys[j], Empty());
      var block := UnitSlots(c, tspan, before == [], units.keys[j], outcomes, |outcomes.keys|);
      && TopicSlots(c, units, tspan, j + 1) == before + block
      && (TopicSlots(c, units, tspan, j + 1) == [] <==> before == [] && |outcomes.keys| == 0)
  {
  }

  /** All slots of topic `c`, with its own span. */
  function TopicBlock(c: string, units: UnitMap): seq<Slot>
  {
    TopicSlots(c, units, TopicSpan(units), |units.keys|)
  }

  /** The slots of the first `i` topics. */
  function TreeSlots(g: Tree, i: nat): seq<Slot>
    requires i <= |g.keys|
  {
    if i == 0 then []
    else TreeSlots(g, i - 1) + TopicBlock(g.keys[i - 1], GetOr(g, g.keys[i - 1], Empty()))
  }

  /** Every leaf of the tree in emission order. */
  function Slots(g: Tree): seq<Slot>
  {
    TreeSlots(g, |g.keys|)
  }

  // ---- row spans ----

  /** The rows read as an HTML table body: the first row opens a unit
      cell whose span `s` covers it and the next `s - 1` rows, which open
      no unit cell and belong to the same unit, and the rest is tiled the
      same way. */
  predicate UnitTiled(ss: seq<Slot>)
    decreases |ss|
  {
    ss == [] ||
    (var s := ss[0].unitSpan;
     && ss[0].firstOfUnit && 1 <= s <= |ss|
     && (forall r :: 1 <= r < s ==> !ss[r].firstOfUnit && ss[r].noiDung == ss[0].noiDung && ss[r].chuDe == ss[0].chuDe)
     && UnitTiled(ss[s..]))
  }

  /** The same tiling for topic cells; a row that opens a topic cell
      also opens a unit cell. */
  predicate TopicTiled(ss: seq<Slot>)
    decreases |ss|
  {
    ss == [] ||
    (var s := ss[0].topicSpan;
     && ss[0].firstOfTopic && ss[0].firstOfUnit && 1 <= s <= |ss|
     && (forall r :: 1 <= r < s ==> !ss[r].firstOfTopic && ss[r].chuDe == ss[0].chuDe)
     && TopicTiled(ss[s..]))
  }

  lemma {:induction false} UnitTiledAppend(a: seq<Slot>, b: seq<Slot>)
    requires UnitTiled(a) && UnitTiled(b)
    ensures UnitTiled(a + b)
    decreases |a|
  {
    if a != [] {
      var s := a[0].unitSpan;
      UnitTiledAppend(a[s..], b);
      assert (a + b)[s..] == a[s..] + b;
      assert forall r :: 0 <= r < |a| ==> (a + b)[r] == a[r];
    } else {
      assert a + b == b;
    }
  }

  lemma {:induction false} TopicTiledAppend(a: seq<Slot>, b: seq<Slot>)
    requires TopicTiled(a) && TopicTiled(b)
    ensures TopicTiled(a + b)
    decreases |a|
  {
    if a != [] {
      var s := a[0].topicSpan;
      TopicTiledAppend(a[s..], b);
      assert (a + b)[s..] == a[s..] + b;
      assert forall r :: 0 <= r < |a| ==> (a + b)[r] == a[r];
    } else {
      assert a + b == b;
    }
  }

  /** A unit's own rows tile: its first row spans all of them. */
  lemma UnitBlockTiled(c: string, tspan: nat, topicFresh: bool, n: string, outcomes: OutcomeMap)
    ensures UnitTiled(UnitSlots(c, tspan, topicFresh, n, outcomes, |outcomes.keys|))
  {
    var ss := UnitSlots(c, tspan, topicFresh, n, outcomes, |outcomes.keys|);
    if ss != [] {
      assert ss[|ss|..] == [];
    }
  }

  /** The first `j` units of a topic emit one row per outcome. */
  lemma {:induction false} TopicSlotsLength(c: string, units: UnitMap, tspan: nat, j: nat)
    requires j <= |units.keys|
    ensures |TopicSlots(c, units, tspan, j)| == TopicSpanUpTo(units, j)
  {
    if j > 0 {
      TopicSlotsLength(c, units, tspan, j - 1);
    }
  }

  /** Every row the first `j` units of a topic emit belongs to topic `c`
      and carries its span; the topic flag is up on the first row only,
      where the unit flag is up too. */
  lemma {:induction false} TopicSlotsRows(c: string, units: UnitMap, tspan: nat, j: nat)
    requires j <= |units.keys|
    ensures forall r :: 0 <= r < |TopicSlots(c, units, tspan, j)| ==>
      var s := TopicSlots(c, units, tspan, j)[r];
      s.chuDe == c && s.topicSpan == tspan && (s.firstOfTopic <==> r == 0) && (r == 0 ==> s.firstOfUnit)
  {
    if j > 0 {
      TopicSlotsRows(c, units, tspan, j - 1);
      var before := TopicSlots(c, units, tspan, j - 1);
      var n := units.keys[j - 1];
      var outcomes := GetOr(units, n, Empty());
      var block := UnitSlots(c, tspan, before == [], n, outcomes, |outcomes.keys|);
      var all := before + block;
      forall r | 0 <= r < |all|
        ensures all[r].chuDe == c && all[r].topicSpan == tspan && (all[r].firstOfTopic <==> r == 0) && (r == 0 ==> all[r].firstOfUnit)
      {
        if r >= |before| {
          assert all[r] == block[r - |before|];
        } else {
          assert all[r] == before[r];
        }
      }
    }
  }

  /** The unit cells tile the rows of the first `j` units of a topic. */
  lemma {:induction false} TopicSlotsUnitTiled(c: string, units: UnitMap, tspan: nat, j: nat)
    requires j <= |units.keys|
    ensures UnitTiled(TopicSlots(c, units, tspan, j))
  {
    if j > 0 {
      TopicSlotsUnitTiled(c, units, tspan, j - 1);
      var before := TopicSlots(c, units, tspan, j - 1);
      var n := units.keys[j - 1];
      var outcomes := GetOr(units, n, Empty());
      UnitBlockTiled(c, tspan, before == [], n, outcomes);
      UnitTiledAppend(before, UnitSlots(c, tspan, before == [], n, outcomes, |outcomes.keys|));
    }
  }

  /** A topic's own rows tile: its first row spans all of them. */
  lemma TopicBlockTiled(c: string, units: UnitMap)
    ensures |TopicBlock(c, units)| == TopicSpan(units)
    ensures TopicTiled(TopicBlock(c, units))
    ensures UnitTiled(TopicBlock(c, units))
  {
    var ss := TopicBlock(c, units);
    TopicSlotsLength(c, units, TopicSpan(units), |units.keys|);
    TopicSlotsRows(c, units, TopicSpan(units), |units.keys|);
    TopicSlotsUnitTiled(c, units, TopicSpan(units), |units.keys|);
    if ss != [] {
      assert ss[|ss|..] == [];
    }
  }

  /** The row-span theorem: in the emitted body, every topic cell spans
      exactly the rows of its topic and every unit cell exactly the rows
      of its unit, no row is covered twice and none is left uncovered,
      and a topic cell only ever opens on a row that also opens a unit
      cell. */
  lemma {:induction false} SlotsTiled(g: Tree, i: nat)
    requires i <= |g.keys|
    ensures TopicTiled(TreeSlots(g, i))
    ensures UnitTiled(TreeSlots(g, i))
  {
    if i > 0 {
      SlotsTiled(g, i - 1);
      var c := g.keys[i - 1];
      var units := GetOr(g, c, Empty());
      TopicBlockTiled(c, units);
      TopicTiledAppend(TreeSlots(g, i - 1), TopicBlock(c, units));
      UnitTiledAppend(TreeSlots(g, i - 1), TopicBlock(c, units));
    }
  }

  // ---- emission order ----

  /** The topics whose cells open, top to bottom. */
  function TopicHeads(ss: seq<Slot>): seq<string>
  {
    if ss == [] then []
    else TopicHeads(ss[..|ss| - 1]) + (if ss[|ss| - 1].firstOfTopic then [ss[|ss| - 1].chuDe] else [])
  }

  lemma {:induction false} TopicHeadsAppend(a: seq<Slot>, b: seq<Slot>)
    ensures TopicHeads(a + b) == TopicHeads(a) + TopicHeads(b)
    decreases |b|
  {
    if b == [] {
      assert a + b == a;
    } else {
      var b' := b[..|b| - 1];
      TopicHeadsAppend(a, b');
      assert (a + b)[..|a + b| - 1] == a + b';
    }
  }

  /** Rows whose only flagged row is the first one open one topic cell. */
  lemma {:induction false} TopicHeadsSingle(ss: seq<Slot>)
    requires ss != []
    requires forall r :: 0 <= r < |ss| ==> (ss[r].firstOfTopic <==> r == 0)
    ensures TopicHeads(ss) == [ss[0].chuDe]
  {
    var init := ss[..|ss| - 1];
    if init != [] {
      TopicHeadsSingle(init);
    }
  }

  lemma {:induction false} TopicSpanUpToGrows(units: UnitMap, j: nat)
    requires 1 <= j <= |units.keys|
    ensures TopicSpanUpTo(units, j) >= TopicSpanUpTo(units, 1)
  {
    if j > 1 {
      TopicSpanUpToGrows(units, j - 1);
    }
  }

  /** A topic of a well-formed tree emits at least one row. */
  lemma TopicSpanPositive(units: UnitMap)
    requires TopicOk(units)
    ensures TopicSpan(units) > 0
  {
    var n := units.keys[0];
    assert n in units.vals;
    assert UnitOk(units.vals[n]);
    TopicSpanUpToGrows(units, |units.keys|);
  }

  /** Every topic emits at least one row. */
  predicate NoEmptyTopic(g: Tree)
  {
    forall c :: c in g.keys ==> TopicSpan(GetOr(g, c, Empty())) > 0
  }

  lemma WellFormedNoEmptyTopic(g: Tree)
    requires WellFormed(g)
    ensures NoEmptyTopic(g)
  {
    forall c | c in g.keys ensures TopicSpan(GetOr(g, c, Empty())) > 0 {
      assert c in g.vals;
      TopicSpanPositive(g.vals[c]);
    }
  }

  /** A topic with rows opens exactly one topic cell, its own. */
  lemma TopicBlockHeads(c: string, units: UnitMap)
    requires TopicSpan(units) > 0
    ensures TopicHeads(TopicBlock(c, units)) == [c]
  {
    TopicBlockTiled(c, units);
    TopicSlotsRows(c, units, TopicSpan(units), |units.keys|);
    TopicHeadsSingle(TopicBlock(c, units));
  }

  /** When no topic is empty, the topic cells open in key order, once per
      topic. */
  lemma {:induction false} TopicHeadsAreKeys(g: Tree, i: nat)
    requires NoEmptyTopic(g) && i <= |g.keys|
    ensures TopicHeads(TreeSlots(g, i)) == g.keys[..i]
  {
    if i > 0 {
      TopicHeadsAreKeys(g, i - 1);
      var c := g.keys[i - 1];
      TopicBlockHeads(c, GetOr(g, c, Empty()));
      HeadsStep(TreeSlots(g, i - 1), TopicBlock(c, GetOr(g, c, Empty())), g.keys[..i - 1], c);
      PrefixStep(g.keys, i);
    }
  }

  lemma PrefixStep(ks: seq<string>, i: nat)
    requires 0 < i <= |ks|
    ensures ks[..i] == ks[..i - 1] + [ks[i - 1]]
  {
  }

  lemma HeadsStep(before: seq<Slot>, block: seq<Slot>, ks: seq<string>, c: string)
    requires TopicHeads(before) == ks && TopicHeads(block) == [c]
    ensures TopicHeads(before + block) == ks + [c]
  {
    TopicHeadsAppend(before, block);
  }

  /** End to end: the topic cells of the table built from a specification
      open in the order in which the items first mention each topic. */
  lemma TableTopicOrder(items: seq<SpecItem>)
    ensures TopicHeads(Slots(Group(items))) == Dedup(Topics(items))
  {
    var g := Group(items);
    GroupWellFormed(items);
    WellFormedNoEmptyTopic(g);
    TopicHeadsAreKeys(g, |g.keys|);
    GroupTopicOrder(items);
    assert g.keys[..|g.keys|] == g.keys;
  }

  // ---- cells and rows ----

  /** `countGroup[qType]?.[level]` for the type and level display names. */
  function LeafCell(cat: Catalog, countGroup: Leaf, t: QType, l: Level): Option<int>
  {
    Lookup(GetOr(countGroup, cat.typeName(t), Empty()), cat.levelName(l))
  }

  /** Count column `k` (0 to 11): types outermost, levels innermost, both
      in enumeration order. */
  function ColumnType(k: nat): QType
    requires k < 12
  {
    QTypes[k / 3]
  }

  function ColumnLevel(k: nat): Level
    requires k < 12
  {
    Levels[k % 3]
  }

  /** `{value || ''}`: an absent or zero count shows as an empty cell. */
  function Shown(v: Option<int>): string
  {
    if v.Some? && v.value != 0 then IntToString(v.value) else ""
  }

  /** The twelve count cells of a row. */
  function ShownCells(cat: Catalog, countGroup: Leaf): (cells: seq<string>)
    ensures |cells| == 12
  {
    seq(12, k requires 0 <= k < 12 => Shown(LeafCell(cat, countGroup, ColumnType(k), ColumnLevel(k))))
  }

  function Identity(x: int): int
  {
    x
  }

  /** Sum of the quantities of one type entry. */
  function LevelTotal(levels: LevelMap): int
  {
    SumValues(levels, Identity)
  }

  /** `rowTotal`: every quantity stored under the leaf, whatever its type
      or level name. */
  function RowTotal(countGroup: Leaf): int
  {
    SumValues(countGroup, LevelTotal)
  }

  /** A cell spanning `rowSpan` rows. */
  datatype SpanCell = SpanCell(text: string, rowSpan: nat)

  /** One body row: the optional topic and unit cells, the outcome cell,
      the twelve count cells, and the row total where the view shows one
      (the quiz view's copy of the table has no total column). */
  datatype BodyRow = BodyRow(topicCell: Option<SpanCell>, unitCell: Option<SpanCell>, outcome: string,
                             counts: seq<string>, total: Option<int>)

  function RowOf(cat: Catalog, showTotal: bool, s: Slot): BodyRow
  {
    BodyRow(
      if s.firstOfTopic then Some(SpanCell(s.chuDe, s.topicSpan)) else None,
      if s.firstOfUnit then Some(SpanCell(s.noiDung, s.unitSpan)) else None,
      s.yeuCau, ShownCells(cat, s.countGroup),
      if showTotal then Some(RowTotal(s.countGroup)) else None)
  }

  function RowsOf(cat: Catalog, showTotal: bool, ss: seq<Slot>): (rows: seq<BodyRow>)
    ensures |rows| == |ss|
  {
    if ss == [] then [] else RowsOf(cat, showTotal, ss[..|ss| - 1]) + [RowOf(cat, showTotal, ss[|ss| - 1])]
  }

  /** Row `r` is the row of slot `r`. */
  lemma {:induction false} RowsOfAt(cat: Catalog, showTotal: bool, ss: seq<Slot>)
    ensures forall r :: 0 <= r < |ss| ==> RowsOf(cat, showTotal, ss)[r] == RowOf(cat, showTotal, ss[r])
  {
    if ss != [] {
      var init := ss[..|ss| - 1];
      RowsOfAt(cat, showTotal, init);
      forall r | 0 <= r < |init| ensures RowsOf(cat, showTotal, ss)[r] == RowOf(cat, showTotal, ss[r]) {
        assert ss[r] == init[r];
      }
    }
  }

  lemma RowsOfSnoc(cat: Catalog, showTotal: bool, ss: seq<Slot>, s: Slot)
    ensures RowsOf(cat, showTotal, ss + [s]) == RowsOf(cat, showTotal, ss) + [RowOf(cat, showTotal, s)]
  {
    assert (ss + [s])[..|ss|] == ss;
  }

  lemma RowsOfAppend(cat: Catalog, showTotal: bool, a: seq<Slot>, b: seq<Slot>)
    ensures RowsOf(cat, showTotal, a + b) == RowsOf(cat, showTotal, a) + RowsOf(cat, showTotal, b)
  {
    var l, r := RowsOf(cat, showTotal, a + b), RowsOf(cat, showTotal, a) + RowsOf(cat, showTotal, b);
    RowsOfAt(cat, showTotal, a + b);
    RowsOfAt(cat, showTotal, a);
    RowsOfAt(cat, showTotal, b);
    forall m | 0 <= m < |l| ensures l[m] == r[m] {
      if m < |a| {
        assert (a + b)[m] == a[m];
      } else {
        assert (a + b)[m] == b[m - |a|];
      }
    }
  }

  /** The rows of one knowledge unit: the innermost `map`, which emits a
      row per outcome and lowers both first-row flags after each. Returns
      the topic flag as the unit leaves it. */
  method RenderUnit(cat: Catalog, showTotal: bool, chuDe: string, chuDeRowSpan: nat, isFirstOfChuDe: bool,
                    noiDung: string, yeuCauGroup: OutcomeMap)
    returns (unitRows: seq<BodyRow>, stillFirstOfChuDe: bool)
    ensures unitRows == RowsOf(cat, showTotal, UnitSlots(chuDe, chuDeRowSpan, isFirstOfChuDe, noiDung, yeuCauGroup, |yeuCauGroup.keys|))
    ensures stillFirstOfChuDe == (isFirstOfChuDe && |yeuCauGroup.keys| == 0)
  {
    var noiDungRowSpan := |yeuCauGroup.keys|;
    var isFirstOfNoiDung := true;
    stillFirstOfChuDe := isFirstOfChuDe;
    unitRows := [];
    for k := 0 to |yeuCauGroup.keys|
      invariant isFirstOfNoiDung == (k == 0)
      invariant stillFirstOfChuDe == (isFirstOfChuDe && k == 0)
      invariant unitRows == RowsOf(cat, showTotal, UnitSlots(chuDe, chuDeRowSpan, isFirstOfChuDe, noiDung, yeuCauGroup, k))
    {
      var yeuCau := yeuCauGroup.keys[k];
      var countGroup := GetOr(yeuCauGroup, yeuCau, Empty());
      var row := BodyRow(
        if stillFirstOfChuDe then Some(SpanCell(chuDe, chuDeRowSpan)) else None,
        if isFirstOfNoiDung then Some(SpanCell(noiDung, noiDungRowSpan)) else None,
        yeuCau, ShownCells(cat, countGroup),
        if showTotal then Some(RowTotal(countGroup)) else None);
      RowsOfSnoc(cat, showTotal, UnitSlots(chuDe, chuDeRowSpan, isFirstOfChuDe, noiDung, yeuCauGroup, k),
        Slot(chuDe, noiDung, yeuCau, countGroup, stillFirstOfChuDe, isFirstOfNoiDung, chuDeRowSpan, noiDungRowSpan));
      unitRows := unitRows + [row];
      stillFirstOfChuDe := false;
      isFirstOfNoiDung := false;
    }
  }

  /** The rows of one topic: the middle `map`, with the topic span
      computed first and the topic flag raised once per topic. */
  method RenderTopic(cat: Catalog, showTotal: bool, chuDe: string, noiDungGroup: UnitMap)
    returns (topicRows: seq<BodyRow>)
    ensures topicRows == RowsOf(cat, showTotal, TopicBlock(chuDe, noiDungGroup))
  {
    var chuDeRowSpan := TopicSpan(noiDungGroup);
    var isFirstOfChuDe := true;
    topicRows := [];
    ghost var slots: seq<Slot> := [];
    for j := 0 to |noiDungGroup.keys|
      invariant slots == TopicSlots(chuDe, noiDungGroup, chuDeRowSpan, j)
      invariant isFirstOfChuDe == (slots == [])
      invariant topicRows == RowsOf(cat, showTotal, slots)
    {
      var noiDung := noiDungGroup.keys[j];
      var yeuCauGroup := GetOr(noiDungGroup, noiDung, Empty());
      ghost var block := UnitSlots(chuDe, chuDeRowSpan, isFirstOfChuDe, noiDung, yeuCauGroup, |yeuCauGroup.keys|);
      TopicRowsStep(cat, showTotal, chuDe, noiDungGroup, chuDeRowSpan, j, slots, block);
      var unitRows;
      unitRows, isFirstOfChuDe := RenderUnit(cat, showTotal, chuDe, chuDeRowSpan, isFirstOfChuDe, noiDung, yeuCauGroup);
      topicRows := topicRows + unitRows;
      slots := slots + block;
    }
  }

  /** One more unit: its slots and its rows follow those of the units
      before it, and the topic flag stays raised only if both are empty. */
  lemma TopicRowsStep(cat: Catalog, showTotal: bool, c: string, units: UnitMap, tspan: nat, j: nat,
                      before: seq<Slot>, block: seq<Slot>)
    requires j < |units.keys|
    requires before == TopicSlots(c, units, tspan, j)
    requires var outcomes := GetOr(units, units.keys[j], Empty());
      block == UnitSlots(c, tspan, before == [], units.keys[j], outcomes, |outcomes.keys|)
    ensures TopicSlots(c, units, tspan, j + 1) == before + block
    ensures RowsOf(cat, showTotal, before + block) == RowsOf(cat, showTotal, before) + RowsOf(cat, showTotal, block)
    ensures before + block == [] <==> before == [] && |GetOr(units, units.keys[j], Empty()).keys| == 0
  {
    TopicSlotsStep(c, units, tspan, j);
    RowsOfAppend(cat, showTotal, before, block);
  }

  /** The table body: the outer `map` over the topics, in key order. */
  method RenderBody(cat: Catalog, g: Tree, showTotal: bool) returns (rows: seq<BodyRow>)
    ensures rows == RowsOf(cat, showTotal, Slots(g))
  {
    rows := [];
    for i := 0 to |g.keys|
      invariant rows == RowsOf(cat, showTotal, TreeSlots(g, i))
    {
      var chuDe := g.keys[i];
      var topicRows := RenderTopic(cat, showTotal, chuDe, GetOr(g, chuDe, Empty()));
      TreeRowsStep(cat, showTotal, g, i);
      rows := rows + topicRows;
    }
  }

  /** One more topic: its rows follow those of the topics before it. */
  lemma TreeRowsStep(cat: Catalog, showTotal: bool, g: Tree, i: nat)
    requires i < |g.keys|
    ensures RowsOf(cat, showTotal, TreeSlots(g, i + 1))
      == RowsOf(cat, showTotal, TreeSlots(g, i)) + RowsOf(cat, showTotal, TopicBlock(g.keys[i], GetOr(g, g.keys[i], Empty())))
  {
    RowsOfAppend(cat, showTotal, TreeSlots(g, i), TopicBlock(g.keys[i], GetOr(g, g.keys[i], Empty())));
  }
}
