/** The numbers of the specification table: each leaf's row total, the
    footer's column totals and the grand total. */
module SpecTotals {
  import opened Wrappers
  import opened Assoc
  import opened Catalog
  import opened Grouping
  import opened SpecTable

  // ---- column totals ----

  lemma EveryType(t: QType)
    ensures t == MultipleChoice || t == TrueFalse || t == ShortAnswer || t == Essay
  {
  }

  lemma EveryLevel(l: Level)
    ensures l == Know || l == Understand || l == Apply
  {
  }

  /** The type whose display name is `name`, first in enumeration order. */
  function TypeNamed(cat: Catalog, name: string): (r: Option<QType>)
    ensures r.Some? ==> cat.typeName(r.value) == name
    ensures r.None? <==> forall t: QType :: cat.typeName(t) != name
  {
    if cat.typeName(MultipleChoice) == name then Some(MultipleChoice)
    else if cat.typeName(TrueFalse) == name then Some(TrueFalse)
    else if cat.typeName(ShortAnswer) == name then Some(ShortAnswer)
    else if cat.typeName(Essay) == name then Some(Essay)
    else
      assert forall t: QType :: cat.typeName(t) != name by {
        forall t: QType ensures cat.typeName(t) != name {
          EveryType(t);
        }
      }
      None
  }

  /** The level whose display name is `name`, first in enumeration order. */
  function LevelNamed(cat: Catalog, name: string): (r: Option<Level>)
    ensures r.Some? ==> cat.levelName(r.value) == name
    ensures r.None? <==> forall l: Level :: cat.levelName(l) != name
  {
    if cat.levelName(Know) == name then Some(Know)
    else if cat.levelName(Understand) == name then Some(Understand)
    else if cat.levelName(Apply) == name then Some(Apply)
    else
      assert forall l: Level :: cat.levelName(l) != name by {
        forall l: Level ensures cat.levelName(l) != name {
          EveryLevel(l);
        }
      }
      None
  }

  /** Whether `totals[item.loaiCauHoi]?.[item.mucDo]` exists. */
  predicate Known(cat: Catalog, it: SpecItem)
  {
    TypeNamed(cat, it.loaiCauHoi).Some? && LevelNamed(cat, it.mucDo).Some?
  }

  /** What one item adds to the totals: its quantity in its own cell, or
      nothing when its type or level is unknown. */
  function ItemCounts(cat: Catalog, it: SpecItem): (r: Counts)
    ensures Known(cat, it) ==> r == Single(TypeNamed(cat, it.loaiCauHoi).value, LevelNamed(cat, it.mucDo).value, it.soLuong)
    ensures !Known(cat, it) ==> r == Zero
  {
    match (TypeNamed(cat, it.loaiCauHoi), LevelNamed(cat, it.mucDo))
    case (Some(t), Some(l)) => Single(t, l, it.soLuong)
    case _ => Zero
  }

  /** The footer's column totals: a zero grid plus every item's increment. */
  function SpecColumnTotals(cat: Catalog, items: seq<SpecItem>): Counts
  {
    if items == [] then Zero
    else Add(SpecColumnTotals(cat, items[..|items| - 1]), ItemCounts(cat, items[|items| - 1]))
  }

  /** Adding `v` to one cell in place is adding a single-cell grid. */
  lemma BumpIsAdd(c: Counts, t: QType, l: Level, v: int)
    ensures Set(c, t, l, Get(c, t, l) + v) == Add(c, Single(t, l, v))
  {
    CountsExtensional(Set(c, t, l, Get(c, t, l) + v), Add(c, Single(t, l, v)));
  }

  lemma AddZeroRight(c: Counts)
    ensures Add(c, Zero) == c
  {
    CountsExtensional(Add(c, Zero), c);
  }

  /** The `columnTotals` memo: start from zeros, then `+=` each item's
      quantity where its type and level exist. */
  method ComputeSpecColumnTotals(cat: Catalog, specification: seq<SpecItem>) returns (totals: Counts)
    ensures totals == SpecColumnTotals(cat, specification)
  {
    totals := Zero;
    for i := 0 to |specification|
      invariant totals == SpecColumnTotals(cat, specification[..i])
    {
      var item := specification[i];
      assert specification[..i + 1][..i] == specification[..i];
      var t := TypeNamed(cat, item.loaiCauHoi);
      var l := LevelNamed(cat, item.mucDo);
      if t.Some? && l.Some? {
        BumpIsAdd(totals, t.value, l.value, item.soLuong);
        totals := Set(totals, t.value, l.value, Get(totals, t.value, l.value) + item.soLuong);
      } else {
        AddZeroRight(totals);
      }
    }
    assert specification[..|specification|] == specification;
  }

  /** Reference: the quantities of all items carrying these two names. */
  function NamedSum(items: seq<SpecItem>, typeName: string, levelName: string): int
  {
    if items == [] then 0
    else
      var it := items[|items| - 1];
      NamedSum(items[..|items| - 1], typeName, levelName) + (if it.loaiCauHoi == typeName && it.mucDo == levelName then it.soLuong else 0)
  }

  /** With distinct display names, a footer cell is the sum of the
      quantities of every item of that type and level: duplicates all
      count, items of other or unknown names do not, and an empty list
      gives 0. */
  lemma {:induction false} SpecColumnTotalsCell(cat: Catalog, items: seq<SpecItem>, t: QType, l: Level)
    requires Distinct(cat)
    ensures Get(SpecColumnTotals(cat, items), t, l) == NamedSum(items, cat.typeName(t), cat.levelName(l))
  {
    if items != [] {
      var it := items[|items| - 1];
      SpecColumnTotalsCell(cat, items[..|items| - 1], t, l);
    }
  }

  // ---- grand total ----

  /** `grandTotal`: the sum of every item's quantity. */
  function GrandTotal(items: seq<SpecItem>): int
  {
    if items == [] then 0 else GrandTotal(items[..|items| - 1]) + items[|items| - 1].soLuong
  }

  /** The quantities of the items whose type or level is unknown. */
  function UnknownTotal(cat: Catalog, items: seq<SpecItem>): int
  {
    if items == [] then 0
    else
      var it := items[|items| - 1];
      UnknownTotal(cat, items[..|items| - 1]) + (if Known(cat, it) then 0 else it.soLuong)
  }

  lemma CellSumZero()
    ensures CellSum(Zero) == 0
  {
    CellSumTypes(Zero);
    TypeTotalCells(Zero, MultipleChoice);
    TypeTotalCells(Zero, TrueFalse);
    TypeTotalCells(Zero, ShortAnswer);
    TypeTotalCells(Zero, Essay);
  }

  lemma CellSumSingle(t: QType, l: Level, v: int)
    ensures CellSum(Single(t, l, v)) == v
  {
    CellSumSet(Zero, t, l, v);
    CellSumZero();
  }

  lemma CellSumItem(cat: Catalog, it: SpecItem)
    ensures CellSum(ItemCounts(cat, it)) == if Known(cat, it) then it.soLuong else 0
  {
    if Known(cat, it) {
      CellSumSingle(TypeNamed(cat, it.loaiCauHoi).value, LevelNamed(cat, it.mucDo).value, it.soLuong);
    } else {
      CellSumZero();
    }
  }

  /** The grand total is the sum of the twelve column totals plus what
      the columns leave out (items of unknown type or level). */
  lemma {:induction false} GrandTotalSplit(cat: Catalog, items: seq<SpecItem>)
    ensures GrandTotal(items) == CellSum(SpecColumnTotals(cat, items)) + UnknownTotal(cat, items)
  {
    if items == [] {
      CellSumZero();
    } else {
      var init, it := items[..|items| - 1], items[|items| - 1];
      GrandTotalSplit(cat, init);
      AddSums(SpecColumnTotals(cat, init), ItemCounts(cat, it), cat.weight);
      CellSumItem(cat, it);
    }
  }

  /** When every item names a known type and level, the grand total is
      the sum of the column totals. */
  lemma {:induction false} GrandTotalIsColumnSum(cat: Catalog, items: seq<SpecItem>)
    requires forall k :: 0 <= k < |items| ==> Known(cat, items[k])
    ensures GrandTotal(items) == CellSum(SpecColumnTotals(cat, items))
  {
    GrandTotalSplit(cat, items);
    NoUnknown(cat, items);
  }

  lemma {:induction false} NoUnknown(cat: Catalog, items: seq<SpecItem>)
    requires forall k :: 0 <= k < |items| ==> Known(cat, items[k])
    ensures UnknownTotal(cat, items) == 0
  {
    if items != [] {
      var init := items[..|items| - 1];
      assert forall k :: 0 <= k < |init| ==> init[k] == items[k];
      NoUnknown(cat, init);
    }
  }

  // ---- row totals ----

  /** The leaf of outcome `o` of unit `n` of topic `c`. */
  function LeafAt(g: Tree, c: string, n: string, o: string): Leaf
  {
    GetOr(OutcomesOf(g, c, n), o, Empty())
  }

  /** `leaf[type]?.[level]`, 0 when absent. */
  function StoredAt(leaf: Leaf, typeName: string, levelName: string): int
  {
    var v := Lookup(GetOr(leaf, typeName, Empty()), levelName);
    if v.Some? then v.value else 0
  }

  /** Writing one quantity into a leaf replaces that quantity's share of
      the row total. */
  lemma InsertRowTotal(leaf: Leaf, it: SpecItem)
    requires Valid(leaf) && Valid(GetOr(leaf, it.loaiCauHoi, Empty()))
    ensures RowTotal(InsertIntoLeaf(leaf, it)) == RowTotal(leaf) - StoredAt(leaf, it.loaiCauHoi, it.mucDo) + it.soLuong
  {
    var lv := GetOr(leaf, it.loaiCauHoi, Empty());
    var lv' := Put(lv, it.mucDo, it.soLuong);
    SumPut(lv, it.mucDo, it.soLuong, Identity);
    SumPut(leaf, it.loaiCauHoi, lv', LevelTotal);
  }

  /** An insertion touches only the leaf of its own outcome. */
  lemma InsertLeafAt(g: Tree, it: SpecItem, c: string, n: string, o: string)
    ensures LeafAt(Insert(g, it), c, n, o) ==
      if c == it.chuDe && n == it.noiDung && o == it.yeuCauCanDat then InsertIntoLeaf(LeafAt(g, c, n, o), it)
      else LeafAt(g, c, n, o)
  {
    var t := GetOr(g, it.chuDe, Empty());
    GetOrPut(g, it.chuDe, InsertIntoTopic(t, it), c, Empty());
    var u := GetOr(t, it.noiDung, Empty());
    GetOrPut(t, it.noiDung, InsertIntoUnit(u, it), n, Empty());
    var leaf := GetOr(u, it.yeuCauCanDat, Empty());
    GetOrPut(u, it.yeuCauCanDat, InsertIntoLeaf(leaf, it), o, Empty());
  }

  /** Every level of a grouped tree's leaves lists each key once. */
  lemma GroupLeafValid(items: seq<SpecItem>, c: string, n: string, o: string, typeName: string)
    ensures Valid(LeafAt(Group(items), c, n, o))
    ensures Valid(GetOr(LeafAt(Group(items), c, n, o), typeName, Empty()))
  {
    GroupWellFormed(items);
    var g := Group(items);
    if c in g.vals {
      var t := g.vals[c];
      assert TopicOk(t);
      if n in t.vals {
        var u := t.vals[n];
        assert UnitOk(u);
        if o in u.vals {
          var leaf := u.vals[o];
          assert LeafOk(leaf);
          if typeName in leaf.vals { assert LevelsOk(leaf.vals[typeName]); }
        }
      }
    }
  }

  /** No earlier item has path `p`. */
  predicate NewPath(earlier: seq<SpecItem>, p: Path)
  {
    forall k :: 0 <= k < |earlier| ==> PathOf(earlier[k]) != p
  }

  /** No two items share a full path: each item's path is new. */
  predicate DistinctPaths(items: seq<SpecItem>)
  {
    items == [] || (DistinctPaths(items[..|items| - 1]) && NewPath(items[..|items| - 1], PathOf(items[|items| - 1])))
  }

  /** Reference: the quantities of all items of one learning outcome. */
  function OutcomeSum(items: seq<SpecItem>, c: string, n: string, o: string): int
  {
    if items == [] then 0
    else
      var it := items[|items| - 1];
      OutcomeSum(items[..|items| - 1], c, n, o) + (if it.chuDe == c && it.noiDung == n && it.yeuCauCanDat == o then it.soLuong else 0)
  }

  lemma {:induction false} LastQuantityAbsent(items: seq<SpecItem>, p: Path)
    requires NewPath(items, p)
    ensures LastQuantity(items, p) == None
  {
    if items != [] {
      var init := items[..|items| - 1];
      assert NewPath(init, p) by {
        forall k | 0 <= k < |init| ensures PathOf(init[k]) != p { assert init[k] == items[k]; }
      }
      LastQuantityAbsent(init, p);
    }
  }

  /** Appending an item to the specification, seen from one outcome: only
      the item's own leaf changes. */
  lemma GroupLeafSnoc(items: seq<SpecItem>, c: string, n: string, o: string)
    requires items != []
    ensures var init, it := items[..|items| - 1], items[|items| - 1];
      LeafAt(Group(items), c, n, o) ==
      if c == it.chuDe && n == it.noiDung && o == it.yeuCauCanDat then InsertIntoLeaf(LeafAt(Group(init), c, n, o), it)
      else LeafAt(Group(init), c, n, o)
  {
    InsertLeafAt(Group(items[..|items| - 1]), items[|items| - 1], c, n, o);
  }

  /** The stored quantity at an item's own path, before the item is
      inserted, is absent when no earlier item has that path. */
  lemma FreshPathUnstored(items: seq<SpecItem>)
    requires items != []
    requires NewPath(items[..|items| - 1], PathOf(items[|items| - 1]))
    ensures var it := items[|items| - 1];
      StoredAt(LeafAt(Group(items[..|items| - 1]), it.chuDe, it.noiDung, it.yeuCauCanDat), it.loaiCauHoi, it.mucDo) == 0
  {
    var init, it := items[..|items| - 1], items[|items| - 1];
    GroupQuantity(init, PathOf(it));
    LastQuantityAbsent(init, PathOf(it));
  }

  /** Appending an item whose path is new adds its quantity to its own
      row's total and changes no other row's total. */
  lemma GroupRowTotalStep(items: seq<SpecItem>, c: string, n: string, o: string)
    requires items != []
    requires NewPath(items[..|items| - 1], PathOf(items[|items| - 1]))
    ensures var init, it := items[..|items| - 1], items[|items| - 1];
      RowTotal(LeafAt(Group(items), c, n, o)) ==
      RowTotal(LeafAt(Group(init), c, n, o)) + (if c == it.chuDe && n == it.noiDung && o == it.yeuCauCanDat then it.soLuong else 0)
  {
    var init, it := items[..|items| - 1], items[|items| - 1];
    var before, after := LeafAt(Group(init), c, n, o), LeafAt(Group(items), c, n, o);
    GroupLeafSnoc(items, c, n, o);
    if c == it.chuDe && n == it.noiDung && o == it.yeuCauCanDat {
      GroupLeafValid(init, c, n, o, it.loaiCauHoi);
      InsertRowTotal(before, it);
      FreshPathUnstored(items);
    }
  }

  /** When no two items share a path, a row's total is the sum of the
      quantities of that outcome's items. */
  lemma {:induction false} GroupRowTotal(items: seq<SpecItem>, c: string, n: string, o: string)
    requires DistinctPaths(items)
    ensures RowTotal(LeafAt(Group(items), c, n, o)) == OutcomeSum(items, c, n, o)
  {
    if items == [] {
      assert LeafAt(Group(items), c, n, o) == Empty();
    } else {
      GroupRowTotal(items[..|items| - 1], c, n, o);
      GroupRowTotalStep(items, c, n, o);
    }
  }

  /** Two items with the same path: the later one wins, so the tree is the
      one the later item alone would give, while the grand total counts
      both quantities. */
  lemma DuplicatePathOverwrites(first: SpecItem, second: SpecItem)
    requires PathOf(first) == PathOf(second)
    ensures Group([first, second]) == Group([second])
    ensures GrandTotal([first, second]) == GrandTotal([second]) + first.soLuong
  {
    assert [first, second][..1] == [first];
    assert [first][..0] == [];
    assert [second][..0] == [];
    InsertSamePath(Empty(), first, second);
  }
}
