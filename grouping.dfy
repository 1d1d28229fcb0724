/** `groupedSpecification`: the flat list of specification items folded
    into a tree topic -> knowledge unit -> learning outcome, whose leaves
    map question type -> cognitive level -> quantity. Every level is an
    insertion-ordered dictionary; a repeated path overwrites its quantity. */
module Grouping {
  import opened Wrappers
  import opened Assoc

  /** One line of the generated specification. */
  datatype SpecItem = SpecItem(chuDe: string, noiDung: string, yeuCauCanDat: string, loaiCauHoi: string, mucDo: string, soLuong: int)

  /** level name -> quantity */
  type LevelMap = Dict<int>
  /** type name -> level map: the `countGroup` of one table row */
  type Leaf = Dict<LevelMap>
  /** learning outcome -> leaf */
  type OutcomeMap = Dict<Leaf>
  /** knowledge unit -> outcomes */
  type UnitMap = Dict<OutcomeMap>
  /** topic -> units */
  type Tree = Dict<UnitMap>

  function InsertIntoLeaf(leaf: Leaf, it: SpecItem): Leaf
  {
    Put(leaf, it.loaiCauHoi, Put(GetOr(leaf, it.loaiCauHoi, Empty()), it.mucDo, it.soLuong))
  }

  function InsertIntoUnit(u: OutcomeMap, it: SpecItem): OutcomeMap
  {
    Put(u, it.yeuCauCanDat, InsertIntoLeaf(GetOr(u, it.yeuCauCanDat, Empty()), it))
  }

  function InsertIntoTopic(t: UnitMap, it: SpecItem): UnitMap
  {
    Put(t, it.noiDung, InsertIntoUnit(GetOr(t, it.noiDung, Empty()), it))
  }

  /** One step of the `forEach`: create the missing levels of the item's
      path, then assign its quantity. */
  function Insert(g: Tree, it: SpecItem): Tree
  {
    Put(g, it.chuDe, InsertIntoTopic(GetOr(g, it.chuDe, Empty()), it))
  }

  /** The tree after inserting every item in order. */
  function Group(items: seq<SpecItem>): Tree
  {
    if items == [] then Empty() else Insert(Group(items[..|items| - 1]), items[|items| - 1])
  }

  /** The `forEach` that builds the nested dictionary. */
  method GroupSpecification(specification: seq<SpecItem>) returns (grouped: Tree)
    ensures grouped == Group(specification)
  {
    grouped := Empty();
    for i := 0 to |specification|
      invariant grouped == Group(specification[..i])
    {
      var item := specification[i];
      GroupStep(specification, i);
      ghost var before := grouped;
      var units := GetOr(grouped, item.chuDe, Empty());
      var outcomes := GetOr(units, item.noiDung, Empty());
      var countGroup := GetOr(outcomes, item.yeuCauCanDat, Empty());
      var levels := GetOr(countGroup, item.loaiCauHoi, Empty());
      levels := Put(levels, item.mucDo, item.soLuong);
      countGroup := Put(countGroup, item.loaiCauHoi, levels);
      outcomes := Put(outcomes, item.yeuCauCanDat, countGroup);
      units := Put(units, item.noiDung, outcomes);
      grouped := Put(grouped, item.chuDe, units);
    }
    assert specification[..|specification|] == specification;
  }

  lemma GroupStep(items: seq<SpecItem>, i: nat)
    requires i < |items|
    ensures Group(items[..i + 1]) == Insert(Group(items[..i]), items[i])
  {
    assert items[..i + 1][..i] == items[..i];
  }

  // ---- what the tree stores ----

  datatype Path = Path(chuDe: string, noiDung: string, yeuCauCanDat: string, loaiCauHoi: string, mucDo: string)

  function PathOf(it: SpecItem): Path
  {
    Path(it.chuDe, it.noiDung, it.yeuCauCanDat, it.loaiCauHoi, it.mucDo)
  }

  /** `leaf[type]?.[level]` */
  function LeafQuantity(leaf: Leaf, p: Path): Option<int>
  {
    Lookup(GetOr(leaf, p.loaiCauHoi, Empty()), p.mucDo)
  }

  function UnitQuantity(u: OutcomeMap, p: Path): Option<int>
  {
    LeafQuantity(GetOr(u, p.yeuCauCanDat, Empty()), p)
  }

  function TopicQuantity(t: UnitMap, p: Path): Option<int>
  {
    UnitQuantity(GetOr(t, p.noiDung, Empty()), p)
  }

  /** The quantity stored at a full path, if the path exists. */
  function Quantity(g: Tree, p: Path): Option<int>
  {
    TopicQuantity(GetOr(g, p.chuDe, Empty()), p)
  }

  /** Reference: the quantity of the LAST item with path `p`. */
  function LastQuantity(items: seq<SpecItem>, p: Path): Option<int>
  {
    if items == [] then None
    else if PathOf(items[|items| - 1]) == p then Some(items[|items| - 1].soLuong)
    else LastQuantity(items[..|items| - 1], p)
  }

  lemma InsertIntoLeafQuantity(leaf: Leaf, it: SpecItem, p: Path)
    ensures LeafQuantity(InsertIntoLeaf(leaf, it), p) ==
      if it.loaiCauHoi == p.loaiCauHoi && it.mucDo == p.mucDo then Some(it.soLuong) else LeafQuantity(leaf, p)
  {
    var lv := Put(GetOr(leaf, it.loaiCauHoi, Empty()), it.mucDo, it.soLuong);
    GetOrPut(leaf, it.loaiCauHoi, lv, p.loaiCauHoi, Empty());
  }

  lemma InsertIntoUnitQuantity(u: OutcomeMap, it: SpecItem, p: Path)
    ensures UnitQuantity(InsertIntoUnit(u, it), p) ==
      if it.yeuCauCanDat == p.yeuCauCanDat && it.loaiCauHoi == p.loaiCauHoi && it.mucDo == p.mucDo
      then Some(it.soLuong) else UnitQuantity(u, p)
  {
    var leaf := GetOr(u, it.yeuCauCanDat, Empty());
    GetOrPut(u, it.yeuCauCanDat, InsertIntoLeaf(leaf, it), p.yeuCauCanDat, Empty());
    InsertIntoLeafQuantity(leaf, it, p);
  }

  lemma InsertIntoTopicQuantity(t: UnitMap, it: SpecItem, p: Path)
    ensures TopicQuantity(InsertIntoTopic(t, it), p) ==
      if it.noiDung == p.noiDung && it.yeuCauCanDat == p.yeuCauCanDat && it.loaiCauHoi == p.loaiCauHoi && it.mucDo == p.mucDo
      then Some(it.soLuong) else TopicQuantity(t, p)
  {
    var u := GetOr(t, it.noiDung, Empty());
    GetOrPut(t, it.noiDung, InsertIntoUnit(u, it), p.noiDung, Empty());
    InsertIntoUnitQuantity(u, it, p);
  }

  /** Inserting an item sets its own path's quantity and no other. */
  lemma InsertQuantity(g: Tree, it: SpecItem, p: Path)
    ensures Quantity(Insert(g, it), p) == if PathOf(it) == p then Some(it.soLuong) else Quantity(g, p)
  {
    var t := GetOr(g, it.chuDe, Empty());
    GetOrPut(g, it.chuDe, InsertIntoTopic(t, it), p.chuDe, Empty());
    InsertIntoTopicQuantity(t, it, p);
  }

  /** Two insertions with the same path: the second overwrites the first
      everywhere, keys and key order included. */
  lemma InsertSamePath(g: Tree, first: SpecItem, second: SpecItem)
    requires PathOf(first) == PathOf(second)
    ensures Insert(Insert(g, first), second) == Insert(g, second)
  {
    var t := GetOr(g, first.chuDe, Empty());
    var u := GetOr(t, first.noiDung, Empty());
    var leaf := GetOr(u, first.yeuCauCanDat, Empty());
    var lv := GetOr(leaf, first.loaiCauHoi, Empty());
    PutPut(lv, first.mucDo, first.soLuong, second.soLuong);
    PutPut(leaf, first.loaiCauHoi, Put(lv, first.mucDo, first.soLuong), Put(lv, first.mucDo, second.soLuong));
    PutPut(u, first.yeuCauCanDat, InsertIntoLeaf(leaf, first), InsertIntoLeaf(leaf, second));
    PutPut(t, first.noiDung, InsertIntoUnit(u, first), InsertIntoUnit(u, second));
    PutPut(g, first.chuDe, InsertIntoTopic(t, first), InsertIntoTopic(t, second));
  }

  /** After grouping, a path holds the quantity of the last item with that
      path (an assignment, not a sum), and a path no item has is absent. */
  lemma {:induction false} GroupQuantity(items: seq<SpecItem>, p: Path)
    ensures Quantity(Group(items), p) == LastQuantity(items, p)
  {
    if items != [] {
      GroupQuantity(items[..|items| - 1], p);
      InsertQuantity(Group(items[..|items| - 1]), items[|items| - 1], p);
    }
  }

  // ---- key order ----

  /** Topics of the items, in item order (with repeats). */
  function Topics(items: seq<SpecItem>): seq<string>
  {
    if items == [] then [] else Topics(items[..|items| - 1]) + [items[|items| - 1].chuDe]
  }

  /** Knowledge units of the items under topic `c`, in item order. */
  function UnitsUnder(items: seq<SpecItem>, c: string): seq<string>
  {
    if items == [] then []
    else
      var it := items[|items| - 1];
      UnitsUnder(items[..|items| - 1], c) + (if it.chuDe == c then [it.noiDung] else [])
  }

  /** Learning outcomes of the items under topic `c` and unit `n`. */
  function OutcomesUnder(items: seq<SpecItem>, c: string, n: string): seq<string>
  {
    if items == [] then []
    else
      var it := items[|items| - 1];
      OutcomesUnder(items[..|items| - 1], c, n) + (if it.chuDe == c && it.noiDung == n then [it.yeuCauCanDat] else [])
  }

  /** The units of topic `c` in the tree. */
  function UnitsOf(g: Tree, c: string): UnitMap
  {
    GetOr(g, c, Empty())
  }

  /** The outcomes of unit `n` of topic `c` in the tree. */
  function OutcomesOf(g: Tree, c: string, n: string): OutcomeMap
  {
    GetOr(UnitsOf(g, c), n, Empty())
  }

  // ---- shape ----

  predicate LevelsOk(lv: LevelMap)
  {
    Valid(lv) && |lv.keys| > 0
  }

  predicate LeafOk(leaf: Leaf)
  {
    Valid(leaf) && |leaf.keys| > 0 && forall k :: k in leaf.vals ==> LevelsOk(leaf.vals[k])
  }

  predicate UnitOk(u: OutcomeMap)
  {
    Valid(u) && |u.keys| > 0 && forall k :: k in u.vals ==> LeafOk(u.vals[k])
  }

  predicate TopicOk(t: UnitMap)
  {
    Valid(t) && |t.keys| > 0 && forall k :: k in t.vals ==> UnitOk(t.vals[k])
  }

  /** Every level lists each key once, and every topic, unit, outcome and
      type entry holds at least one child: each topic yields at least one
      row of the table. */
  predicate WellFormed(g: Tree)
  {
    Valid(g) && forall k :: k in g.vals ==> TopicOk(g.vals[k])
  }

  lemma InsertIntoLeafOk(leaf: Leaf, it: SpecItem)
    requires leaf == Empty() || LeafOk(leaf)
    ensures LeafOk(InsertIntoLeaf(leaf, it))
  {
    var lv := GetOr(leaf, it.loaiCauHoi, Empty());
    assert Valid(lv);
    var r := InsertIntoLeaf(leaf, it);
    forall k | k in r.vals ensures LevelsOk(r.vals[k]) {
      if k != it.loaiCauHoi { assert r.vals[k] == leaf.vals[k]; }
    }
  }

  lemma InsertIntoUnitOk(u: OutcomeMap, it: SpecItem)
    requires u == Empty() || UnitOk(u)
    ensures UnitOk(InsertIntoUnit(u, it))
  {
    var leaf := GetOr(u, it.yeuCauCanDat, Empty());
    assert leaf == Empty() || LeafOk(leaf);
    InsertIntoLeafOk(leaf, it);
    var r := InsertIntoUnit(u, it);
    forall k | k in r.vals ensures LeafOk(r.vals[k]) {
      if k != it.yeuCauCanDat { assert r.vals[k] == u.vals[k]; }
    }
  }

  lemma InsertIntoTopicOk(t: UnitMap, it: SpecItem)
    requires t == Empty() || TopicOk(t)
    ensures TopicOk(InsertIntoTopic(t, it))
  {
    var u := GetOr(t, it.noiDung, Empty());
    assert u == Empty() || UnitOk(u);
    InsertIntoUnitOk(u, it);
    var r := InsertIntoTopic(t, it);
    forall k | k in r.vals ensures UnitOk(r.vals[k]) {
      if k != it.noiDung { assert r.vals[k] == t.vals[k]; }
    }
  }

  lemma InsertWellFormed(g: Tree, it: SpecItem)
    requires WellFormed(g)
    ensures WellFormed(Insert(g, it))
  {
    var t := GetOr(g, it.chuDe, Empty());
    assert t == Empty() || TopicOk(t);
    InsertIntoTopicOk(t, it);
    var r := Insert(g, it);
    forall k | k in r.vals ensures TopicOk(r.vals[k]) {
      if k != it.chuDe { assert r.vals[k] == g.vals[k]; }
    }
  }

  /** The unit and outcome levels of a grouped tree list each key once. */
  lemma GroupValidAt(items: seq<SpecItem>, c: string, n: string)
    ensures Valid(Group(items))
    ensures Valid(UnitsOf(Group(items), c))
    ensures Valid(OutcomesOf(Group(items), c, n))
  {
    GroupWellFormed(items);
    var g := Group(items);
    if c in g.vals {
      var t := g.vals[c];
      assert TopicOk(t);
      if n in t.vals { assert UnitOk(t.vals[n]); }
    }
  }

  /** The grouped tree is well formed. */
  lemma {:induction false} GroupWellFormed(items: seq<SpecItem>)
    ensures WellFormed(Group(items))
  {
    if items != [] {
      GroupWellFormed(items[..|items| - 1]);
      InsertWellFormed(Group(items[..|items| - 1]), items[|items| - 1]);
    }
  }

  // ---- key order ----

  /** Where an insertion puts new keys: a first-seen topic goes last among
      the topics, a first-seen unit last among its topic's units, and a
      first-seen outcome last among its unit's outcomes. */
  lemma InsertTopicKeys(g: Tree, it: SpecItem)
    requires Valid(g)
    ensures Insert(g, it).keys == if it.chuDe in g.keys then g.keys else g.keys + [it.chuDe]
  {
  }

  lemma InsertUnitKeys(g: Tree, it: SpecItem, c: string)
    requires Valid(UnitsOf(g, c))
    ensures UnitsOf(Insert(g, it), c).keys ==
      if c != it.chuDe then UnitsOf(g, c).keys
      else if it.noiDung in UnitsOf(g, c).keys then UnitsOf(g, c).keys
      else UnitsOf(g, c).keys + [it.noiDung]
  {
    var t := GetOr(g, it.chuDe, Empty());
    GetOrPut(g, it.chuDe, InsertIntoTopic(t, it), c, Empty());
  }

  lemma InsertOutcomeKeys(g: Tree, it: SpecItem, c: string, n: string)
    requires Valid(OutcomesOf(g, c, n))
    ensures OutcomesOf(Insert(g, it), c, n).keys ==
      if c != it.chuDe || n != it.noiDung then OutcomesOf(g, c, n).keys
      else if it.yeuCauCanDat in OutcomesOf(g, c, n).keys then OutcomesOf(g, c, n).keys
      else OutcomesOf(g, c, n).keys + [it.yeuCauCanDat]
  {
    var t := GetOr(g, it.chuDe, Empty());
    GetOrPut(g, it.chuDe, InsertIntoTopic(t, it), c, Empty());
    var u := GetOr(t, it.noiDung, Empty());
    GetOrPut(t, it.noiDung, InsertIntoUnit(u, it), n, Empty());
  }

  /** One insertion step of the first-seen order. */
  lemma DedupStep(before: seq<string>, after: seq<string>, s: seq<string>, x: string, hit: bool)
    requires before == Dedup(s)
    requires after == if !hit then before else if x in before then before else before + [x]
    ensures after == Dedup(s + if hit then [x] else [])
  {
    if hit {
      DedupAppend(s, x);
    } else {
      assert s + [] == s;
    }
  }

  lemma {:induction false} GroupTopicOrder(items: seq<SpecItem>)
    ensures Group(items).keys == Dedup(Topics(items))
  {
    if items != [] {
      var init, it := items[..|items| - 1], items[|items| - 1];
      GroupTopicOrder(init);
      GroupValidAt(init, "", "");
      InsertTopicKeys(Group(init), it);
      DedupStep(Group(init).keys, Group(items).keys, Topics(init), it.chuDe, true);
    }
  }

  lemma {:induction false} GroupUnitOrder(items: seq<SpecItem>, c: string)
    ensures UnitsOf(Group(items), c).keys == Dedup(UnitsUnder(items, c))
  {
    if items != [] {
      var init, it := items[..|items| - 1], items[|items| - 1];
      GroupUnitOrder(init, c);
      GroupValidAt(init, c, "");
      InsertUnitKeys(Group(init), it, c);
      DedupStep(UnitsOf(Group(init), c).keys, UnitsOf(Group(items), c).keys, UnitsUnder(init, c), it.noiDung, c == it.chuDe);
    }
  }

  lemma OutcomeStep(g: Tree, it: SpecItem, c: string, n: string, s: seq<string>)
    requires Valid(OutcomesOf(g, c, n)) && OutcomesOf(g, c, n).keys == Dedup(s)
    ensures OutcomesOf(Insert(g, it), c, n).keys == Dedup(s + if c == it.chuDe && n == it.noiDung then [it.yeuCauCanDat] else [])
  {
    InsertOutcomeKeys(g, it, c, n);
    DedupStep(OutcomesOf(g, c, n).keys, OutcomesOf(Insert(g, it), c, n).keys, s, it.yeuCauCanDat, c == it.chuDe && n == it.noiDung);
  }

  lemma {:induction false} GroupOutcomeOrder(items: seq<SpecItem>, c: string, n: string)
    ensures OutcomesOf(Group(items), c, n).keys == Dedup(OutcomesUnder(items, c, n))
  {
    if items != [] {
      var init, it := items[..|items| - 1], items[|items| - 1];
      GroupOutcomeOrder(init, c, n);
      GroupValidAt(init, c, n);
      OutcomeStep(Group(init), it, c, n, OutcomesUnder(init, c, n));
    }
  }

  /** Topics, units within a topic and outcomes within a unit all come in
      the order in which the items first mention them. */
  lemma GroupKeyOrder(items: seq<SpecItem>)
    ensures Group(items).keys == Dedup(Topics(items))
    ensures forall c :: UnitsOf(Group(items), c).keys == Dedup(UnitsUnder(items, c))
    ensures forall c, n :: OutcomesOf(Group(items), c, n).keys == Dedup(OutcomesUnder(items, c, n))
  {
    GroupTopicOrder(items);
    forall c ensures UnitsOf(Group(items), c).keys == Dedup(UnitsUnder(items, c)) {
      GroupUnitOrder(items, c);
    }
    forall c, n ensures OutcomesOf(Group(items), c, n).keys == Dedup(OutcomesUnder(items, c, n)) {
      GroupOutcomeOrder(items, c, n);
    }
  }
}
