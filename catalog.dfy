/** The fixed enumerations of the assessment matrix: four question types,
    three cognitive levels, and the complete 4 x 3 grid of counts a matrix
    row carries. The display names and point weights live in a types file
    that is not part of this model, so they are a `Catalog` parameter;
    weights are in hundredths of a point, which keeps all arithmetic exact. */
module Catalog {

  /** QUESTION_TYPES, in enumeration order: multiple choice, true/false,
      short answer, essay. */
  datatype QType = MultipleChoice | TrueFalse | ShortAnswer | Essay

  /** COGNITIVE_LEVELS_DOC, in enumeration order. */
  datatype Level = Know | Understand | Apply

  const QTypes: seq<QType> := [MultipleChoice, TrueFalse, ShortAnswer, Essay]
  const Levels: seq<Level> := [Know, Understand, Apply]

  /** Position of a type in the enumeration. */
  function TypeIndex(t: QType): (k: nat)
    ensures k < |QTypes| && QTypes[k] == t
  {
    match t
    case MultipleChoice => 0
    case TrueFalse => 1
    case ShortAnswer => 2
    case Essay => 3
  }

  /** Position of a level in the enumeration. */
  function LevelIndex(l: Level): (k: nat)
    ensures k < |Levels| && Levels[k] == l
  {
    match l
    case Know => 0
    case Understand => 1
    case Apply => 2
  }

  /** The enumerations list each value once. */
  lemma IndexOfPosition(i: nat, j: nat)
    ensures i < |QTypes| ==> TypeIndex(QTypes[i]) == i
    ensures j < |Levels| ==> LevelIndex(Levels[j]) == j
  {
  }

  /** Display names (used as keys of the specification's nested maps and
      as CSV headers) and the points a question of each type is worth, in
      hundredths of a point. */
  datatype Catalog = Catalog(typeName: QType -> string, levelName: Level -> string, weight: QType -> nat)

  /** Distinct types and levels have distinct names. */
  predicate Distinct(cat: Catalog)
  {
    && (forall t1: QType, t2: QType :: cat.typeName(t1) == cat.typeName(t2) ==> t1 == t2)
    && (forall l1: Level, l2: Level :: cat.levelName(l1) == cat.levelName(l2) ==> l1 == l2)
  }

  /** One row of the grid: a count per cognitive level. */
  datatype LevelCounts = LevelCounts(know: int, understand: int, apply: int)

  /** The complete grid, question type x cognitive level; never sparse. */
  datatype Counts = Counts(multipleChoice: LevelCounts, trueFalse: LevelCounts, shortAnswer: LevelCounts, essay: LevelCounts)

  function AtLevel(lc: LevelCounts, l: Level): int
  {
    match l
    case Know => lc.know
    case Understand => lc.understand
    case Apply => lc.apply
  }

  function WithLevel(lc: LevelCounts, l: Level, v: int): LevelCounts
  {
    match l
    case Know => lc.(know := v)
    case Understand => lc.(understand := v)
    case Apply => lc.(apply := v)
  }

  function OfType(c: Counts, t: QType): LevelCounts
  {
    match t
    case MultipleChoice => c.multipleChoice
    case TrueFalse => c.trueFalse
    case ShortAnswer => c.shortAnswer
    case Essay => c.essay
  }

  /** `counts[t][l]` */
  function Get(c: Counts, t: QType, l: Level): int
  {
    AtLevel(OfType(c, t), l)
  }

  /** `counts[t][l] = v` on a copy: exactly one cell changes. */
  function Set(c: Counts, t: QType, l: Level, v: int): (r: Counts)
    ensures Get(r, t, l) == v
    ensures forall t': QType, l': Level :: (t' != t || l' != l) ==> Get(r, t', l') == Get(c, t', l')
  {
    var lc := WithLevel(OfType(c, t), l, v);
    match t
    case MultipleChoice => c.(multipleChoice := lc)
    case TrueFalse => c.(trueFalse := lc)
    case ShortAnswer => c.(shortAnswer := lc)
    case Essay => c.(essay := lc)
  }

  /** Two grids are equal exactly when they agree on every cell. */
  lemma CountsExtensional(a: Counts, b: Counts)
    requires forall t: QType, l: Level :: Get(a, t, l) == Get(b, t, l)
    ensures a == b
  {
    assert Get(a, MultipleChoice, Know) == Get(b, MultipleChoice, Know);
    assert Get(a, MultipleChoice, Understand) == Get(b, MultipleChoice, Understand);
    assert Get(a, MultipleChoice, Apply) == Get(b, MultipleChoice, Apply);
    assert Get(a, TrueFalse, Know) == Get(b, TrueFalse, Know);
    assert Get(a, TrueFalse, Understand) == Get(b, TrueFalse, Understand);
    assert Get(a, TrueFalse, Apply) == Get(b, TrueFalse, Apply);
    assert Get(a, ShortAnswer, Know) == Get(b, ShortAnswer, Know);
    assert Get(a, ShortAnswer, Understand) == Get(b, ShortAnswer, Understand);
    assert Get(a, ShortAnswer, Apply) == Get(b, ShortAnswer, Apply);
    assert Get(a, Essay, Know) == Get(b, Essay, Know);
    assert Get(a, Essay, Understand) == Get(b, Essay, Understand);
    assert Get(a, Essay, Apply) == Get(b, Essay, Apply);
  }

  const ZeroLevels: LevelCounts := LevelCounts(0, 0, 0)
  const Zero: Counts := Counts(ZeroLevels, ZeroLevels, ZeroLevels, ZeroLevels)

  /** A grid that is 0 everywhere except `v` in cell (t, l). */
  function Single(t: QType, l: Level, v: int): (r: Counts)
    ensures forall t': QType, l': Level :: Get(r, t', l') == if t' == t && l' == l then v else 0
  {
    Set(Zero, t, l, v)
  }

  /** Cell-wise sum of two grids. */
  function Add(a: Counts, b: Counts): (r: Counts)
    ensures forall t: QType, l: Level :: Get(r, t, l) == Get(a, t, l) + Get(b, t, l)
  {
    Counts(
      LevelCounts(a.multipleChoice.know + b.multipleChoice.know, a.multipleChoice.understand + b.multipleChoice.understand, a.multipleChoice.apply + b.multipleChoice.apply),
      LevelCounts(a.trueFalse.know + b.trueFalse.know, a.trueFalse.understand + b.trueFalse.understand, a.trueFalse.apply + b.trueFalse.apply),
      LevelCounts(a.shortAnswer.know + b.shortAnswer.know, a.shortAnswer.understand + b.shortAnswer.understand, a.shortAnswer.apply + b.shortAnswer.apply),
      LevelCounts(a.essay.know + b.essay.know, a.essay.understand + b.essay.understand, a.essay.apply + b.essay.apply))
  }

  // ---- sums over the enumerations, in enumeration order ----

  /** Sum of `counts[t][l]` over the first `n` levels. */
  function LevelSumUpTo(c: Counts, t: QType, n: nat): int
    requires n <= |Levels|
  {
    if n == 0 then 0 else LevelSumUpTo(c, t, n - 1) + Get(c, t, Levels[n - 1])
  }

  /** `COGNITIVE_LEVELS_DOC.reduce((s, l) => s + counts[t][l], 0)` */
  function TypeTotal(c: Counts, t: QType): int
  {
    LevelSumUpTo(c, t, |Levels|)
  }

  lemma TypeTotalCells(c: Counts, t: QType)
    ensures TypeTotal(c, t) == Get(c, t, Know) + Get(c, t, Understand) + Get(c, t, Apply)
  {
    assert LevelSumUpTo(c, t, 1) == Get(c, t, Know);
    assert LevelSumUpTo(c, t, 2) == Get(c, t, Know) + Get(c, t, Understand);
  }

  /** Sum of all cells of the first `n` question types. */
  function CellSumUpTo(c: Counts, n: nat): int
    requires n <= |QTypes|
  {
    if n == 0 then 0 else CellSumUpTo(c, n - 1) + TypeTotal(c, QTypes[n - 1])
  }

  /** Sum of all twelve cells. */
  function CellSum(c: Counts): int
  {
    CellSumUpTo(c, |QTypes|)
  }

  lemma CellSumTypes(c: Counts)
    ensures CellSum(c) == TypeTotal(c, MultipleChoice) + TypeTotal(c, TrueFalse) + TypeTotal(c, ShortAnswer) + TypeTotal(c, Essay)
  {
    assert CellSumUpTo(c, 1) == TypeTotal(c, MultipleChoice);
    assert CellSumUpTo(c, 2) == TypeTotal(c, MultipleChoice) + TypeTotal(c, TrueFalse);
    assert CellSumUpTo(c, 3) == TypeTotal(c, MultipleChoice) + TypeTotal(c, TrueFalse) + TypeTotal(c, ShortAnswer);
  }

  /** Weighted points of the first `n` question types: the running value of
      `rowPoints` in the loop `for (const type of QUESTION_TYPES)`. */
  function PointsUpTo(c: Counts, weight: QType -> nat, n: nat): int
    requires n <= |QTypes|
  {
    if n == 0 then 0 else PointsUpTo(c, weight, n - 1) + TypeTotal(c, QTypes[n - 1]) * weight(QTypes[n - 1])
  }

  /** Points of a grid: sum over types of (questions of that type x weight). */
  function Points(c: Counts, weight: QType -> nat): int
  {
    PointsUpTo(c, weight, |QTypes|)
  }

  lemma PointsTypes(c: Counts, weight: QType -> nat)
    ensures Points(c, weight) ==
      TypeTotal(c, MultipleChoice) * weight(MultipleChoice) + TypeTotal(c, TrueFalse) * weight(TrueFalse)
      + TypeTotal(c, ShortAnswer) * weight(ShortAnswer) + TypeTotal(c, Essay) * weight(Essay)
  {
    assert PointsUpTo(c, weight, 1) == TypeTotal(c, MultipleChoice) * weight(MultipleChoice);
    assert PointsUpTo(c, weight, 2) == PointsUpTo(c, weight, 1) + TypeTotal(c, TrueFalse) * weight(TrueFalse);
    assert PointsUpTo(c, weight, 3) == PointsUpTo(c, weight, 2) + TypeTotal(c, ShortAnswer) * weight(ShortAnswer);
  }

  /** Changing one cell from `old` to `v` changes the cell sum by `v - old`. */
  lemma CellSumSet(c: Counts, t: QType, l: Level, v: int)
    ensures CellSum(Set(c, t, l, v)) == CellSum(c) + v - Get(c, t, l)
  {
    var r := Set(c, t, l, v);
    CellSumTypes(c);
    CellSumTypes(r);
    forall t' ensures TypeTotal(r, t') == TypeTotal(c, t') + (if t' == t then v - Get(c, t, l) else 0) {
      TypeTotalCells(c, t');
      TypeTotalCells(r, t');
    }
  }

  /** Points and cell sums are additive over cell-wise grid addition. */
  lemma AddSums(a: Counts, b: Counts, weight: QType -> nat)
    ensures CellSum(Add(a, b)) == CellSum(a) + CellSum(b)
    ensures Points(Add(a, b), weight) == Points(a, weight) + Points(b, weight)
  {
    var r := Add(a, b);
    forall t ensures TypeTotal(r, t) == TypeTotal(a, t) + TypeTotal(b, t) {
      TypeTotalCells(r, t);
      TypeTotalCells(a, t);
      TypeTotalCells(b, t);
    }
    CellSumTypes(r);
    CellSumTypes(a);
    CellSumTypes(b);
    PointsTypes(r, weight);
    PointsTypes(a, weight);
    PointsTypes(b, weight);
    forall t ensures TypeTotal(r, t) * weight(t) == TypeTotal(a, t) * weight(t) + TypeTotal(b, t) * weight(t) {
      MulDistributes(TypeTotal(a, t), TypeTotal(b, t), weight(t));
    }
  }

  lemma MulDistributes(x: int, y: int, w: int)
    ensures (x + y) * w == x * w + y * w
  {
  }
}
