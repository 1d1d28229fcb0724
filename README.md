# Test-builder core: matrix, specification, exports and workflow

This project models the deterministic logic inside the React components of a
Vietnamese test-building application. A teacher works in three steps:

1. They build an assessment matrix: topics and knowledge units, with a grid of
   question counts per question type (four types) and cognitive level (three
   levels).
2. A generated specification is grouped into a topic → unit → learning-outcome
   table and can be exported as CSV.
3. The generated quiz is shown with its formulas. It can be exported as a Word
   document or as LaTeX, and single questions can be regenerated.

The model is written in Dafny and every property below is proved.

Modules, one per file:

- `Wrappers` / `Seqs` (wrappers.dfy): `Option`, `Result`, and JavaScript's
  `findIndex` and `filter` with their laws.
- `Assoc` (assoc.dfy): insertion-ordered dictionaries. They stand for the
  plain objects that the components index by display strings, with keys in
  insertion order (see "Left out" for the keys where JavaScript differs).
- `Catalog` (catalog.dfy): the type and level enumerations, the full 4×3
  count grid, and the display names and weights. The names and weights are
  a parameter, since the file that defines them is not part of this model.
  Weights are whole hundredths of a point, so all arithmetic is exact.
- `Text` (text.dfy): `trim`, `includes`, `join`, number-to-text and its
  inverse.
- `Matrix` (matrix.dfy): MatrixCreator.
  - The row operations are functions, with their invariants: percentage =
    10 × points, and the (topic, unit) key is unique.
  - Column totals, points and `isSubmittable` are functions, with the loops
    that compute them as methods.
  - The component's state is the class `MatrixEditor`.
- `Grouping` (grouping.dfy): `groupedSpecification` as a fold, plus the
  method that runs the `forEach`.
- `SpecTotals` (spectotals.dfy): the footer's column totals, the grand total
  and each row total of the specification table.
- `SpecTable` (spectable.dfy): the row-span emission of the specification
  table, as the nested `map`s that build the body.
- `SpecCsv` (speccsv.dfy): `handleExportExcel`, with a reader for the text
  it writes and a round-trip proof.
- `MathText` (mathtext.dfy): the view's formula segmentation, the
  classification of the parts, and `formatTextForWord`.
- `FileNames` (filenames.dfy): `getSafeFileNamePart`.
- `QuizExport` (quizexport.dfy): question partition and numbering, the Word
  test, and the LaTeX source.
- `WordTables` (wordtables.dfy): the matrix and specification tables of the
  Word exports.
- `Regenerate` (regenerate.dfy): `handleRegenerateQuestion` on the class
  `QuizView`.
- `Workflow` (workflow.dfy): MatrixWorkflow as the class `MatrixWorkflow`,
  with generation as a function of the two service answers.

Behaviours of the code that the model keeps, and that a reader might not
expect:

- The grouping overwrites a repeated path. It assigns a leaf's quantity
  rather than adding to it, so a repeated (topic, unit, outcome, type,
  level) path keeps the last quantity (`SpecTotals.DuplicatePathOverwrites`).
- The busy flag for regeneration is global: there is one flag for the
  whole quiz, not one per question. Any click made while one request is in
  flight is ignored.
- A failed quiz call leaves the new specification stored, because
  `handleGenerateFullQuiz` stores the specification before asking for the
  quiz.
- `handleCountChange` writes the value unclamped: a negative count is
  stored as given.
- The commit button requires a topic, a unit, an outcome and a count of at
  least 1. `handleSaveModal` itself only checks the topic and the unit, and
  it does not trim them. The workflow's filter does trim.

## Model

| member | source | states |
|---|---|---|
| Seqs.FindIndex | components/MatrixCreator.tsx:51 | the first index satisfying the predicate, or -1 exactly when none does |
| Seqs.FilterMembers | components/MatrixCreator.tsx:92 | `filter` keeps exactly the elements satisfying the predicate, as many as satisfy it |
| Seqs.FilterAppend | components/MatrixWorkflow.tsx:38-43 | filtering preserves relative order: it distributes over concatenation |
| Seqs.FilterPartition | components/QuizDisplay.tsx:338-339 | a predicate and its negation split a list into two filters that together are a permutation of it |
| Assoc.Empty | components/SpecificationDisplay.tsx:29 | `{}` is a valid dictionary with no keys |
| Assoc.Put | components/SpecificationDisplay.tsx:31-35 | assignment sets the key, leaves every other key's value, and appends the key to the order only when it is new |
| Assoc.GetOrPut | components/SpecificationDisplay.tsx:35 | reading back after an assignment gives the assigned value, and the old value for other keys |
| Assoc.PutPut | components/SpecificationDisplay.tsx:35 | assigning a key twice equals assigning it the second value once |
| Assoc.Dedup | components/SpecificationDisplay.tsx:70-72 | keys in first-seen order: no repeats, the same members as the input, and a key listed before another first occurs in the input before it |
| Assoc.DedupAppend | components/SpecificationDisplay.tsx:31 | one more key is appended to the first-seen order only when it was not seen before |
| Assoc.SumOverFrame | components/SpecificationDisplay.tsx:73-75 | changing an unlisted key changes no sum over the listed values |
| Assoc.SumOverUpdate | components/SpecificationDisplay.tsx:73-75 | changing a listed key swaps its contribution to the sum |
| Assoc.SumPut | components/SpecificationDisplay.tsx:73-75 | after an assignment, `Object.values(...).reduce` loses the old value and gains the new one |
| Catalog.TypeIndex | components/MatrixCreator.tsx:62 | the position of a question type in QUESTION_TYPES |
| Catalog.LevelIndex | components/MatrixCreator.tsx:63 | the position of a level in COGNITIVE_LEVELS_DOC |
| Catalog.IndexOfPosition | components/MatrixCreator.tsx:62-63 | each enumeration lists every value once, so position and value determine each other |
| Catalog.Set | components/MatrixCreator.tsx:98-99 | `newCounts[t][l] = v` on a copy changes that cell and no other |
| Catalog.CountsExtensional | components/MatrixCreator.tsx:98 | two grids agreeing on all twelve cells are equal |
| Catalog.Single | components/MatrixCreator.tsx:76-82 | the new row's grid is 0 everywhere except the chosen cell |
| Catalog.Add | components/MatrixCreator.tsx:133-137 | the cell-wise sum of two grids |
| Catalog.TypeTotalCells | components/MatrixCreator.tsx:63 | the level `reduce` of one type is the sum of its three cells |
| Catalog.CellSumTypes | components/MatrixCreator.tsx:152-157 | the sum of all twelve cells is the sum of the four type totals |
| Catalog.PointsTypes | components/MatrixCreator.tsx:61-65 | a grid's points are Σ over types of the type total × weight |
| Catalog.CellSumSet | components/MatrixCreator.tsx:99 | overwriting one cell changes the cell sum by the new value minus the old |
| Catalog.AddSums | components/MatrixCreator.tsx:133-137 | cell sums and points are additive over grid addition |
| Text.LeadingSpaces | components/QuizDisplay.tsx:230 | the leading whitespace run of `trim`: all spaces before it, a non-space at it |
| Text.TrailingEnd | components/QuizDisplay.tsx:230 | the trailing whitespace run of `trim`: all spaces after it, a non-space before it |
| Text.Trim | components/QuizDisplay.tsx:230 | `trim` yields a slice with only whitespace outside it and no whitespace at either end, empty exactly for blank text |
| Text.TrimFixed | components/QuizDisplay.tsx:230 | a text with no whitespace at either end is its own trim |
| Text.TrimIdempotent | components/MatrixWorkflow.tsx:39 | trimming twice is trimming once |
| Text.Contains | components/MatrixWorkflow.tsx:59 | `includes` holds exactly when the substring occurs at some position |
| Text.Repeat | components/QuizDisplay.tsx:487 | `n` copies of a string have `n` times its length |
| Text.NatToString | components/SpecificationDisplay.tsx:83 | decimal digits without a leading zero |
| Text.IntToString | components/SpecificationDisplay.tsx:80 | a template literal's number: digits with an optional minus sign |
| Text.NatToStringRoundTrip | components/SpecificationDisplay.tsx:83 | the digits read back as the number |
| Text.IntToStringRoundTrip | components/SpecificationDisplay.tsx:80 | a rendered integer reads back as itself |
| Text.IntToStringInjective | components/QuizDisplay.tsx:411 | distinct numbers render differently |
| Matrix.WeightedLevels | components/MatrixCreator.tsx:62-64 | the inner loop over levels yields type total × weight |
| Matrix.RowTotalPointsMatchPercentage | components/MatrixCreator.tsx:308 | the points shown in a row's total column are a tenth of the stored percentage |
| Matrix.RowPoints | components/MatrixCreator.tsx:61-65 | the `rowPoints` loop computes the grid's points |
| Matrix.NewRowConsistent | components/MatrixCreator.tsx:84-85 | the shortcut count × weight for a new row agrees with the general percentage formula |
| Matrix.FindKeyUnique | components/MatrixCreator.tsx:51 | with unique keys, `findIndex` on the key finds the one row carrying it |
| Matrix.SaveMerges | components/MatrixCreator.tsx:49-68 | a blank topic or unit saves nothing; otherwise the existing row gains `count` in one cell, keeps its outcome unless empty, and every other row and the length stay |
| Matrix.SaveAppends | components/MatrixCreator.tsx:69-86 | without a row of that key, save appends exactly one row whose grid is zero except `count` in the chosen cell |
| Matrix.SavePreservesInvariants | components/MatrixCreator.tsx:49-89 | saving keeps every percentage equal to 10 × points and the keys unique |
| Matrix.ReplaceCounts | components/MatrixCreator.tsx:101-113 | the `map` keeps the length |
| Matrix.CountChangeEffect | components/MatrixCreator.tsx:95-114 | an unknown id changes nothing; otherwise each row with that id gets the first such row's grid with the one cell overwritten (no clamping) and a recomputed percentage, and other rows stay |
| Matrix.CountChangeIdempotent | components/MatrixCreator.tsx:95-114 | writing the same value into the same cell twice equals writing it once |
| Matrix.CountChangePreservesInvariants | components/MatrixCreator.tsx:105-110 | a cell edit keeps every percentage consistent and the keys unique |
| Matrix.RemoveEffect | components/MatrixCreator.tsx:91-93 | removal drops exactly the rows with the id, keeps the rest in order, and keeps the invariants |
| Matrix.RemoveCount | components/MatrixCreator.tsx:92 | removal shortens the matrix by the number of rows with the id |
| Matrix.RemoveKeepsInvariants | components/MatrixCreator.tsx:91-93 | removal keeps percentages consistent and keys unique |
| Matrix.ComputeColumnTotals | components/MatrixCreator.tsx:128-139 | the nested `forEach` computes the per-cell sums over all rows |
| Matrix.ColumnTotalsAppend | components/MatrixCreator.tsx:133-137 | column totals of two row lists together are the cell-wise sum |
| Matrix.SaveColumnTotals | components/MatrixCreator.tsx:49-89 | saving a non-blank draft adds exactly `count` to its column total, whether it merges or appends |
| Matrix.ColumnTotalsSingle | components/MatrixCreator.tsx:133-137 | one row's column totals are its own grid |
| Matrix.AddZero | components/MatrixCreator.tsx:130 | the zero grid the totals start from is neutral |
| Matrix.FilterOneColumnTotals | components/MatrixCreator.tsx:92 | filtering a single row keeps its counts exactly when it is kept |
| Matrix.FilterColumnTotals | components/MatrixCreator.tsx:92 | splitting rows by a predicate splits the column totals |
| Matrix.RemoveColumnTotals | components/MatrixCreator.tsx:91-93 | removing by id subtracts exactly the removed rows' counts from the totals |
| Matrix.TotalPointsIsPoints | components/MatrixCreator.tsx:141-149 | summing points per level and then over levels equals summing type totals × weights |
| Matrix.TotalPointsIsSumOfRows | components/MatrixCreator.tsx:141-149 | the total points equal the sum of the rows' points and a tenth of the sum of consistent percentages |
| Matrix.IsSubmittable | components/MatrixCreator.tsx:151-159 | the nested loops decide: non-empty matrix and positive total count |
| Matrix.CellSumOfColumnTotals | components/MatrixCreator.tsx:152-157 | the sum of the column totals is the sum of every row's cells |
| Matrix.CellSumSign | components/MatrixCreator.tsx:155-158 | a positive cell sum has a positive cell; with no negative cells the converse holds |
| Matrix.SubmittableIffPositiveCell | components/MatrixCreator.tsx:151-159 | submittable implies some row has a positive cell; with non-negative counts the converse holds |
| Matrix.SumCellsSign | components/MatrixCreator.tsx:151-159 | the sign of the total count over rows, from the signs of the cells |
| Matrix.CommitAddsQuestions | components/MatrixCreator.tsx:257 | a draft the commit button accepts adds `count` ≥ 1 questions to the matrix |
| Matrix.MatrixEditor.constructor | components/MatrixCreator.tsx:20-31 | the editor starts closed with the reset form |
| Matrix.MatrixEditor.OpenModal | components/MatrixCreator.tsx:35 | opening changes only the open flag |
| Matrix.MatrixEditor.CloseModal | components/MatrixCreator.tsx:37-47 | closing resets the form and keeps the rows |
| Matrix.MatrixEditor.SelectTopic | components/MatrixCreator.tsx:182 | choosing a topic clears the unit and outcome already chosen |
| Matrix.MatrixEditor.SelectUnit | components/MatrixCreator.tsx:195-198 | choosing a unit clears the outcome already chosen |
| Matrix.MatrixEditor.SetDetails | components/MatrixCreator.tsx:214-246 | the outcome, type, level and count inputs set only their fields |
| Matrix.MatrixEditor.SaveModal | components/MatrixCreator.tsx:49-89 | the rows become the saved matrix and stay valid; a blank key leaves the form open, otherwise it closes and resets |
| Matrix.MatrixEditor.RemoveRow | components/MatrixCreator.tsx:91-93 | the rows become the filtered rows and stay valid |
| Matrix.MatrixEditor.CountChange | components/MatrixCreator.tsx:95-114 | the rows become the edited rows and stay valid |
| Grouping.GroupSpecification | components/SpecificationDisplay.tsx:28-38 | the `forEach` builds the fold of the insertion step over the items |
| Grouping.GroupStep | components/SpecificationDisplay.tsx:30-36 | one more item is one more insertion |
| Grouping.InsertIntoLeafQuantity | components/SpecificationDisplay.tsx:34-35 | the leaf write sets its own (type, level) and no other |
| Grouping.InsertIntoUnitQuantity | components/SpecificationDisplay.tsx:33-35 | the unit-level write touches only its outcome's path |
| Grouping.InsertIntoTopicQuantity | components/SpecificationDisplay.tsx:32-35 | the topic-level write touches only its unit's paths |
| Grouping.InsertQuantity | components/SpecificationDisplay.tsx:31-35 | inserting an item sets its own path's quantity and no other |
| Grouping.InsertSamePath | components/SpecificationDisplay.tsx:35 | a second item with the same path overwrites the first |
| Grouping.GroupQuantity | components/SpecificationDisplay.tsx:28-38 | every path in the grouped tree holds the quantity of the last item with that path, and absent paths had no item |
| Grouping.InsertIntoLeafOk | components/SpecificationDisplay.tsx:34-35 | the leaf stays a valid dictionary of valid dictionaries |
| Grouping.InsertIntoUnitOk | components/SpecificationDisplay.tsx:33 | the outcome level stays valid |
| Grouping.InsertIntoTopicOk | components/SpecificationDisplay.tsx:32 | the unit level stays valid |
| Grouping.InsertWellFormed | components/SpecificationDisplay.tsx:31-35 | an insertion keeps the tree well formed, with no empty topic, unit or outcome |
| Grouping.GroupValidAt | components/SpecificationDisplay.tsx:28-38 | the topic, unit and outcome levels of a grouped tree list each key once |
| Grouping.GroupWellFormed | components/SpecificationDisplay.tsx:28-38 | the grouped tree is well formed |
| Grouping.InsertTopicKeys | components/SpecificationDisplay.tsx:31 | a first-seen topic goes last in the topic order |
| Grouping.InsertUnitKeys | components/SpecificationDisplay.tsx:32 | a first-seen unit goes last among its topic's units |
| Grouping.InsertOutcomeKeys | components/SpecificationDisplay.tsx:33 | a first-seen outcome goes last among its unit's outcomes |
| Grouping.DedupStep | components/SpecificationDisplay.tsx:31-33 | one insertion step extends the first-seen order |
| Grouping.GroupTopicOrder | components/SpecificationDisplay.tsx:116 | topics come in first-seen item order |
| Grouping.GroupUnitOrder | components/SpecificationDisplay.tsx:120 | units within a topic come in first-seen order |
| Grouping.OutcomeStep | components/SpecificationDisplay.tsx:33 | one insertion step extends an outcome order |
| Grouping.GroupOutcomeOrder | components/SpecificationDisplay.tsx:124 | outcomes within a unit come in first-seen order |
| Grouping.GroupKeyOrder | components/SpecificationDisplay.tsx:28-38 | all three levels keep first-seen order |
| SpecTotals.TypeNamed | components/SpecificationDisplay.tsx:50 | the type whose display name is given, or none when no type has it |
| SpecTotals.LevelNamed | components/SpecificationDisplay.tsx:50 | the level whose display name is given, or none when no level has it |
| SpecTotals.ItemCounts | components/SpecificationDisplay.tsx:50-51 | an item adds its quantity to its own cell when its type and level are known, and nothing otherwise |
| SpecTotals.BumpIsAdd | components/SpecificationDisplay.tsx:51 | `+=` on one cell is adding a single-cell grid |
| SpecTotals.ComputeSpecColumnTotals | components/SpecificationDisplay.tsx:40-55 | the memo's loop computes the zero grid plus every item's increment |
| SpecTotals.SpecColumnTotalsCell | components/SpecificationDisplay.tsx:40-55 | with distinct names, each footer cell is the sum of the quantities of all items naming that type and level, duplicates included |
| SpecTotals.CellSumZero | components/SpecificationDisplay.tsx:41-47 | the starting totals sum to 0 |
| SpecTotals.CellSumSingle | components/SpecificationDisplay.tsx:51 | a single-cell grid sums to its value |
| SpecTotals.CellSumItem | components/SpecificationDisplay.tsx:50-51 | an item adds its quantity to the total of the totals exactly when it is known |
| SpecTotals.GrandTotalSplit | components/SpecificationDisplay.tsx:57 | the grand total is the sum of the column totals plus the quantities of unknown items |
| SpecTotals.GrandTotalIsColumnSum | components/SpecificationDisplay.tsx:49-57 | when every item is known, the grand total equals the sum of the twelve column totals |
| SpecTotals.NoUnknown | components/SpecificationDisplay.tsx:50 | with every item known, nothing is left out of the totals |
| SpecTotals.InsertRowTotal | components/SpecificationDisplay.tsx:125-127 | writing a quantity into a leaf replaces that quantity's share of the row total |
| SpecTotals.InsertLeafAt | components/SpecificationDisplay.tsx:31-35 | an insertion touches only the leaf of its own outcome |
| SpecTotals.GroupLeafValid | components/SpecificationDisplay.tsx:28-38 | every leaf of a grouped tree lists each key once |
| SpecTotals.LastQuantityAbsent | components/SpecificationDisplay.tsx:35 | a path no item has holds nothing |
| SpecTotals.GroupLeafSnoc | components/SpecificationDisplay.tsx:30-36 | one more item changes only its own outcome's leaf |
| SpecTotals.FreshPathUnstored | components/SpecificationDisplay.tsx:35 | a new path is not stored before its item is inserted |
| SpecTotals.GroupRowTotalStep | components/SpecificationDisplay.tsx:125-127 | one more item with a new path adds its quantity to its own row total |
| SpecTotals.GroupRowTotal | components/SpecificationDisplay.tsx:73-75 | with distinct paths, each row total is the sum of the quantities of that outcome's items |
| SpecTotals.DuplicatePathOverwrites | components/SpecificationDisplay.tsx:35 | of two items with one path the tree keeps the second, while the grand total counts both |
| SpecTable.UnitSlots | components/SpecificationDisplay.tsx:121-141 | one row per outcome of the unit; only the first opens the unit cell, spanning the unit's outcomes |
| SpecTable.TopicSlotsStep | components/SpecificationDisplay.tsx:120 | one more unit appends its rows |
| SpecTable.UnitTiledAppend | components/SpecificationDisplay.tsx:132 | unit cells that tile two blocks tile both together |
| SpecTable.TopicTiledAppend | components/SpecificationDisplay.tsx:131 | topic cells that tile two blocks tile both together |
| SpecTable.UnitBlockTiled | components/SpecificationDisplay.tsx:121-132 | a unit's first row spans exactly its rows |
| SpecTable.TopicSlotsLength | components/SpecificationDisplay.tsx:117 | the first units of a topic emit as many rows as the running `reduce` of the row span |
| SpecTable.TopicSlotsRows | components/SpecificationDisplay.tsx:118-139 | every emitted row carries its topic and span; only the topic's first row opens the topic cell |
| SpecTable.TopicSlotsUnitTiled | components/SpecificationDisplay.tsx:120-132 | the unit cells tile a topic's rows |
| SpecTable.TopicBlockTiled | components/SpecificationDisplay.tsx:117-132 | a topic emits exactly its row span in rows, and its cell spans all of them |
| SpecTable.SlotsTiled | components/SpecificationDisplay.tsx:116-143 | the row-span theorem: each topic or unit cell spans exactly the rows emitted beneath it |
| SpecTable.TopicHeadsAppend | components/SpecificationDisplay.tsx:131 | the opened topic cells of two blocks are those of each in turn |
| SpecTable.TopicHeadsSingle | components/SpecificationDisplay.tsx:131 | a block whose only flagged row is the first opens one topic cell |
| SpecTable.TopicSpanUpToGrows | components/SpecificationDisplay.tsx:117 | the `reduce` never decreases |
| SpecTable.TopicSpanPositive | components/SpecificationDisplay.tsx:117 | a topic of a well-formed tree spans at least one row |
| SpecTable.WellFormedNoEmptyTopic | components/SpecificationDisplay.tsx:116-117 | a grouped tree has no topic without rows |
| SpecTable.TopicBlockHeads | components/SpecificationDisplay.tsx:131 | a topic with rows opens its own cell exactly once |
| SpecTable.TopicHeadsAreKeys | components/SpecificationDisplay.tsx:116 | topic cells open once per topic, in key order |
| SpecTable.TableTopicOrder | components/SpecificationDisplay.tsx:116-143 | the table's topic cells appear in first-seen order of the specification |
| SpecTable.ShownCells | components/SpecificationDisplay.tsx:134 | twelve count cells per row |
| SpecTable.RowsOf | components/QuizDisplay.tsx:732-743 | one body row per slot |
| SpecTable.RowsOfAt | components/SpecificationDisplay.tsx:129-136 | row `r` has the outcome, cells, total and optional spanning cells of slot `r` |
| SpecTable.RowsOfSnoc | components/SpecificationDisplay.tsx:124 | one more slot appends its row |
| SpecTable.RowsOfAppend | components/SpecificationDisplay.tsx:120-124 | rows of two slot lists follow each other |
| SpecTable.RenderUnit | components/SpecificationDisplay.tsx:124-141 | the inner `map` emits the unit's rows, and the topic flag stays set only for a unit without outcomes |
| SpecTable.RenderTopic | components/SpecificationDisplay.tsx:117-142 | the middle `map` emits the topic's rows with the computed span |
| SpecTable.TopicRowsStep | components/SpecificationDisplay.tsx:120-142 | one more unit: its rows follow, and the topic flag is set exactly while no row was emitted |
| SpecTable.RenderBody | components/SpecificationDisplay.tsx:116-143 | the outer `map` emits every leaf's row, in key order |
| SpecTable.TreeRowsStep | components/SpecificationDisplay.tsx:116 | one more topic: its rows follow those before it |
| SpecCsv.ColumnOf | components/SpecificationDisplay.tsx:63-66 | column `3i + j` is type `i` at level `j` |
| SpecCsv.BuildHeader | components/SpecificationDisplay.tsx:62-68 | the header is the three labels, the twelve titles in enumeration order, and the total |
| SpecCsv.AppendTitles | components/SpecificationDisplay.tsx:63-67 | the nested loops append the twelve `type - level,` titles |
| SpecCsv.CellValues | components/SpecificationDisplay.tsx:78-82 | twelve counts in column order, each `countGroup[t]?.[l] \|\| 0` |
| SpecCsv.NumberFieldsStep | components/SpecificationDisplay.tsx:80 | one more count appends its field |
| SpecCsv.LineTexts | components/SpecificationDisplay.tsx:70-86 | one line per outcome |
| SpecCsv.LinesStep | components/SpecificationDisplay.tsx:72 | one more outcome appends its line |
| SpecCsv.Export | components/SpecificationDisplay.tsx:59-60 | nothing is exported exactly when the specification is empty |
| SpecCsv.QuoteField | components/SpecificationDisplay.tsx:77 | writes a quoted field, with inner quotes doubled (the corrected quoting) |
| SpecCsv.BuildLine | components/SpecificationDisplay.tsx:73-83 | an outcome's line: three quoted names, twelve counts, the row total |
| SpecCsv.AppendCounts | components/SpecificationDisplay.tsx:78-82 | the nested loops append the twelve counts, each followed by a comma |
| SpecCsv.CountStep | components/SpecificationDisplay.tsx:80 | count `j` of type `i` is the next field of the line |
| SpecCsv.BuildLines | components/SpecificationDisplay.tsx:70-86 | the walk over the tree appends every outcome's line in order |
| SpecCsv.ExportCsv | components/SpecificationDisplay.tsx:59-87 | the whole export: nothing for an empty specification, otherwise header and lines |
| SpecCsv.RecordsOf | components/SpecificationDisplay.tsx:70-86 | one record per outcome |
| SpecCsv.EscapedRoundTrip | components/SpecificationDisplay.tsx:77 | a field with doubled quotes reads back as its text, whatever it holds |
| SpecCsv.QuotedRoundTrip | components/SpecificationDisplay.tsx:77 | a quoted field reads back as its text |
| SpecCsv.ReadUntilRoundTrip | components/SpecificationDisplay.tsx:83 | text without the separator reads back up to the separator |
| SpecCsv.ReadIntRoundTrip | components/SpecificationDisplay.tsx:80 | a written count reads back as itself |
| SpecCsv.NumberFieldsCons | components/SpecificationDisplay.tsx:80 | the first count's field comes first |
| SpecCsv.ReadIntsRoundTrip | components/SpecificationDisplay.tsx:78-82 | the twelve written counts read back as themselves |
| SpecCsv.LineRoundTrip | components/SpecificationDisplay.tsx:77-83 | every line reads back as the names, counts and total it stands for |
| SpecCsv.LinesCons | components/SpecificationDisplay.tsx:72 | the first outcome's line comes first |
| SpecCsv.LinesRoundTrip | components/SpecificationDisplay.tsx:70-86 | the lines read back as one record per outcome, in order |
| SpecCsv.ReadLinesStep | components/SpecificationDisplay.tsx:83 | a line followed by readable lines reads as its record first |
| SpecCsv.CsvRoundTrip | components/SpecificationDisplay.tsx:59-87 | the export reads back as one record per leaf of the grouped tree, in tree order |
| SpecCsv.UnescapedQuoteBreaksLine | components/SpecificationDisplay.tsx:77 | with quotes written as is, a name holding a quote makes the line unreadable, while the corrected line reads back |
| MathText.NextAt | components/QuizDisplay.tsx:46 | the first later occurrence of a delimiter, or none |
| MathText.MatchAt | components/QuizDisplay.tsx:46 | a match starts and ends with `$` and spans at least three characters |
| MathText.MatchAtNone | components/QuizDisplay.tsx:46 | a match starts at `q` exactly when a `$` there is closed by a `$` two or more places later |
| MathText.BlockFirst | components/QuizDisplay.tsx:46 | a `$$…$$` with a non-empty body is preferred, ending at the first closing `$$` |
| MathText.InlineOtherwise | components/QuizDisplay.tsx:46 | otherwise the match is the shortest `$…$` |
| MathText.ScannedNoFormula | components/QuizDisplay.tsx:46 | text scanned without a match holds no formula |
| MathText.SplitFrom | components/QuizDisplay.tsx:46 | the parts alternate: plain text with no formula, then a match |
| MathText.AlternateOne | components/QuizDisplay.tsx:46 | plain text alone alternates |
| MathText.AlternatePair | components/QuizDisplay.tsx:46 | plain text and a match before alternating parts keep them alternating |
| MathText.ConcatSlices | components/QuizDisplay.tsx:46 | adjacent slices concatenate back |
| MathText.SplitFromConcat | components/QuizDisplay.tsx:46 | the parts from a position concatenate to the rest of the text |
| MathText.SplitRoundTrip | components/QuizDisplay.tsx:44-47 | concatenating the split parts gives back the text |
| MathText.NoMatchFrom | components/QuizDisplay.tsx:46 | with no match ahead, the rest is one plain part |
| MathText.UnclosedStaysPlain | components/QuizDisplay.tsx:46 | a text whose `$` are never closed splits into itself alone |
| MathText.Inner | components/QuizDisplay.tsx:61 | `slice(n, -n)` drops `n` characters from each end |
| MathText.FormulaRoundTrip | components/QuizDisplay.tsx:56-61 | the delimiters put back around the formula give the part, except for `$`, `$$` and `$$$` |
| MathText.MatchIsFormula | components/QuizDisplay.tsx:56-57 | every match is classified as block or inline |
| MathText.PlainPartMisread | components/QuizDisplay.tsx:56-57 | a plain part is read as a formula only when it is `$` or `$$` |
| MathText.VisibleTextAppend | components/QuizDisplay.tsx:53 | the shown text of two part lists is that of each in turn |
| MathText.FallbackShowsParts | components/QuizDisplay.tsx:87-93 | when rendering fails, every part is shown verbatim and empty parts are skipped |
| MathText.FallbackShowsSource | components/QuizDisplay.tsx:43-95 | when rendering fails, the view shows exactly its text |
| MathText.WordMatchAt | components/QuizDisplay.tsx:186 | a match of the Word regex: `$`, an optional `$`, a non-empty body, `$`, an optional `$` |
| MathText.Breaks | components/QuizDisplay.tsx:215 | no newline is left, and text without one is unchanged |
| MathText.FormatForWord | components/QuizDisplay.tsx:184-216 | the Word text holds no newline |
| MathText.ReplaceFallback | components/QuizDisplay.tsx:211-213 | when rendering fails, every match is replaced by itself |
| MathText.WordFallback | components/QuizDisplay.tsx:184-216 | when rendering fails, the Word text is the text with `<br>` for line breaks |
| MathText.SameStarts | components/QuizDisplay.tsx:186 | the Word export and the view find a formula starting at the same positions |
| FileNames.Underscored | components/QuizDisplay.tsx:230 | `replace(/\s+/g, '_')` leaves no whitespace and adds no unsafe character |
| FileNames.RemoveUnsafe | components/QuizDisplay.tsx:230 | no unsafe character is left, and no whitespace is added |
| FileNames.SafeFileNamePart | components/QuizDisplay.tsx:230 | the result has no whitespace and none of `\ / : " * ? < > \|` |
| FileNames.UnderscoredFixed | components/QuizDisplay.tsx:230 | text without whitespace is left alone |
| FileNames.RemoveUnsafeKeepsSafe | components/QuizDisplay.tsx:230 | the removal is `filter` with the safe characters: every safe character is kept, in order, and only the unsafe ones are dropped |
| FileNames.RemoveUnsafeFixed | components/QuizDisplay.tsx:230 | text of safe characters is left alone |
| FileNames.RunBecomesOneUnderscore | components/QuizDisplay.tsx:230 | each whitespace run between words becomes one `_`, however long |
| FileNames.UnderscoredWord | components/QuizDisplay.tsx:230 | a non-space character is kept |
| FileNames.LeadingRun | components/QuizDisplay.tsx:230 | a leading run becomes one `_` |
| FileNames.SafeFileNamePartIdempotent | components/QuizDisplay.tsx:230 | cleaning a cleaned name changes nothing |
| QuizExport.PartitionCounts | components/QuizDisplay.tsx:338-339 | the multiple-choice and essay lists together are a permutation of the questions |
| QuizExport.PartitionKinds | components/QuizDisplay.tsx:441-442 | the first list holds no essay, the second only essays |
| QuizExport.ExamNumbering | components/QuizDisplay.tsx:385-405 | every question appears once, numbered 1, 2, … without a gap, multiple-choice questions before essays |
| QuizExport.QuizWordFollowsExamOrder | components/QuizDisplay.tsx:384-428 | the Word test, its key (one column per multiple-choice question, with its number and answer) and its guide follow the shared numbering |
| QuizExport.LinesOfSnoc | components/QuizDisplay.tsx:466 | one more question appends its text |
| QuizExport.AppendLines | components/QuizDisplay.tsx:466-471 | the `forEach` appends each numbered question's text in order |
| QuizExport.BuildLatex | components/QuizDisplay.tsx:440-500 | the LaTeX source is the header template followed by the written steps |
| QuizExport.WriteLatex | components/QuizDisplay.tsx:466-500 | the `tex +=` steps write the questions, the key table and the guide |
| QuizExport.LinesOfAppend | components/QuizDisplay.tsx:466-480 | the texts of two lists follow each other |
| QuizExport.LatexFollowsExamOrder | components/QuizDisplay.tsx:466-480 | the LaTeX questions come in the shared order under the shared numbers |
| QuizExport.JoinLetters | components/QuizDisplay.tsx:487 | joining `m` letters `c` with `\|` |
| QuizExport.ColumnSpecColumns | components/QuizDisplay.tsx:487 | the `tabular` has `m + 1` centred columns |
| QuizExport.KeyTablesAgree | components/QuizDisplay.tsx:486-491 | the LaTeX key table is present exactly when the Word key is, and is written from the same key |
| WordTables.MatrixCellRoundTrip | components/QuizDisplay.tsx:268 | a cell is empty exactly when the count is 0, and otherwise reads back as the count |
| WordTables.MatrixWordRowsFaithful | components/QuizDisplay.tsx:261-272 | one row per matrix row, numbered `idx + 1`, with its names and twelve cells |
| WordTables.TotalColumnIsSumCells | components/QuizDisplay.tsx:262 | the row totals add up to the sum of all cells |
| WordTables.MatrixWordGrandTotal | components/QuizDisplay.tsx:261-272 | the row totals add up to the grand total of the column totals |
| WordTables.SpecWordMatchesScreen | components/QuizDisplay.tsx:313-324 | the Word table has the on-screen rows, with the same outcomes and cells, and the topic or unit wherever the screen opens one |
| Regenerate.ReplaceByIdPositions | components/QuizDisplay.tsx:160 | questions with the id become the new one; the rest keep position; the length stays |
| Regenerate.ReplaceByIdIdempotent | components/QuizDisplay.tsx:160 | applying the same answer twice changes nothing more |
| Regenerate.ReplaceByIdOne | components/QuizDisplay.tsx:160 | with unique ids, exactly the regenerated position changes |
| Regenerate.ReplaceByIdAbsent | components/QuizDisplay.tsx:160 | an id no question carries changes nothing |
| Regenerate.QuizView.constructor | components/QuizDisplay.tsx:135-136 | the view starts with the given questions and no request in flight |
| Regenerate.QuizView.ResetQuestions | components/QuizDisplay.tsx:151-153 | new questions from the parent replace the local ones |
| Regenerate.QuizView.BeginRegenerate | components/QuizDisplay.tsx:156-157 | ignored while busy; otherwise records the id and leaves the questions |
| Regenerate.QuizView.FinishRegenerate | components/QuizDisplay.tsx:158-165 | success replaces by id, failure keeps the questions; the busy flag is cleared |
| Regenerate.QuizView.Regenerate | components/QuizDisplay.tsx:155-166 | nothing happens while busy; otherwise the answer is applied and the view is idle again |
| Regenerate.OneAtATime | components/QuizDisplay.tsx:155-166 | a second click during a request does nothing, and the first answer lands on its own question |
| Workflow.NonEmptyRowsMembers | components/MatrixWorkflow.tsx:38-43 | the filter keeps exactly the rows with non-blank trimmed names and a positive cell, and is empty exactly when none qualifies |
| Workflow.SubmittableLeavesRows | components/MatrixWorkflow.tsx:38-45 | a submittable matrix with non-blank names passes the filter with at least one row |
| Workflow.ErrorTextCases | components/MatrixWorkflow.tsx:58-64 | a message containing "entity was not found" gives the key message; any other error gives its own message; a thrown non-error gives the generic message |
| Workflow.GenerateOrder | components/MatrixWorkflow.tsx:29-57 | a run fails or stores questions, never both; questions come only after a specification |
| Workflow.GenerateEmptyMatrix | components/MatrixWorkflow.tsx:45-47 | with no qualifying row, neither service is asked and the empty-matrix error is raised |
| Workflow.MatrixWorkflow.constructor | components/MatrixWorkflow.tsx:12-24 | the initial state values |
| Workflow.MatrixWorkflow.GenerateFullQuiz | components/MatrixWorkflow.tsx:26-68 | stores the run's results, sets the error text from the failure, moves to step 3 only on success, clears loading, and reports whether the key dialog reopens |
| Workflow.MatrixWorkflow.BeginGenerate | components/MatrixWorkflow.tsx:27-28 | while a run is out the view is in the loading state with no error, and nothing else changes |
| Workflow.MatrixWorkflow.FinishGenerate | components/MatrixWorkflow.tsx:29-67 | once the services answer: the results are stored, a failure sets the error text, step 3 is reached only on success, and the loading state is left |
| Workflow.MatrixWorkflow.RunSteps | components/MatrixWorkflow.tsx:29-57 | the `try` block stores what the run produced and reports its failure |
| Workflow.MatrixWorkflow.StepClick | components/MatrixWorkflow.tsx:70-74 | step 3 is refused while there are no questions; any other step is taken |
| Workflow.MatrixWorkflow.ClassChange | components/MatrixWorkflow.tsx:76-81 | a new grade is stored and the matrix, questions and specification are emptied |
| Workflow.MatrixWorkflow.SubjectChange | components/MatrixWorkflow.tsx:83-88 | a new subject is stored and the matrix, questions and specification are emptied |
| Workflow.ChangeThenStep | components/MatrixWorkflow.tsx:70-81 | after a change of grade, the quiz step is out of reach |

## Findings

| source | as written | input that shows it | evidently intended | confidence | as-written member | corrected member |
|---|---|---|---|---|---|---|
| components/SpecificationDisplay.tsx:77 | names are wrapped in `"` without doubling the quotes inside them | a topic named `a"b` | quote the field in the style of RFC 4180 section 2, doubling inner quotes, so that every line reads back | medium, not executed | SpecCsv.UnescapedQuoteBreaksLine | SpecCsv.LineRoundTrip |

The as-written line is `SpecCsv.LineAsWritten`. The rest of the model
(`SpecCsv.ExportCsv`, `SpecCsv.CsvRoundTrip`) uses the corrected `SpecCsv.Line`.

## Left out

- The KaTeX renderer is a parameter returning `Option`. The HTML it
  produces and the MathML clean-up of its output are not modelled
  (components/QuizDisplay.tsx:62, 192-209).
- Canvas figures and their `toDataURL` snapshots are left out. A figure
  is a `snapshot` parameter, or empty text.
- Blob creation, object URLs and link clicks are left out, and so is the
  fixed HTML, CSS and LaTeX boilerplate around the modelled parts. The Word
  tables' header rows are fixed text and are not modelled.
- `parseFloat((x * 10).toFixed(2))` is not modelled. Weights are whole
  hundredths, so the percentage is an exact integer and no float rounding
  happens.
- Key order follows insertion order. JavaScript lists integer-like object
  keys (such as "12") first, in numeric order; the model does not.
- Names that are properties every plain object inherits are not modelled:
  `constructor`, `toString`, `valueOf`, `hasOwnProperty`, `__proto__` and
  the like. In the code, `if (!grouped[name]) grouped[name] = {}`
  (components/SpecificationDisplay.tsx:31-35, components/QuizDisplay.tsx:171-175)
  finds the inherited value truthy for such a topic, unit or outcome. No own
  key is created, and `Object.entries` never lists it, and for `__proto__`
  the assignment changes the object's prototype instead. `Assoc.Put`,
  `Grouping.GroupQuantity` and the table and export lemmas built on them
  state that every name is stored and listed. They therefore describe the
  code only for names that are not inherited properties.
- The key-selection dialog is a parameter, `keyCheck`. The specification
  and quiz services are parameters too: total functions returning a result
  or a failure. Reopening the dialog after a key error is a returned flag.
  The `alert` on a failed regeneration is not modelled.
- The timing of async updates is not modelled, apart from the busy flag.
  Each handler runs to completion.
- The new row's id (a timestamp plus a random number) is a parameter.
- `getOutcomeOptions` is not modelled: it reads the curriculum data, which
  is not part of this model.
- In the LaTeX export, `replace(/\$/g, '$')` replaces each `$` with itself,
  so it is modelled as the identity.
- The rest of the repository is not part of this model: the
  similar-exercises workflow, the stepper, the quiz form, the general
  information form and the theme.
- Regenerate.QuizView.Busy: the model treats an empty id as not busy
  (JavaScript truthiness). It does not model what happens when such
  requests overlap.
- Workflow.MessageOf: a thrown value that is not an `Error` is modelled
  with an optional message string. Other kinds of `message` property are
  not modelled.
