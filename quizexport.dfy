/** The quiz exports of the quiz view: the Word document
    (handleDownloadQuizWord) and the LaTeX source (handleDownloadLatex).
    Both split the questions into multiple-choice and essay questions,
    keeping each group in its original order, number the multiple-choice
    questions from 1 and the essays on from there, and write an answer key
    with one column per multiple-choice question. The Word document is
    modelled by its structure (numbered entries, the key table, the
    marking guide); the LaTeX source is modelled as the text the `tex +=`
    loops build. */
module QuizExport {
  import opened Wrappers
  import opened Seqs
  import opened Text
  import opened MathText

  datatype Question = Question(id: string, loaiCauHoi: string, cauHoi: string, dapAn: string,
                               huongDanChamDiem: string, drawingCode: string)

  /** The test header typed in by the teacher. */
  datatype HeaderInfo = HeaderInfo(tenTruong: string, kyKiemTra: string, namHoc: string, monHoc: string,
                                   thoiGian: string, maDe: string)

  /** The type name that marks an essay question. */
  const EssayType: string := "Tự luận"

  predicate IsEssay(q: Question)
  {
    q.loaiCauHoi == EssayType
  }

  predicate IsMcq(q: Question)
  {
    q.loaiCauHoi != EssayType
  }

  /** `questions.filter(q => q.loaiCauHoi !== 'Tự luận')`. */
  function Mcq(questions: seq<Question>): seq<Question>
  {
    Filter(questions, IsMcq)
  }

  /** `questions.filter(q => q.loaiCauHoi === 'Tự luận')`. */
  function Essays(questions: seq<Question>): seq<Question>
  {
    Filter(questions, IsEssay)
  }

  // ---- numbering ----

  datatype Numbered = Numbered(number: nat, question: Question)

  /** `list.map((q, i) => … start + i + 1 …)`. */
  function NumberFrom(qs: seq<Question>, start: nat): seq<Numbered>
  {
    seq(|qs|, i requires 0 <= i < |qs| => Numbered(start + i + 1, qs[i]))
  }

  /** The order and numbers of the questions in both exports. */
  function ExamOrder(questions: seq<Question>): seq<Numbered>
  {
    var mcq := Mcq(questions);
    NumberFrom(mcq, 0) + NumberFrom(Essays(questions), |mcq|)
  }

  function QuestionsOf(ns: seq<Numbered>): seq<Question>
  {
    seq(|ns|, i requires 0 <= i < |ns| => ns[i].question)
  }

  lemma PartitionCounts(questions: seq<Question>)
    ensures multiset(Mcq(questions) + Essays(questions)) == multiset(questions)
    ensures |Mcq(questions)| + |Essays(questions)| == |questions|
  {
    FilterPartition(questions, IsMcq, IsEssay);
    assert |multiset(Mcq(questions) + Essays(questions))| == |Mcq(questions) + Essays(questions)|;
  }

  lemma PartitionKinds(questions: seq<Question>)
    ensures forall q :: q in Mcq(questions) ==> !IsEssay(q)
    ensures forall q :: q in Essays(questions) ==> IsEssay(q)
  {
    FilterMembers(questions, IsMcq);
    FilterMembers(questions, IsEssay);
  }

  /** Every question appears exactly once, numbered 1, 2, … without a gap,
      the multiple-choice questions before the essays. */
  lemma ExamNumbering(questions: seq<Question>)
    ensures var ns := ExamOrder(questions);
      && |ns| == |questions|
      && (forall i :: 0 <= i < |ns| ==> ns[i].number == i + 1)
      && multiset(QuestionsOf(ns)) == multiset(questions)
      && (forall i :: 0 <= i < |ns| ==> (IsEssay(ns[i].question) <==> i >= |Mcq(questions)|))
  {
    var mcq, essays := Mcq(questions), Essays(questions);
    var ns := ExamOrder(questions);
    PartitionCounts(questions);
    PartitionKinds(questions);
    assert QuestionsOf(ns) == mcq + essays;
    forall i | 0 <= i < |ns| ensures IsEssay(ns[i].question) <==> i >= |mcq| {
      if i < |mcq| {
        assert ns[i].question == mcq[i];
      } else {
        assert ns[i].question == essays[i - |mcq|];
      }
    }
  }

  // ---- the Word document ----

  /** A question of the test: its number, its text prepared for Word, and
      the snapshot of its figure (empty when it has none). */
  datatype ExamEntry = ExamEntry(number: nat, text: string, image: string)

  /** An essay's entry in the marking guide. */
  datatype GuideEntry = GuideEntry(number: nat, guide: string, image: string, answer: string)

  /** The key table: the row of question numbers and the row of answers. */
  datatype AnswerKey = AnswerKey(numbers: seq<string>, answers: seq<string>)

  datatype WordQuiz = WordQuiz(partOne: seq<ExamEntry>, partTwo: Option<seq<ExamEntry>>,
                               key: Option<AnswerKey>, guide: Option<seq<GuideEntry>>)

  /** The figure of a question with drawing code: what `snapshot` (the
      canvas as a data URL, or empty) gives for its id. */
  function Image(q: Question, snapshot: string -> string): string
  {
    if q.drawingCode != "" then snapshot(q.id) else ""
  }

  function ExamEntries(ns: seq<Numbered>, mathml: (string, bool) -> Option<string>, snapshot: string -> string): seq<ExamEntry>
  {
    seq(|ns|, i requires 0 <= i < |ns| =>
      ExamEntry(ns[i].number, FormatForWord(ns[i].question.cauHoi, mathml), Image(ns[i].question, snapshot)))
  }

  function GuideEntries(ns: seq<Numbered>, mathml: (string, bool) -> Option<string>, snapshot: string -> string): seq<GuideEntry>
  {
    seq(|ns|, i requires 0 <= i < |ns| =>
      GuideEntry(ns[i].number, FormatForWord(ns[i].question.huongDanChamDiem, mathml),
                 Image(ns[i].question, snapshot), FormatForWord(ns[i].question.dapAn, mathml)))
  }

  /** The numbers `1..m` and the answers of the multiple-choice questions. */
  function KeyOf(mcq: seq<Question>): AnswerKey
  {
    AnswerKey(seq(|mcq|, i requires 0 <= i < |mcq| => IntToString(i + 1)),
              seq(|mcq|, i requires 0 <= i < |mcq| => mcq[i].dapAn))
  }

  /** handleDownloadQuizWord: part II, the key table and the marking guide
      are written only when there is something to put in them. */
  function QuizWord(questions: seq<Question>, mathml: (string, bool) -> Option<string>, snapshot: string -> string): WordQuiz
  {
    var mcq, essays := Mcq(questions), Essays(questions);
    WordQuiz(
      ExamEntries(NumberFrom(mcq, 0), mathml, snapshot),
      if |essays| > 0 then Some(ExamEntries(NumberFrom(essays, |mcq|), mathml, snapshot)) else None,
      if |mcq| > 0 then Some(KeyOf(mcq)) else None,
      if |essays| > 0 then Some(GuideEntries(NumberFrom(essays, |mcq|), mathml, snapshot)) else None)
  }

  /** The Word test lists the questions in the shared order with the
      shared numbers; its key has a column for each multiple-choice
      question, headed by that question's number and holding its answer;
      the guide lists the essays under the numbers they have in the test. */
  lemma QuizWordFollowsExamOrder(questions: seq<Question>, mathml: (string, bool) -> Option<string>, snapshot: string -> string)
    ensures var w := QuizWord(questions, mathml, snapshot);
      var ns := ExamOrder(questions);
      var m := |Mcq(questions)|;
      && w.partOne + w.partTwo.GetOr([]) == ExamEntries(ns, mathml, snapshot)
      && (w.partTwo.Some? <==> |Essays(questions)| > 0)
      && (w.key.Some? <==> m > 0)
      && (w.key.Some? ==>
            |w.key.value.numbers| == |w.key.value.answers| == m
            && forall i :: 0 <= i < m ==>
                 ParseInt(w.key.value.numbers[i]) == ns[i].number && w.key.value.answers[i] == ns[i].question.dapAn)
      && (w.guide.Some? ==> forall i :: 0 <= i < |w.guide.value| ==> w.guide.value[i].number == ns[m + i].number)
  {
    var mcq, essays := Mcq(questions), Essays(questions);
    var ns := ExamOrder(questions);
    var w := QuizWord(questions, mathml, snapshot);
    assert w.partOne + w.partTwo.GetOr([]) == ExamEntries(ns, mathml, snapshot);
    if |mcq| > 0 {
      forall i | 0 <= i < |mcq| ensures ParseInt(w.key.value.numbers[i]) == ns[i].number {
        IntToStringRoundTrip(i + 1);
      }
    }
  }

  // ---- the LaTeX source ----

  function Preamble(h: HeaderInfo): string
  {
    "\\documentclass[12pt]{article}\n"
    + "\\usepackage[utf8]{inputenc}\n"
    + "\\usepackage[vietnamese]{babel}\n"
    + "\\usepackage{amsmath, amssymb, amsfonts}\n"
    + "\\usepackage{geometry}\n"
    + "\\usepackage{graphicx}\n"
    + "\\geometry{a4paper, margin=2cm}\n"
    + "\n"
    + "\\begin{document}\n"
    + "\\section*{ĐỀ KIỂM TRA}\n"
    + "\\noindent\n"
    + "\\begin{center}\n"
    + "\\textbf{" + h.tenTruong + "} \\\\\n"
    + "\\textbf{" + h.kyKiemTra + "} \\\\\n"
    + "\\textbf{Năm học: " + h.namHoc + "} \\\\\n"
    + "\\textbf{Môn: " + h.monHoc + "} \\\\\n"
    + "\\textbf{Thời gian: " + h.thoiGian + "} \\\\\n"
    + "\\textbf{MÃ ĐỀ: " + h.maDe + "}\n"
    + "\\end{center}\n"
    + "\n"
    + "\\section*{PHẦN I. TRẮC NGHIỆM}\n"
  }

  const PartTwoTitle: string := "\\section*{PHẦN II. TỰ LUẬN}\n"
  const KeyTitle: string := "\\newpage\n\\section*{ĐÁP ÁN VÀ HƯỚNG DẪN CHẤM}\n"
  const GuideTitle: string := "\\subsection*{II. Tự luận}\n"
  const Closing: string := "\\end{document}"

  /** One question of the test, with a placeholder comment for its figure;
      the comment of a multiple-choice question says more than an
      essay's. The question text goes in as it is (`replace(/\$/g, '$')`
      puts back the `$` it takes out). */
  function QuestionText(n: Numbered): string
  {
    var num := IntToString(n.number);
    "\\noindent \\textbf{Câu " + num + ":} " + n.question.cauHoi + "\n\n"
    + if n.question.drawingCode == "" then ""
      else if IsEssay(n.question) then "\\% [Hình vẽ minh họa câu " + num + "]\n\n"
      else "\\% [Hình vẽ minh họa câu " + num + ": Vẽ hình dựa trên dữ liệu bài toán]\n\n"
  }

  /** One essay of the marking guide. */
  function GuideText(n: Numbered): string
  {
    "\\noindent \\textbf{Câu " + IntToString(n.number) + ":}\n\\\\ " + n.question.huongDanChamDiem
    + "\n\\\\ \\textbf{Đáp án:} " + n.question.dapAn + "\n\n"
  }

  /** The texts of the entries, one after another. */
  function LinesOf(ns: seq<Numbered>, text: Numbered -> string): string
  {
    if ns == [] then "" else LinesOf(ns[..|ns| - 1], text) + text(ns[|ns| - 1])
  }

  function QuestionLines(ns: seq<Numbered>): string
  {
    LinesOf(ns, QuestionText)
  }

  function GuideLines(ns: seq<Numbered>): string
  {
    LinesOf(ns, GuideText)
  }

  function Letters(m: nat): seq<string>
  {
    seq(m, _ => "c")
  }

  /** The column specification: a label column and one `c` per question. */
  function ColumnSpec(m: nat): string
  {
    "|c|" + Join(Letters(m), "|") + "|"
  }

  /** The key table, from the same key as the Word document's. */
  function Tabular(key: AnswerKey): string
  {
    "\\subsection*{I. Trắc nghiệm}\n\\begin{tabular}{" + ColumnSpec(|key.numbers|) + "}\n\\hline\n"
    + "Câu & " + Join(key.numbers, " & ") + " \\\\ \\hline\n"
    + "Đáp án & " + Join(key.answers, " & ") + " \\\\ \\hline\n"
    + "\\end{tabular}\n"
  }

  /** Part II of the test, present when there are essays. */
  function PartTwo(questions: seq<Question>): string
  {
    var essays := Essays(questions);
    if |essays| > 0 then PartTwoTitle + QuestionLines(NumberFrom(essays, |Mcq(questions)|)) else ""
  }

  /** The key table, present when there are multiple-choice questions. */
  function KeyTable(questions: seq<Question>): string
  {
    var mcq := Mcq(questions);
    if |mcq| > 0 then Tabular(KeyOf(mcq)) else ""
  }

  /** The marking guide, present when there are essays. */
  function Guide(questions: seq<Question>): string
  {
    var essays := Essays(questions);
    if |essays| > 0 then GuideTitle + GuideLines(NumberFrom(essays, |Mcq(questions)|)) else ""
  }

  /** The LaTeX source from the end of the header template on. */
  function LatexFrom(start: string, questions: seq<Question>): string
  {
    start + QuestionLines(NumberFrom(Mcq(questions), 0)) + PartTwo(questions) + KeyTitle
    + KeyTable(questions) + Guide(questions) + Closing
  }

  /** The whole LaTeX source. */
  function LatexDoc(h: HeaderInfo, questions: seq<Question>): string
  {
    LatexFrom(Preamble(h), questions)
  }

  lemma LinesOfSnoc(ns: seq<Numbered>, i: nat, text: Numbered -> string)
    requires i < |ns|
    ensures LinesOf(ns[..i + 1], text) == LinesOf(ns[..i], text) + text(ns[i])
  {
    assert ns[..i + 1][..i] == ns[..i];
  }

  /** `list.forEach((q, i) => { tex += … })`: the text of each numbered
      entry appended in turn. */
  method AppendLines(tex0: string, ns: seq<Numbered>, text: Numbered -> string) returns (tex: string)
    ensures tex == tex0 + LinesOf(ns, text)
  {
    tex := tex0;
    for i := 0 to |ns|
      invariant tex == tex0 + LinesOf(ns[..i], text)
    {
      LinesOfSnoc(ns, i, text);
      tex := tex + text(ns[i]);
    }
    assert ns[..|ns|] == ns;
  }

  /** handleDownloadLatex: the header template, then the `tex +=` steps. */
  method BuildLatex(h: HeaderInfo, questions: seq<Question>) returns (tex: string)
    ensures tex == LatexDoc(h, questions)
  {
    tex := WriteLatex(Preamble(h), questions);
  }

  /** The `tex +=` steps of handleDownloadLatex, from the text `tex0` of
      the header template on. */
  method WriteLatex(tex0: string, questions: seq<Question>) returns (tex: string)
    ensures tex == LatexFrom(tex0, questions)
  {
    var mcq := Mcq(questions);
    var essays := Essays(questions);
    tex := AppendLines(tex0, NumberFrom(mcq, 0), QuestionText);
    ghost var doc := tex0 + QuestionLines(NumberFrom(mcq, 0));
    if |essays| > 0 {
      var before := tex;
      tex := AppendLines(tex + PartTwoTitle, NumberFrom(essays, |mcq|), QuestionText);
      SeqAssoc(before, PartTwoTitle, QuestionLines(NumberFrom(essays, |mcq|)));
    } else {
      assert tex + PartTwo(questions) == tex;
    }
    doc := doc + PartTwo(questions);
    assert tex == doc;
    tex := tex + KeyTitle;
    doc := doc + KeyTitle;
    assert tex == doc;
    if |mcq| > 0 {
      tex := tex + Tabular(KeyOf(mcq));
    } else {
      assert tex + KeyTable(questions) == tex;
    }
    doc := doc + KeyTable(questions);
    assert tex == doc;
    if |essays| > 0 {
      var before := tex;
      tex := AppendLines(tex + GuideTitle, NumberFrom(essays, |mcq|), GuideText);
      SeqAssoc(before, GuideTitle, GuideLines(NumberFrom(essays, |mcq|)));
    } else {
      assert tex + Guide(questions) == tex;
    }
    doc := doc + Guide(questions);
    assert tex == doc;
    tex := tex + Closing;
    doc := doc + Closing;
  }

  lemma SeqAssoc(a: string, b: string, c: string)
    ensures a + b + c == a + (b + c)
  {
  }

  lemma {:induction false} LinesOfAppend(a: seq<Numbered>, b: seq<Numbered>, text: Numbered -> string)
    ensures LinesOf(a + b, text) == LinesOf(a, text) + LinesOf(b, text)
    decreases |b|
  {
    if b == [] {
      assert a + b == a;
    } else {
      var init := b[..|b| - 1];
      LinesOfAppend(a, init, text);
      assert (a + b)[..|a + b| - 1] == a + init;
    }
  }

  /** The LaTeX test lists the questions in the shared order with the
      shared numbers, the same as the Word test. */
  lemma LatexFollowsExamOrder(questions: seq<Question>)
    ensures QuestionLines(NumberFrom(Mcq(questions), 0)) + QuestionLines(NumberFrom(Essays(questions), |Mcq(questions)|))
            == QuestionLines(ExamOrder(questions))
  {
    LinesOfAppend(NumberFrom(Mcq(questions), 0), NumberFrom(Essays(questions), |Mcq(questions)|), QuestionText);
  }

  lemma {:induction false} RepeatShift(k: nat)
    ensures "c" + Repeat("|c", k) + "|" == Repeat("c|", k + 1)
  {
    if k > 0 {
      RepeatShift(k - 1);
      calc {
        "c" + Repeat("|c", k) + "|";
        "c" + ("|c" + Repeat("|c", k - 1)) + "|";
        "c|" + ("c" + Repeat("|c", k - 1) + "|");
      }
    }
  }

  lemma {:induction false} JoinLetters(m: nat)
    requires m >= 1
    ensures Join(Letters(m), "|") == "c" + Repeat("|c", m - 1)
  {
    if m > 1 {
      JoinLetters(m - 1);
      assert Letters(m)[1..] == Letters(m - 1);
    }
  }

  /** For m questions the table has m + 1 centred columns, each closed by
      a rule: the label column and one per question. */
  lemma ColumnSpecColumns(m: nat)
    requires m >= 1
    ensures ColumnSpec(m) == "|" + Repeat("c|", m + 1)
  {
    JoinLetters(m);
    RepeatShift(m - 1);
  }

  /** The LaTeX source carries a key table exactly when the Word document
      does, and it is written from the same key. */
  lemma KeyTablesAgree(questions: seq<Question>, mathml: (string, bool) -> Option<string>, snapshot: string -> string)
    ensures var w := QuizWord(questions, mathml, snapshot);
      && (KeyTable(questions) == "" <==> w.key.None?)
      && (w.key.Some? ==> KeyTable(questions) == Tabular(w.key.value))
  {
    var w := QuizWord(questions, mathml, snapshot);
    if w.key.Some? {
      assert |Tabular(w.key.value)| > 0;
    }
  }
}
