/** The three-step workflow (MatrixWorkflow): general information, the
    matrix, then the generated quiz. Generating keeps only the matrix rows
    that name a topic and a unit and ask for at least one question, asks the
    specification service for a specification of those rows, stores it,
    asks the quiz service for questions from that specification, stores
    them and moves to step 3. Any failure on the way ends up as one
    message in `error`. The key check and the two services are outside the
    model: their answers are parameters. */
module Workflow {
  import opened Wrappers
  import opened Seqs
  import opened Catalog
  import opened Text
  import opened Matrix
  import opened Grouping
  import opened QuizExport

  // ---- the rows sent to the services ----

  /** A row worth generating from: its topic and unit are not blank once
      trimmed, and some type and level asks for a positive count. */
  predicate Kept(r: Row)
  {
    Trim(r.topic) != [] && Trim(r.knowledgeUnit) != [] && HasPositiveCell(r.counts)
  }

  /** `matrix.filter(...)`: the kept rows, in matrix order. */
  function NonEmptyRows(matrix: seq<Row>): seq<Row>
  {
    Filter(matrix, Kept)
  }

  /** The filter keeps exactly the rows that qualify, and an all-blank or
      all-zero matrix leaves nothing. */
  lemma NonEmptyRowsMembers(matrix: seq<Row>)
    ensures forall r :: r in NonEmptyRows(matrix) <==> r in matrix && Kept(r)
    ensures NonEmptyRows(matrix) == [] <==> forall i :: 0 <= i < |matrix| ==> !Kept(matrix[i])
  {
    FilterMembers(matrix, Kept);
    var rows := NonEmptyRows(matrix);
    if rows != [] {
      assert rows[0] in rows;
      var i :| 0 <= i < |matrix| && matrix[i] == rows[0];
      assert Kept(matrix[i]);
    }
    if exists i :: 0 <= i < |matrix| && Kept(matrix[i]) {
      var i :| 0 <= i < |matrix| && Kept(matrix[i]);
      assert matrix[i] in rows;
    }
  }

  /** A matrix the editor lets through (a row and a positive grand total),
      whose rows all name a non-blank topic and unit, always leaves a row
      for the services. */
  lemma SubmittableLeavesRows(matrix: seq<Row>)
    requires Submittable(matrix)
    requires forall i :: 0 <= i < |matrix| ==> Trim(matrix[i].topic) != [] && Trim(matrix[i].knowledgeUnit) != []
    ensures NonEmptyRows(matrix) != []
  {
    SubmittableIffPositiveCell(matrix);
    var i :| 0 <= i < |matrix| && HasPositiveCell(matrix[i].counts);
    assert Kept(matrix[i]);
    NonEmptyRowsMembers(matrix);
  }

  // ---- failures and their messages ----

  const EmptyMatrixMessage: string := "Ma trận không hợp lệ. Vui lòng thêm ít nhất một nội dung và câu hỏi."
  const KeyMessage: string := "API Key không hợp lệ hoặc không có quyền truy cập. Vui lòng kết nối lại."
  const GenericMessage: string := "Đã có lỗi xảy ra trong quá trình tạo đề."
  const KeyPhrase: string := "entity was not found"

  /** What a step can throw: an `Error`, which always has a message, or any
      other value, which may carry a string `message` property. */
  datatype Failure = ErrorObject(message: string) | OtherThrown(text: Option<string>)

  function MessageOf(f: Failure): Option<string>
  {
    match f
    case ErrorObject(m) => Some(m)
    case OtherThrown(t) => t
  }

  /** `err.message?.includes("entity was not found")`: the key is rejected,
      and the key selection dialog is opened again. */
  predicate NeedsNewKey(f: Failure)
  {
    MessageOf(f).Some? && Contains(MessageOf(f).value, KeyPhrase)
  }

  /** The text put in `error`. */
  function ErrorText(f: Failure): string
  {
    if NeedsNewKey(f) then KeyMessage
    else if f.ErrorObject? then f.message
    else GenericMessage
  }

  /** The three outcomes of the `catch`, each with its condition. */
  lemma ErrorTextCases(f: Failure)
    ensures NeedsNewKey(f) ==> ErrorText(f) == KeyMessage
    ensures !NeedsNewKey(f) && f.ErrorObject? ==> ErrorText(f) == f.message
    ensures !NeedsNewKey(f) && f.OtherThrown? ==> ErrorText(f) == GenericMessage
    ensures ErrorText(f) == GenericMessage || ErrorText(f) == KeyMessage || ErrorText(f) == MessageOf(f).value
  {
  }

  // ---- one run of handleGenerateFullQuiz ----

  /** What a run produces: the specification it stored (if it got that
      far), the questions it stored (if it got that far) and the failure
      that stopped it (if any). */
  datatype Outcome = Outcome(spec: Option<seq<SpecItem>>, questions: Option<seq<Question>>, failure: Option<Failure>)

  /** The steps of the `try` block, in order, each stopping the run when
      it fails. `keyCheck` is what the API key check threw, if anything. */
  function Generate(matrix: seq<Row>, grade: string, subject: string, keyCheck: Option<Failure>,
                    specService: (seq<Row>, string, string) -> Result<seq<SpecItem>, Failure>,
                    quizService: (seq<SpecItem>, string, string) -> Result<seq<Question>, Failure>): Outcome
  {
    if keyCheck.Some? then Outcome(None, None, keyCheck)
    else
      var rows := NonEmptyRows(matrix);
      if |rows| == 0 then Outcome(None, None, Some(ErrorObject(EmptyMatrixMessage)))
      else
        match specService(rows, grade, subject)
        case Err(e) => Outcome(None, None, Some(e))
        case Ok(spec) =>
          match quizService(spec, grade, subject)
          case Err(e) => Outcome(Some(spec), None, Some(e))
          case Ok(qs) => Outcome(Some(spec), Some(qs), None)
  }

  /** A run either fails or stores questions, never both; questions are
      only ever stored after a specification; the specification is the
      service's answer for the kept rows, and the questions are the
      service's answer for that very specification. */
  lemma GenerateOrder(matrix: seq<Row>, grade: string, subject: string, keyCheck: Option<Failure>,
                      specService: (seq<Row>, string, string) -> Result<seq<SpecItem>, Failure>,
                      quizService: (seq<SpecItem>, string, string) -> Result<seq<Question>, Failure>)
    ensures var o := Generate(matrix, grade, subject, keyCheck, specService, quizService);
      && (o.failure.None? <==> o.questions.Some?)
      && (o.questions.Some? ==> o.spec.Some?)
      && (o.spec.Some? ==> keyCheck.None? && NonEmptyRows(matrix) != []
                           && specService(NonEmptyRows(matrix), grade, subject) == Ok(o.spec.value))
      && (o.questions.Some? ==> quizService(o.spec.value, grade, subject) == Ok(o.questions.value))
      && (o.spec.Some? && o.failure.Some? ==> quizService(o.spec.value, grade, subject) == Err(o.failure.value))
  {
  }

  /** Without a row to generate from, neither service is asked, nothing
      is stored and the run fails with the workflow's own error. */
  lemma GenerateEmptyMatrix(matrix: seq<Row>, grade: string, subject: string,
                            specService: (seq<Row>, string, string) -> Result<seq<SpecItem>, Failure>,
                            quizService: (seq<SpecItem>, string, string) -> Result<seq<Question>, Failure>)
    requires forall i :: 0 <= i < |matrix| ==> !Kept(matrix[i])
    ensures var o := Generate(matrix, grade, subject, None, specService, quizService);
      o == Outcome(None, None, Some(ErrorObject(EmptyMatrixMessage)))
  {
    NonEmptyRowsMembers(matrix);
  }

  // ---- the component's state ----

  class MatrixWorkflow {
    var currentStep: int
    var matrix: seq<Row>
    var specification: seq<SpecItem>
    var questions: seq<Question>
    var isLoading: bool
    var error: Option<string>
    var selectedClass: string
    var selectedSubject: string
    var quizTitle: string
    var quizDuration: string

    /** The initial `useState` values. */
    constructor ()
      ensures currentStep == 1 && matrix == [] && specification == [] && questions == []
      ensures !isLoading && error == None
      ensures selectedClass == "6" && selectedSubject == "Toán"
      ensures quizTitle == "Kiểm tra giữa kỳ I" && quizDuration == "90"
    {
      currentStep := 1;
      matrix := [];
      specification := [];
      questions := [];
      isLoading := false;
      error := None;
      selectedClass := "6";
      selectedSubject := "Toán";
      quizTitle := "Kiểm tra giữa kỳ I";
      quizDuration := "90";
    }

    /** handleGenerateFullQuiz, run to completion: the loading state is
        entered, the steps run, and it is left again. Returns whether the
        key selection dialog is opened again. */
    method GenerateFullQuiz(keyCheck: Option<Failure>,
                            specService: (seq<Row>, string, string) -> Result<seq<SpecItem>, Failure>,
                            quizService: (seq<SpecItem>, string, string) -> Result<seq<Question>, Failure>)
      returns (reopenKeyDialog: bool)
      modifies this
      ensures var o := Generate(old(matrix), old(selectedClass), old(selectedSubject), keyCheck, specService, quizService);
        && specification == (if o.spec.Some? then o.spec.value else old(specification))
        && questions == (if o.questions.Some? then o.questions.value else old(questions))
        && currentStep == (if o.questions.Some? then 3 else old(currentStep))
        && error == (if o.failure.Some? then Some(ErrorText(o.failure.value)) else None)
        && reopenKeyDialog == (o.failure.Some? && NeedsNewKey(o.failure.value))
      ensures !isLoading
      ensures matrix == old(matrix) && selectedClass == old(selectedClass) && selectedSubject == old(selectedSubject)
      ensures quizTitle == old(quizTitle) && quizDuration == old(quizDuration)
    {
      BeginGenerate();
      reopenKeyDialog := FinishGenerate(keyCheck, specService, quizService);
    }

    /** The handler's first two statements: while the request is out the
        view shows the loading state and no error. */
    method BeginGenerate()
      modifies this
      ensures isLoading && error == None
      ensures currentStep == old(currentStep) && matrix == old(matrix)
      ensures specification == old(specification) && questions == old(questions)
      ensures selectedClass == old(selectedClass) && selectedSubject == old(selectedSubject)
      ensures quizTitle == old(quizTitle) && quizDuration == old(quizDuration)
    {
      isLoading := true;
      error := None;
    }

    /** The rest of the handler once the services have answered: the `try`
        block, the `catch` that sets the error text, and the `finally` that
        leaves the loading state. */
    method FinishGenerate(keyCheck: Option<Failure>,
                          specService: (seq<Row>, string, string) -> Result<seq<SpecItem>, Failure>,
                          quizService: (seq<SpecItem>, string, string) -> Result<seq<Question>, Failure>)
      returns (reopenKeyDialog: bool)
      modifies this
      ensures var o := Generate(old(matrix), old(selectedClass), old(selectedSubject), keyCheck, specService, quizService);
        && specification == (if o.spec.Some? then o.spec.value else old(specification))
        && questions == (if o.questions.Some? then o.questions.value else old(questions))
        && currentStep == (if o.questions.Some? then 3 else old(currentStep))
        && error == (if o.failure.Some? then Some(ErrorText(o.failure.value)) else old(error))
        && reopenKeyDialog == (o.failure.Some? && NeedsNewKey(o.failure.value))
      ensures !isLoading
      ensures matrix == old(matrix) && selectedClass == old(selectedClass) && selectedSubject == old(selectedSubject)
      ensures quizTitle == old(quizTitle) && quizDuration == old(quizDuration)
    {
      var failure := RunSteps(keyCheck, specService, quizService);
      reopenKeyDialog := false;
      if failure.Some? {
        error := Some(ErrorText(failure.value));
        reopenKeyDialog := NeedsNewKey(failure.value);
      }
      isLoading := false;
    }

    /** The `try` block: each step runs only if the previous one succeeded,
        and the specification is stored as soon as it arrives, so a failing
        quiz service leaves the new specification next to the old
        questions. Returns what was thrown, if anything. */
    method RunSteps(keyCheck: Option<Failure>,
                    specService: (seq<Row>, string, string) -> Result<seq<SpecItem>, Failure>,
                    quizService: (seq<SpecItem>, string, string) -> Result<seq<Question>, Failure>)
      returns (failure: Option<Failure>)
      modifies this
      ensures var o := Generate(old(matrix), old(selectedClass), old(selectedSubject), keyCheck, specService, quizService);
        && specification == (if o.spec.Some? then o.spec.value else old(specification))
        && questions == (if o.questions.Some? then o.questions.value else old(questions))
        && currentStep == (if o.questions.Some? then 3 else old(currentStep))
        && failure == o.failure
      ensures error == old(error) && isLoading == old(isLoading)
      ensures matrix == old(matrix) && selectedClass == old(selectedClass) && selectedSubject == old(selectedSubject)
      ensures quizTitle == old(quizTitle) && quizDuration == old(quizDuration)
    {
      if keyCheck.Some? {
        return keyCheck;
      }
      var nonEmptyRows := NonEmptyRows(matrix);
      if |nonEmptyRows| == 0 {
        return Some(ErrorObject(EmptyMatrixMessage));
      }
      var spec := specService(nonEmptyRows, selectedClass, selectedSubject);
      if spec.Err? {
        return Some(spec.error);
      }
      specification := spec.value;
      var generated := quizService(spec.value, selectedClass, selectedSubject);
      if generated.Err? {
        return Some(generated.error);
      }
      questions := generated.value;
      currentStep := 3;
      return None;
    }

    /** handleStepClick: the quiz step cannot be reached without
        questions; any other step is taken as asked. */
    method StepClick(stepIndex: int)
      modifies this
      ensures stepIndex == 3 && |old(questions)| == 0 ==> currentStep == old(currentStep)
      ensures !(stepIndex == 3 && |old(questions)| == 0) ==> currentStep == stepIndex
      ensures questions == old(questions) && matrix == old(matrix) && specification == old(specification)
      ensures error == old(error) && isLoading == old(isLoading)
      ensures selectedClass == old(selectedClass) && selectedSubject == old(selectedSubject)
      ensures quizTitle == old(quizTitle) && quizDuration == old(quizDuration)
    {
      if stepIndex == 3 && |questions| == 0 {
        return;
      }
      currentStep := stepIndex;
    }

    /** handleClassChange: a new grade discards the matrix and everything
        generated from it. */
    method ClassChange(newClass: string)
      modifies this
      ensures selectedClass == newClass
      ensures matrix == [] && questions == [] && specification == []
      ensures currentStep == old(currentStep) && error == old(error) && isLoading == old(isLoading)
      ensures selectedSubject == old(selectedSubject)
      ensures quizTitle == old(quizTitle) && quizDuration == old(quizDuration)
    {
      selectedClass := newClass;
      matrix := [];
      questions := [];
      specification := [];
    }

    /** handleSubjectChange: a new subject discards the matrix and
        everything generated from it. */
    method SubjectChange(newSubject: string)
      modifies this
      ensures selectedSubject == newSubject
      ensures matrix == [] && questions == [] && specification == []
      ensures currentStep == old(currentStep) && error == old(error) && isLoading == old(isLoading)
      ensures selectedClass == old(selectedClass)
      ensures quizTitle == old(quizTitle) && quizDuration == old(quizDuration)
    {
      selectedSubject := newSubject;
      matrix := [];
      questions := [];
      specification := [];
    }
  }

  /** After a change of grade or subject the quiz step is out of reach
      until a new quiz is generated. */
  method ChangeThenStep(w: MatrixWorkflow, newClass: string)
    modifies w
    ensures w.questions == [] && w.currentStep == old(w.currentStep)
  {
    w.ClassChange(newClass);
    w.StepClick(3);
  }
}
