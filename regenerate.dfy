/** Regenerating one question of the displayed quiz
    (handleRegenerateQuestion). The view keeps its own copy of the
    questions and one `regeneratingId` for the whole quiz: while it holds a
    truthy id, every further request is ignored. The service call itself is
    outside the model; its outcome is a parameter, `Some(newQuestion)` when
    it answered and `None` when it threw. */
module Regenerate {
  import opened Wrappers
  import opened QuizExport

  /** `prev.map(item => item.id === id ? newQuestion : item)`. */
  function ReplaceById(qs: seq<Question>, id: string, nq: Question): (r: seq<Question>)
  {
    seq(|qs|, i requires 0 <= i < |qs| => if qs[i].id == id then nq else qs[i])
  }

  /** Every question carrying `id` becomes `nq`, every other question stays
      where it was, and nothing is added or dropped. */
  lemma ReplaceByIdPositions(qs: seq<Question>, id: string, nq: Question)
    ensures |ReplaceById(qs, id, nq)| == |qs|
    ensures forall i :: 0 <= i < |qs| && qs[i].id == id ==> ReplaceById(qs, id, nq)[i] == nq
    ensures forall i :: 0 <= i < |qs| && qs[i].id != id ==> ReplaceById(qs, id, nq)[i] == qs[i]
  {
  }

  /** Applying the same answer twice changes nothing more, whether or not
      the new question kept the old id. */
  lemma ReplaceByIdIdempotent(qs: seq<Question>, id: string, nq: Question)
    ensures ReplaceById(ReplaceById(qs, id, nq), id, nq) == ReplaceById(qs, id, nq)
  {
    var once := ReplaceById(qs, id, nq);
    var twice := ReplaceById(once, id, nq);
    forall i | 0 <= i < |qs| ensures twice[i] == once[i] {
      if qs[i].id != id {
        assert once[i] == qs[i];
      }
    }
  }

  /** No two questions share an id. */
  predicate UniqueIds(qs: seq<Question>)
  {
    forall i, j :: 0 <= i < j < |qs| ==> qs[i].id != qs[j].id
  }

  /** With unique ids, regenerating the question at position `j` replaces
      that one question and no other. */
  lemma ReplaceByIdOne(qs: seq<Question>, j: nat, nq: Question)
    requires UniqueIds(qs)
    requires j < |qs|
    ensures ReplaceById(qs, qs[j].id, nq) == qs[j := nq]
  {
    var r := ReplaceById(qs, qs[j].id, nq);
    forall i | 0 <= i < |qs| ensures r[i] == qs[j := nq][i] {
      if i < j {
        assert qs[i].id != qs[j].id;
      } else if j < i {
        assert qs[j].id != qs[i].id;
      }
    }
  }

  /** When no question carries `id`, the map returns the questions as they
      were. */
  lemma ReplaceByIdAbsent(qs: seq<Question>, id: string, nq: Question)
    requires forall i :: 0 <= i < |qs| ==> qs[i].id != id
    ensures ReplaceById(qs, id, nq) == qs
  {
  }

  /** The state of the quiz view that regeneration touches. */
  class QuizView {
    var questions: seq<Question>
    /** `string | null`; `null` is `None`. */
    var regeneratingId: Option<string>

    /** `useState(initialQuestions)` and `useState<string | null>(null)`. */
    constructor(initialQuestions: seq<Question>)
      ensures questions == initialQuestions
      ensures regeneratingId == None
    {
      questions := initialQuestions;
      regeneratingId := None;
    }

    /** `if (regeneratingId)`: JavaScript truthiness, so an empty id does not
        count as busy. */
    predicate Busy()
      reads this
    {
      regeneratingId.Some? && regeneratingId.value != ""
    }

    /** The effect that copies new questions from the parent over the local
        ones. */
    method ResetQuestions(initialQuestions: seq<Question>)
      modifies this
      ensures questions == initialQuestions
      ensures regeneratingId == old(regeneratingId)
    {
      questions := initialQuestions;
    }

    /** The synchronous start of a request: ignored while another one is in
        flight, otherwise the question's id is recorded. The questions are
        not touched. */
    method BeginRegenerate(q: Question) returns (started: bool)
      modifies this
      ensures started <==> !old(Busy())
      ensures started ==> regeneratingId == Some(q.id)
      ensures !started ==> regeneratingId == old(regeneratingId)
      ensures questions == old(questions)
      ensures started && q.id != "" ==> Busy()
    {
      if Busy() {
        return false;
      }
      regeneratingId := Some(q.id);
      return true;
    }

    /** What follows the service's answer for `q`: on success every question
        with `q`'s id becomes the new one, on failure the questions stay
        (the alert is not modelled); either way the busy flag is cleared. */
    method FinishRegenerate(q: Question, answer: Option<Question>)
      modifies this
      ensures answer.Some? ==> questions == ReplaceById(old(questions), q.id, answer.value)
      ensures answer.None? ==> questions == old(questions)
      ensures regeneratingId == None
      ensures !Busy()
    {
      if answer.Some? {
        questions := ReplaceById(questions, q.id, answer.value);
      }
      regeneratingId := None;
    }

    /** The whole handler for one click when nothing else arrives meanwhile:
        nothing happens while busy; otherwise the answer is applied and the
        view is idle again. */
    method Regenerate(q: Question, answer: Option<Question>)
      modifies this
      ensures old(Busy()) ==> questions == old(questions) && regeneratingId == old(regeneratingId)
      ensures !old(Busy()) && answer.Some? ==> questions == ReplaceById(old(questions), q.id, answer.value)
      ensures !old(Busy()) && answer.None? ==> questions == old(questions)
      ensures !old(Busy()) ==> regeneratingId == None
    {
      var started := BeginRegenerate(q);
      if started {
        FinishRegenerate(q, answer);
      }
    }
  }

  /** While one request is in flight, a click on any other question does
      nothing, and the answer to the first request still lands on its own
      question. */
  method OneAtATime(view: QuizView, first: Question, second: Question, answer: Option<Question>)
    modifies view
    requires !view.Busy()
    requires first.id != ""
    ensures answer.Some? ==> view.questions == ReplaceById(old(view.questions), first.id, answer.value)
    ensures answer.None? ==> view.questions == old(view.questions)
    ensures !view.Busy()
  {
    var started := view.BeginRegenerate(first);
    assert started;
    var again := view.BeginRegenerate(second);
    assert !again;
    view.FinishRegenerate(first, answer);
  }
}
