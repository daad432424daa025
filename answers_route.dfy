/**
 * POST /api/answers (src/app/api/answers/route.ts): validate, insert, and
 * answer with the new row and its like count.
 */
module AnswersRoute {
  import opened Wrappers
  import opened Text
  import opened Types
  import opened Http
  import opened Ledger
  import opened Db

  const ContentRequired: string := "Answer text or audio URL is required"
  const QuestionIdRequired: string := "Question ID is required"

  /** The 400 message a body draws, if any: content is checked before `questionId`. */
  function Validate(body: CreateAnswerData): (e: Option<string>)
    ensures e.None? <==> (HasContent(body.text) || Present(body.audioUrl)) && body.questionId != []
    ensures !HasContent(body.text) && !Present(body.audioUrl) ==> e == Some(ContentRequired)
    ensures (HasContent(body.text) || Present(body.audioUrl)) && body.questionId == [] ==> e == Some(QuestionIdRequired)
  {
    if !HasContent(body.text) && !Present(body.audioUrl) then Some(ContentRequired)
    else if body.questionId == [] then Some(QuestionIdRequired)
    else None
  }

  /** An answer carrying only an audio URL passes validation. */
  lemma AudioOnlyAccepted(audioUrl: string, questionId: Id)
    requires audioUrl != [] && questionId != []
    ensures Validate(CreateAnswerData(None, Some(audioUrl), questionId)).None?
  {
  }

  /** Trimming the text keeps whether the answer has content. */
  lemma TrimKeepsContent(text: Option<string>)
    ensures HasContent(TrimOpt(text)) == HasContent(text)
  {
    if text.Some? {
      TrimIdempotent(text.value);
    }
  }

  /** The handler. */
  method Post(db: Store, session: Session, body: CreateAnswerData, id: Id, now: int) returns (r: Response<Answer>)
    requires db.Valid()
    requires FreshAnswerId(db.answers, id)
    modifies db`answers
    ensures db.Valid()
    ensures CallerId(session).None? ==> r == Unauthorized
    ensures CallerId(session).Some? && Validate(body).Some? ==> r == BadRequest(Validate(body).value)
    ensures r.Created? <==> CallerId(session).Some? && Validate(body).None? && QuestionExists(db.questions, body.questionId)
    ensures r.ServerError? <==> CallerId(session).Some? && Validate(body).None? && !QuestionExists(db.questions, body.questionId)
    ensures !r.Created? ==> db.answers == old(db.answers)
    ensures r.Created? ==>
              var row := Answer(id, TrimOpt(body.text), body.audioUrl, body.questionId, CallerId(session).value,
                                now, now, None);
              && db.answers == old(db.answers) + [row]
              && r.body == row.(count := Some(AnswerCount(LikeCount(db.likes, id, ANSWER))))
  {
    var caller := CallerId(session);
    if caller.None? {
      return Unauthorized;
    }
    var invalid := Validate(body);
    if invalid.Some? {
      return BadRequest(invalid.value);
    }
    if !QuestionExists(db.questions, body.questionId) {
      // the store's foreign key refuses an answer to a missing question
      return ServerError;
    }
    var row := Answer(id, TrimOpt(body.text), body.audioUrl, body.questionId, caller.value, now, now, None);
    TrimKeepsContent(body.text);
    db.answers := db.answers + [row];
    var likesCount := LikeCount(db.likes, id, ANSWER);
    return Created(row.(count := Some(AnswerCount(likesCount))));
  }
}
