/**
 * The records of the content and engagement layer (src/types/index.ts).
 * Dates are integers (milliseconds). The optional `_count` of each record is
 * `count`, filled in by the handlers from the store; the optional relations
 * (`user`, `group`, `questions`, `answers`, `likes`) are not part of the model.
 */
module Types {
  import opened Wrappers

  type Id = string

  datatype User = User(id: Id, name: string, email: string, createdAt: int, updatedAt: int)

  /** A group's `_count` carries only its number of questions. */
  datatype GroupCount = GroupCount(questions: int)

  /** A question's `_count` carries its likes and its answers. */
  datatype QuestionCount = QuestionCount(likes: int, answers: int)

  /** An answer's `_count` carries only its likes. */
  datatype AnswerCount = AnswerCount(likes: int)

  datatype Group = Group(
    id: Id, name: string, description: Option<string>, createdBy: Id,
    createdAt: int, updatedAt: int, count: Option<GroupCount>)

  datatype Question = Question(
    id: Id, text: string, groupId: Id, createdBy: Id,
    createdAt: int, updatedAt: int, count: Option<QuestionCount>)

  /** Both `text` and `audioUrl` are optional here; only the answers route demands one of them. */
  datatype Answer = Answer(
    id: Id, text: Option<string>, audioUrl: Option<string>, questionId: Id, createdBy: Id,
    createdAt: int, updatedAt: int, count: Option<AnswerCount>)

  /** The kind of content a like refers to: exactly one of two. */
  datatype LikeType = QUESTION | ANSWER

  /** `refId` is a question id when `likeType` is QUESTION and an answer id when it is ANSWER. */
  datatype Like = Like(id: Id, likeType: LikeType, refId: Id, userId: Id, createdAt: int)

  /**
   * Request bodies. A required field that the JSON body leaves out is the
   * empty string here: every handler treats `undefined` and `""` alike.
   */
  datatype CreateGroupData = CreateGroupData(name: string, description: Option<string>)

  datatype CreateQuestionData = CreateQuestionData(text: string, groupId: Id)

  datatype CreateAnswerData = CreateAnswerData(text: Option<string>, audioUrl: Option<string>, questionId: Id)

  /** Query parameters of the question list; `sortBy` is any string the URL carries. */
  datatype SearchParams = SearchParams(query: Option<string>, groupId: Option<Id>, sortBy: Option<string>)

  /** The wire name of a like type. */
  function LikeTypeName(t: LikeType): string {
    match t
    case QUESTION => "QUESTION"
    case ANSWER => "ANSWER"
  }

  /** The store's reading of a `type` string: only the two enum names are like types. */
  function ParseLikeType(s: string): (r: Option<LikeType>)
    ensures r.Some? <==> (s == "QUESTION" || s == "ANSWER")
    ensures r.Some? ==> LikeTypeName(r.value) == s
  {
    if s == "QUESTION" then Some(QUESTION)
    else if s == "ANSWER" then Some(ANSWER)
    else None
  }

  /** Naming a like type and reading it back gives the same type. */
  lemma LikeTypeRoundTrip(t: LikeType)
    ensures ParseLikeType(LikeTypeName(t)) == Some(t)
  {
  }

  /** The like's reference denotes existing content of the kind its type says. */
  function RefersToContent(l: Like, questions: seq<Question>, answers: seq<Answer>): (r: bool)
    ensures l.likeType == QUESTION ==> (r <==> exists q :: q in questions && q.id == l.refId)
    ensures l.likeType == ANSWER ==> (r <==> exists a :: a in answers && a.id == l.refId)
  {
    match l.likeType
    case QUESTION => exists q :: q in questions && q.id == l.refId
    case ANSWER => exists a :: a in answers && a.id == l.refId
  }
}
