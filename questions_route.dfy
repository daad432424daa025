/**
 * GET and POST /api/questions (src/app/api/questions/route.ts). GET filters
 * by group and by a case-insensitive substring of the question text, takes the
 * store's newest-first order, adds each question's like and answer counts and,
 * for `sortBy=popular`, stably re-sorts by like count. POST validates, inserts
 * the trimmed text and answers with the new row and its counts.
 */
module QuestionsRoute {
  import opened Wrappers
  import opened Text
  import opened Types
  import opened Http
  import opened Ledger
  import opened Db
  import opened Ordering

  const TextRequired: string := "Question text is required"
  const GroupIdRequired: string := "Group ID is required"

  /** The `whereClause` the handler fills in: each field only for a truthy parameter. */
  datatype Where = Where(groupId: Option<Id>, text: Option<string>)

  function WhereClause(params: SearchParams): (w: Where)
    ensures w.groupId.Some? <==> Present(params.groupId)
    ensures w.text.Some? <==> Present(params.query)
  {
    var w := Where(None, None);
    var w := if Present(params.groupId) then w.(groupId := params.groupId) else w;
    if Present(params.query) then w.(text := params.query) else w
  }

  /** `searchParams.get('sortBy') || 'recent'`. */
  function SortBy(params: SearchParams): (r: string)
    ensures r == "popular" <==> params.sortBy == Some("popular")
    ensures !Present(params.sortBy) ==> r == "recent"
  {
    if Present(params.sortBy) then params.sortBy.value else "recent"
  }

  /** A row satisfies the where clause: same group, and the text contains the query. */
  predicate Matches(q: Question, w: Where) {
    && (w.groupId.Some? ==> q.groupId == w.groupId.value)
    && (w.text.Some? ==> ContainsInsensitive(q.text, w.text.value))
  }

  /** The rows of the table that satisfy the where clause, in table order. */
  function Select(questions: seq<Question>, w: Where): (r: seq<Question>)
    ensures forall q :: q in r <==> q in questions && Matches(q, w)
  {
    if questions == [] then []
    else (if Matches(questions[0], w) then [questions[0]] else []) + Select(questions[1..], w)
  }

  /** Only the group and the question text take part in the search. */
  lemma SearchReadsTextAndGroupOnly(q1: Question, q2: Question, params: SearchParams)
    requires q1.text == q2.text && q1.groupId == q2.groupId
    ensures Matches(q1, WhereClause(params)) == Matches(q2, WhereClause(params))
  {
  }

  /** A row matches the parameters exactly when it passes each truthy filter. */
  lemma MatchesParams(q: Question, params: SearchParams)
    ensures Matches(q, WhereClause(params))
        <==> && (Present(params.groupId) ==> q.groupId == params.groupId.value)
             && (Present(params.query) ==> ContainsInsensitive(q.text, params.query.value))
  {
  }

  /** The question with its `_count` filled in from the ledger and the answers table. */
  function WithCounts(q: Question, likes: set<Like>, answers: seq<Answer>): (r: Question)
    ensures r.(count := None) == q.(count := None)
    ensures r.count.Some?
    ensures r.count.value.likes == |set l | l in likes && l.refId == q.id && l.likeType == QUESTION|
    ensures r.count.value.answers == AnswerTotal(answers, q.id)
  {
    q.(count := Some(QuestionCount(LikeCount(likes, q.id, QUESTION), AnswerTotal(answers, q.id))))
  }

  function CountFn(likes: set<Like>, answers: seq<Answer>): Question -> Question {
    q => WithCounts(q, likes, answers)
  }

  /** `questions.map(...)` adding each question's counts. */
  function Counted(questions: seq<Question>, likes: set<Like>, answers: seq<Answer>): seq<Question> {
    Map(questions, CountFn(likes, answers))
  }

  function CreatedAtOf(q: Question): int {
    q.createdAt
  }

  function LikesOf(q: Question): int {
    if q.count.Some? then q.count.value.likes else 0
  }

  /** GET: the filtered questions with their counts, newest first or most liked first. */
  method Get(db: Db.Store, session: Session, params: SearchParams) returns (r: Response<seq<Question>>)
    ensures session.None? ==> r == Unauthorized
    ensures session.Some? ==> r.Ok?
    ensures r.Ok? ==> multiset(r.body) == multiset(Counted(Select(db.questions, WhereClause(params)), db.likes, db.answers))
    ensures r.Ok? ==> forall q :: q in r.body ==> q == WithCounts(q, db.likes, db.answers)
    ensures r.Ok? && SortBy(params) != "popular" ==> SortedDesc(r.body, CreatedAtOf)
    ensures r.Ok? && SortBy(params) == "popular" ==>
              SortedDesc(r.body, LikesOf) && TiesSortedDesc(r.body, LikesOf, CreatedAtOf)
  {
    if session.None? {
      return Unauthorized;
    }
    var likes, answers := db.likes, db.answers;
    var where := WhereClause(params);
    var selected := Select(db.questions, where);
    var rows := SortDesc(selected, CreatedAtOf);
    var withLikes := Counted(rows, likes, answers);
    ghost var f := CountFn(likes, answers);
    SortDescMap(selected, f, CreatedAtOf);
    SortDescPermutes(Map(selected, f), CreatedAtOf);
    SortDescSorted(Map(selected, f), CreatedAtOf);
    assert forall q :: q in withLikes ==> q == WithCounts(q, likes, answers);
    if SortBy(params) == "popular" {
      SortDescPermutes(withLikes, LikesOf);
      SortDescSorted(withLikes, LikesOf);
      SortDescKeepsTieOrder(withLikes, LikesOf, CreatedAtOf);
      withLikes := SortDesc(withLikes, LikesOf);
      assert forall q :: q in withLikes ==> q in multiset(withLikes);
    }
    return Ok(withLikes);
  }

  /** The 400 message a body draws, if any: the text is checked before `groupId`. */
  function Validate(body: CreateQuestionData): (e: Option<string>)
    ensures e.None? <==> !IsBlank(body.text) && body.groupId != []
    ensures IsBlank(body.text) ==> e == Some(TextRequired)
    ensures !IsBlank(body.text) && body.groupId == [] ==> e == Some(GroupIdRequired)
  {
    if Trim(body.text) == [] then Some(TextRequired)
    else if body.groupId == [] then Some(GroupIdRequired)
    else None
  }

  /** POST: the handler. */
  method Post(db: Db.Store, session: Session, body: CreateQuestionData, id: Id, now: int) returns (r: Response<Question>)
    requires db.Valid()
    requires FreshQuestionId(db.questions, id)
    modifies db`questions
    ensures db.Valid()
    ensures CallerId(session).None? ==> r == Unauthorized
    ensures CallerId(session).Some? && Validate(body).Some? ==> r == BadRequest(Validate(body).value)
    ensures r.Created? <==> CallerId(session).Some? && Validate(body).None? && GroupExists(db.groups, body.groupId)
    ensures r.ServerError? <==> CallerId(session).Some? && Validate(body).None? && !GroupExists(db.groups, body.groupId)
    ensures !r.Created? ==> db.questions == old(db.questions)
    ensures r.Created? ==>
              var row := Question(id, Trim(body.text), body.groupId, CallerId(session).value, now, now, None);
              && db.questions == old(db.questions) + [row]
              && r.body == WithCounts(row, db.likes, db.answers)
              && r.body.count.value.answers == 0
  {
    var caller := CallerId(session);
    if caller.None? {
      return Unauthorized;
    }
    var invalid := Validate(body);
    if invalid.Some? {
      return BadRequest(invalid.value);
    }
    if !GroupExists(db.groups, body.groupId) {
      // the store's foreign key refuses a question in a missing group
      return ServerError;
    }
    var row := Question(id, Trim(body.text), body.groupId, caller.value, now, now, None);
    db.questions := db.questions + [row];
    AnswerTotalZero(db.answers, id);
    return Created(WithCounts(row, db.likes, db.answers));
  }
}
