/**
 * GET and POST /api/groups (src/app/api/groups/route.ts). GET lists every
 * group newest first with its question count; POST validates the name and
 * inserts the trimmed record owned by the caller.
 */
module GroupsRoute {
  import opened Wrappers
  import opened Text
  import opened Types
  import opened Http
  import opened Db
  import opened Ordering

  const NameRequired: string := "Group name is required"

  /** The group with its `_count.questions` filled in from the questions table. */
  function WithCount(g: Group, questions: seq<Question>): (r: Group)
    ensures r.(count := None) == g.(count := None)
    ensures r.count == Some(GroupCount(QuestionTotal(questions, g.id)))
  {
    g.(count := Some(GroupCount(QuestionTotal(questions, g.id))))
  }

  function CountFn(questions: seq<Question>): Group -> Group {
    g => WithCount(g, questions)
  }

  function Counted(groups: seq<Group>, questions: seq<Question>): seq<Group> {
    Map(groups, CountFn(questions))
  }

  function CreatedAtOf(g: Group): int {
    g.createdAt
  }

  /** GET: all groups with their question counts, newest first. */
  method Get(db: Db.Store, session: Session) returns (r: Response<seq<Group>>)
    ensures session.None? ==> r == Unauthorized
    ensures session.Some? ==> r.Ok?
    ensures r.Ok? ==> multiset(r.body) == multiset(Counted(db.groups, db.questions))
    ensures r.Ok? ==> forall g :: g in r.body ==> g == WithCount(g, db.questions)
    ensures r.Ok? ==> SortedDesc(r.body, CreatedAtOf)
  {
    if session.None? {
      return Unauthorized;
    }
    var questions := db.questions;
    var rows := SortDesc(db.groups, CreatedAtOf);
    var counted := Counted(rows, questions);
    ghost var f := CountFn(questions);
    SortDescMap(db.groups, f, CreatedAtOf);
    SortDescPermutes(Map(db.groups, f), CreatedAtOf);
    SortDescSorted(Map(db.groups, f), CreatedAtOf);
    return Ok(counted);
  }

  /** The 400 a body draws, if any. */
  function Validate(body: CreateGroupData): (e: Option<string>)
    ensures e.None? <==> !IsBlank(body.name)
    ensures e.Some? ==> e.value == NameRequired
  {
    if Trim(body.name) == [] then Some(NameRequired) else None
  }

  /** POST: the handler. */
  method Post(db: Db.Store, session: Session, body: CreateGroupData, id: Id, now: int) returns (r: Response<Group>)
    requires db.Valid()
    requires FreshGroupId(db.groups, id)
    modifies db`groups
    ensures db.Valid()
    ensures CallerId(session).None? ==> r == Unauthorized
    ensures CallerId(session).Some? && Validate(body).Some? ==> r == BadRequest(NameRequired)
    ensures r.Created? <==> CallerId(session).Some? && Validate(body).None?
    ensures !r.Created? ==> db.groups == old(db.groups)
    ensures r.Created? ==>
              var row := Group(id, Trim(body.name), TrimOpt(body.description), CallerId(session).value, now, now, None);
              && db.groups == old(db.groups) + [row]
              && r.body == WithCount(row, db.questions)
              && r.body.count == Some(GroupCount(0))
              && r.Status() == 201
  {
    var caller := CallerId(session);
    if caller.None? {
      return Unauthorized;
    }
    var invalid := Validate(body);
    if invalid.Some? {
      return BadRequest(invalid.value);
    }
    var row := Group(id, Trim(body.name), TrimOpt(body.description), caller.value, now, now, None);
    db.groups := db.groups + [row];
    QuestionTotalZero(db.questions, id);
    return Created(WithCount(row, db.questions));
  }
}
