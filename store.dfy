/**
 * The persistence store as in-memory tables. Groups, questions and answers are
 * kept in insertion order; the Like table is a set of rows. `Valid` collects
 * the constraints the store keeps: unique ids, the unique (refId, userId) key
 * of likes, the foreign keys from questions to groups and from answers to
 * questions, and the content rules the create handlers enforce.
 */
module Db {
  import opened Wrappers
  import opened Text
  import opened Types
  import opened Ledger

  /**
   * The `_count` of a one-to-many relation: how many child rows carry the
   * parent's id in their foreign key. `parents` lists those foreign keys.
   */
  function Occurrences(parents: seq<Id>, id: Id): (n: nat)
    ensures n <= |parents|
    ensures n == 0 <==> id !in parents
  {
    if parents == [] then 0
    else
      assert id in parents <==> parents[0] == id || id in parents[1..];
      (if parents[0] == id then 1 else 0) + Occurrences(parents[1..], id)
  }

  /** `_count.answers`: how many answers belong to the question. */
  function AnswerTotal(answers: seq<Answer>, questionId: Id): nat {
    Occurrences(seq(|answers|, i requires 0 <= i < |answers| => answers[i].questionId), questionId)
  }

  /** `_count.questions`: how many questions belong to the group. */
  function QuestionTotal(questions: seq<Question>, groupId: Id): nat {
    Occurrences(seq(|questions|, i requires 0 <= i < |questions| => questions[i].groupId), groupId)
  }

  /** A question nobody answered has an answer count of zero. */
  lemma AnswerTotalZero(answers: seq<Answer>, questionId: Id)
    requires forall a :: a in answers ==> a.questionId != questionId
    ensures AnswerTotal(answers, questionId) == 0
  {
    var parents := seq(|answers|, i requires 0 <= i < |answers| => answers[i].questionId);
    forall i | 0 <= i < |parents|
      ensures parents[i] != questionId
    {
      assert answers[i] in answers;
    }
  }

  /** A group with no question has a question count of zero. */
  lemma QuestionTotalZero(questions: seq<Question>, groupId: Id)
    requires forall q :: q in questions ==> q.groupId != groupId
    ensures QuestionTotal(questions, groupId) == 0
  {
    var parents := seq(|questions|, i requires 0 <= i < |questions| => questions[i].groupId);
    forall i | 0 <= i < |parents|
      ensures parents[i] != groupId
    {
      assert questions[i] in questions;
    }
  }

  predicate GroupExists(groups: seq<Group>, id: Id) {
    exists g :: g in groups && g.id == id
  }

  predicate QuestionExists(questions: seq<Question>, id: Id) {
    exists q :: q in questions && q.id == id
  }

  /** The store generates ids no row of the table already has. */
  predicate FreshGroupId(groups: seq<Group>, id: Id) {
    forall g :: g in groups ==> g.id != id
  }

  predicate FreshQuestionId(questions: seq<Question>, id: Id) {
    forall q :: q in questions ==> q.id != id
  }

  predicate FreshAnswerId(answers: seq<Answer>, id: Id) {
    forall a :: a in answers ==> a.id != id
  }

  predicate FreshLikeId(likes: set<Like>, id: Id) {
    forall l :: l in likes ==> l.id != id
  }

  ghost predicate GroupIdsDistinct(groups: seq<Group>) {
    forall i, j :: 0 <= i < j < |groups| ==> groups[i].id != groups[j].id
  }

  ghost predicate QuestionIdsDistinct(questions: seq<Question>) {
    forall i, j :: 0 <= i < j < |questions| ==> questions[i].id != questions[j].id
  }

  ghost predicate AnswerIdsDistinct(answers: seq<Answer>) {
    forall i, j :: 0 <= i < j < |answers| ==> answers[i].id != answers[j].id
  }

  ghost predicate LikeIdsDistinct(likes: set<Like>) {
    forall a, b :: a in likes && b in likes && a.id == b.id ==> a == b
  }

  /** A stored answer has non-blank text or a non-empty audio URL. */
  predicate AnswerHasContent(a: Answer) {
    HasContent(a.text) || Present(a.audioUrl)
  }

  class Store {
    var groups: seq<Group>
    var questions: seq<Question>
    var answers: seq<Answer>
    var likes: set<Like>

    ghost predicate Valid()
      reads this
    {
      && KeysUnique(likes)
      && LikeIdsDistinct(likes)
      && GroupIdsDistinct(groups)
      && QuestionIdsDistinct(questions)
      && AnswerIdsDistinct(answers)
      && (forall q :: q in questions ==> GroupExists(groups, q.groupId))
      && (forall a :: a in answers ==> QuestionExists(questions, a.questionId))
      && (forall g :: g in groups ==> g.name != [] && IsTrimmed(g.name))
      && (forall q :: q in questions ==> q.text != [] && IsTrimmed(q.text))
      && (forall a :: a in answers ==> AnswerHasContent(a))
    }

    constructor ()
      ensures Valid()
      ensures groups == [] && questions == [] && answers == [] && likes == {}
    {
      groups, questions, answers, likes := [], [], [], {};
    }
  }
}
