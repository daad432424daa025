/**
 * The question detail modal (src/components/questions/QuestionDetailModal.tsx):
 * the answers it shows, the question's like counter and the per-answer like
 * counters, with each server reply as a parameter.
 */
module QuestionDetail {
  import opened Wrappers
  import opened Types
  import opened Counters
  import Ordering
  import LikesRoute
  import UseLike

  /** `_count?.likes || 0`: a missing count reads as zero. */
  function LikesOrZero(c: Option<QuestionCount>): (r: int)
    ensures c.None? ==> r == 0
    ensures c.Some? ==> r == c.value.likes
  {
    if c.Some? then c.value.likes else 0
  }

  /** An answer's shown likes, zero when it carries no count. */
  function AnswerLikes(a: Answer): (r: int)
    ensures a.count.None? ==> r == 0
    ensures a.count.Some? ==> r == a.count.value.likes
  {
    if a.count.Some? then a.count.value.likes else 0
  }

  /** One answer after a like reply on `answerId`: only the matching answer's count moves. */
  function LikedAnswer(a: Answer, answerId: Id, liked: bool): Answer {
    if a.id == answerId then a.(count := Some(AnswerCount(ClampedBump(AnswerLikes(a), liked)))) else a
  }

  /**
   * The answers after a like reply on `answerId`: same length and order, every
   * other answer untouched, and the matching answers differ only in their count,
   * which moves by one and never below zero.
   */
  function WithAnswerLike(answers: seq<Answer>, answerId: Id, liked: bool): (r: seq<Answer>)
    ensures |r| == |answers|
    ensures forall i :: 0 <= i < |r| ==> r[i].id == answers[i].id
    ensures forall i :: 0 <= i < |r| && answers[i].id != answerId ==> r[i] == answers[i]
    ensures forall i :: 0 <= i < |r| && answers[i].id == answerId ==>
              r[i].(count := None) == answers[i].(count := None) &&
              AnswerLikes(r[i]) == ClampedBump(AnswerLikes(answers[i]), liked)
  {
    Ordering.Map(answers, a => LikedAnswer(a, answerId, liked))
  }

  /** No answer counter the modal shows goes negative through like replies. */
  lemma AnswerLikesStayNonNegative(answers: seq<Answer>, answerId: Id, liked: bool)
    requires forall i :: 0 <= i < |answers| ==> AnswerLikes(answers[i]) >= 0
    ensures forall i :: 0 <= i < |answers| ==> AnswerLikes(WithAnswerLike(answers, answerId, liked)[i]) >= 0
  {
    var r := WithAnswerLike(answers, answerId, liked);
    forall i | 0 <= i < |answers|
      ensures AnswerLikes(r[i]) >= 0
    {
      if answers[i].id == answerId {
        assert AnswerLikes(r[i]) == ClampedBump(AnswerLikes(answers[i]), liked);
      }
    }
  }

  /** What `fetch('/api/questions/<id>')` yields: an OK body, a non-OK status, or a throw. */
  datatype DetailReply = Detail(answers: Option<seq<Answer>>, count: Option<QuestionCount>) | NotOk | Threw

  class DetailState {
    const question: Question
    var answers: seq<Answer>
    var loading: bool
    var likeCount: int
    var isLiked: bool
    var liking: bool
    /** How many `fetchQuestionDetails` requests await their reply. */
    ghost var fetches: nat
    /** How many `handleLike` requests await their reply. */
    ghost var likesInFlight: nat

    /** A question like is in flight exactly while `liking` is set, and never more than one. */
    ghost predicate Valid()
      reads this`liking, this`likesInFlight
    {
      likesInFlight <= 1 && (liking <==> likesInFlight == 1)
    }

    /** The modal's initial state: no answers, the counter from the question's count. */
    constructor (question: Question)
      ensures this.question == question
      ensures answers == [] && !loading && likeCount == LikesOrZero(question.count) && !isLiked && !liking
      ensures Valid() && fetches == 0 && likesInFlight == 0
    {
      this.question := question;
      answers, loading, likeCount, isLiked, liking := [], false, LikesOrZero(question.count), false, false;
      fetches, likesInFlight := 0, 0;
    }

    /** `fetchQuestionDetails` up to its `await fetch`: requests the question by id; nothing guards a second fetch. */
    method FetchQuestionDetails() returns (requested: Id)
      modifies this`loading, this`fetches
      ensures requested == question.id
      ensures loading && fetches == old(fetches) + 1
    {
      loading := true;
      fetches := fetches + 1;
      requested := question.id;
    }

    /** The rest of `fetchQuestionDetails`: an OK body is adopted, and `loading` ends. */
    method OnQuestionDetails(reply: DetailReply)
      requires fetches > 0
      modifies this`answers, this`likeCount, this`loading, this`fetches
      ensures !loading && fetches == old(fetches) - 1
      ensures reply.Detail? ==> answers == reply.answers.GetOr([]) && likeCount == LikesOrZero(reply.count)
      ensures !reply.Detail? ==> answers == old(answers) && likeCount == old(likeCount)
    {
      if reply.Detail? {
        answers := reply.answers.GetOr([]);
        likeCount := LikesOrZero(reply.count);
      }
      loading := false;
      fetches := fetches - 1;
    }

    /** `handleLike` up to its `await fetch`: while `liking` is set no second request goes out. */
    method HandleLike() returns (sent: Option<LikesRoute.LikeRequest>)
      requires Valid()
      modifies this`liking, this`likesInFlight
      ensures Valid()
      ensures old(liking) ==> sent.None? && liking && likesInFlight == old(likesInFlight)
      ensures !old(liking) ==>
                sent == Some(LikesRoute.LikeRequest(Some("QUESTION"), Some(question.id))) &&
                liking && likesInFlight == old(likesInFlight) + 1
    {
      if liking {
        return None;
      }
      liking := true;
      likesInFlight := likesInFlight + 1;
      sent := Some(LikesRoute.LikeRequest(Some("QUESTION"), Some(question.id)));
    }

    /** The rest of `handleLike`: an OK reply moves the counter with no floor, and `liking` ends. */
    method OnLikeReply(reply: UseLike.LikeReply)
      requires Valid() && liking
      modifies this`isLiked, this`likeCount, this`liking, this`likesInFlight
      ensures Valid() && !liking && likesInFlight == old(likesInFlight) - 1
      ensures reply.Replied? ==> isLiked == reply.liked && likeCount == Bump(old(likeCount), reply.liked)
      ensures !reply.Replied? ==> isLiked == old(isLiked) && likeCount == old(likeCount)
    {
      if reply.Replied? {
        isLiked := reply.liked;
        likeCount := Bump(likeCount, reply.liked);
      }
      liking := false;
      likesInFlight := likesInFlight - 1;
    }

    /**
     * `handleAnswerLike`: no in-flight guard; an OK reply updates the matching
     * answers. Request and reply are one step here.
     */
    method HandleAnswerLike(answerId: Id, reply: UseLike.LikeReply) returns (sent: LikesRoute.LikeRequest)
      modifies this`answers
      ensures sent == LikesRoute.LikeRequest(Some("ANSWER"), Some(answerId))
      ensures reply.Replied? ==> answers == WithAnswerLike(old(answers), answerId, reply.liked)
      ensures !reply.Replied? ==> answers == old(answers)
    {
      sent := LikesRoute.LikeRequest(Some("ANSWER"), Some(answerId));
      if reply.Replied? {
        answers := WithAnswerLike(answers, answerId, reply.liked);
      }
    }
  }

  /** Two clicks on the question's heart before the first reply arrives send a single request. */
  method DoubleLikeSendsOnce(question: Question)
    returns (first: Option<LikesRoute.LikeRequest>, second: Option<LikesRoute.LikeRequest>)
    ensures first == Some(LikesRoute.LikeRequest(Some("QUESTION"), Some(question.id)))
    ensures second.None?
  {
    var state := new DetailState(question);
    first := state.HandleLike();
    second := state.HandleLike();
  }
}
