/**
 * GET /api/likes/check (src/app/api/likes/check/route.ts): whether the caller
 * holds a like on a reference. The `type` parameter must be present but takes
 * no part in the lookup.
 */
module LikesCheckRoute {
  import opened Wrappers
  import opened Text
  import opened Types
  import opened Http
  import opened Ledger
  import LikesRoute

  /** The handler, a read of the ledger. */
  function Check(likes: set<Like>, session: Session, likeType: Option<string>, refId: Option<string>): (r: Response<bool>)
    ensures CallerId(session).None? ==> r == Unauthorized
    ensures CallerId(session).Some? && !(Present(likeType) && Present(refId))
            ==> r == BadRequest(LikesRoute.TypeAndRefIdRequired)
    ensures r.Ok? <==> CallerId(session).Some? && Present(likeType) && Present(refId)
    ensures r.Ok? ==> (r.body <==> exists l :: l in likes && l.refId == refId.value && l.userId == CallerId(session).value)
  {
    var caller := CallerId(session);
    if caller.None? then Unauthorized
    else if !Present(likeType) || !Present(refId) then BadRequest(LikesRoute.TypeAndRefIdRequired)
    else Ok(Liked(likes, refId.value, caller.value))
  }

  /** The answer is the same whichever (present) type is asked about. */
  lemma CheckIgnoresType(likes: set<Like>, session: Session, t1: string, t2: string, refId: Option<string>)
    requires t1 != [] && t2 != []
    ensures Check(likes, session, Some(t1), refId) == Check(likes, session, Some(t2), refId)
  {
  }

  /** Right after a successful toggle, the check reports what the toggle reported. */
  lemma CheckAfterToggle(likes: set<Like>, session: Session, req: LikesRoute.LikeRequest, rowId: Id, now: int,
                         checkType: string)
    requires LikesRoute.Toggle(likes, session, req, rowId, now).response.Ok?
    requires checkType != []
    ensures var out := LikesRoute.Toggle(likes, session, req, rowId, now);
            Check(out.likes, session, Some(checkType), req.refId) == out.response
  {
  }

  /**
   * The key/count mismatch: a caller whose row on `refId` has one type is
   * reported as liking it under the other type, yet no row of theirs is
   * among the rows counted for that other type.
   */
  lemma CheckDisagreesWithCount(likes: set<Like>, l: Like, other: LikeType)
    requires KeysUnique(likes) && l in likes && other != l.likeType
    requires l.userId != [] && l.refId != []
    ensures Check(likes, Some(SessionUser(l.userId)), Some(LikeTypeName(other)), Some(l.refId)) == Ok(true)
    ensures forall m :: m in RowsOn(likes, l.refId, other) ==> m.userId != l.userId
  {
  }
}
