/**
 * POST /api/likes (src/app/api/likes/route.ts): the single toggle endpoint of
 * the engagement ledger. The lookup is on (refId, caller) only, so an
 * existing row is deleted whatever `type` the request names; a new row is
 * inserted with the request's `type`, which the store accepts only when it is
 * one of the two enum names.
 */
module LikesRoute {
  import opened Wrappers
  import opened Text
  import opened Types
  import opened Http
  import opened Ledger
  import opened Db

  /** The JSON body `{ type, refId }`; an absent field is None. */
  datatype LikeRequest = LikeRequest(likeType: Option<string>, refId: Option<string>)

  const TypeAndRefIdRequired: string := "Type and refId are required"

  /** The response together with the ledger after the request. */
  datatype Outcome = Outcome(response: Response<bool>, likes: set<Like>)

  /** What the handler answers and leaves in the ledger. */
  function Toggle(likes: set<Like>, session: Session, req: LikeRequest, rowId: Id, now: int): (out: Outcome)
    ensures CallerId(session).None? ==> out == Outcome(Unauthorized, likes)
    ensures CallerId(session).Some? && !(Present(req.likeType) && Present(req.refId))
            ==> out == Outcome(BadRequest(TypeAndRefIdRequired), likes)
    ensures !out.response.Ok? ==> out.likes == likes
    ensures out.response.ServerError?
            <==> && CallerId(session).Some? && Present(req.likeType) && Present(req.refId)
                 && !Liked(likes, req.refId.value, CallerId(session).value)
                 && ParseLikeType(req.likeType.value).None?
    ensures out.response.Ok? ==>
              && out.response.body == !Liked(likes, req.refId.value, CallerId(session).value)
              && out.response.body == Liked(out.likes, req.refId.value, CallerId(session).value)
    ensures out.response.Ok? ==>
              forall l :: !HasKey(l, req.refId.value, CallerId(session).value) ==> (l in out.likes <==> l in likes)
    ensures KeysUnique(likes) ==> KeysUnique(out.likes)
  {
    var caller := CallerId(session);
    if caller.None? then Outcome(Unauthorized, likes)
    else if !Present(req.likeType) || !Present(req.refId) then Outcome(BadRequest(TypeAndRefIdRequired), likes)
    else if Liked(likes, req.refId.value, caller.value) then
      Outcome(Ok(false), Unliked(likes, req.refId.value, caller.value))
    else
      match ParseLikeType(req.likeType.value)
      case None => Outcome(ServerError, likes)
      case Some(t) => Outcome(Ok(true), Toggled(likes, t, req.refId.value, caller.value, rowId, now))
  }

  /** A well-typed successful request performs exactly the ledger's toggle transition. */
  lemma ToggleIsTransition(likes: set<Like>, session: Session, req: LikeRequest, rowId: Id, now: int, t: LikeType)
    requires Toggle(likes, session, req, rowId, now).response.Ok?
    requires ParseLikeType(req.likeType.value) == Some(t)
    ensures Toggle(likes, session, req, rowId, now).likes
         == Toggled(likes, t, req.refId.value, CallerId(session).value, rowId, now)
  {
  }

  /** Sending the same request twice restores whether the caller likes the reference. */
  lemma ToggleTwiceRestoresLiked(likes: set<Like>, session: Session, req: LikeRequest,
                                 id1: Id, now1: int, id2: Id, now2: int)
    requires Toggle(likes, session, req, id1, now1).response.Ok?
    requires Toggle(Toggle(likes, session, req, id1, now1).likes, session, req, id2, now2).response.Ok?
    ensures var twice := Toggle(Toggle(likes, session, req, id1, now1).likes, session, req, id2, now2).likes;
            Liked(twice, req.refId.value, CallerId(session).value) == Liked(likes, req.refId.value, CallerId(session).value)
  {
  }

  /** From "not liked", two toggles give back the very same ledger. */
  lemma ToggleTwiceRestoresLedger(likes: set<Like>, session: Session, req: LikeRequest,
                                  id1: Id, now1: int, id2: Id, now2: int)
    requires Toggle(likes, session, req, id1, now1).response == Ok(true)
    ensures Toggle(Toggle(likes, session, req, id1, now1).likes, session, req, id2, now2)
         == Outcome(Ok(false), likes)
  {
    var caller := CallerId(session).value;
    var t := ParseLikeType(req.likeType.value).value;
    ToggleTwiceFromUnliked(likes, t, t, req.refId.value, caller, id1, now1, id2, now2);
  }

  /**
   * Nothing ties a new like to existing content: the toggle inserts a row
   * whose reference names no question or answer of the store.
   */
  lemma DanglingReferenceAccepted(db: Store, u: SessionUser, t: LikeType, refId: Id, rowId: Id, now: int)
    requires u.id != [] && refId != []
    requires !Liked(db.likes, refId, u.id)
    requires !RefersToContent(Like(rowId, t, refId, u.id, now), db.questions, db.answers)
    ensures var out := Toggle(db.likes, Some(u), LikeRequest(Some(LikeTypeName(t)), Some(refId)), rowId, now);
            out.response == Ok(true) && Like(rowId, t, refId, u.id, now) in out.likes
  {
    LikeTypeRoundTrip(t);
  }

  /** The handler: the lookup, then the delete or the insert. */
  method Post(db: Store, session: Session, req: LikeRequest, rowId: Id, now: int) returns (r: Response<bool>)
    requires db.Valid()
    requires FreshLikeId(db.likes, rowId)
    modifies db`likes
    ensures db.Valid()
    ensures r == Toggle(old(db.likes), session, req, rowId, now).response
    ensures db.likes == Toggle(old(db.likes), session, req, rowId, now).likes
  {
    var caller := CallerId(session);
    if caller.None? {
      return Unauthorized;
    }
    if !Present(req.likeType) || !Present(req.refId) {
      return BadRequest(TypeAndRefIdRequired);
    }
    var refId, userId := req.refId.value, caller.value;
    if exists l :: l in db.likes && HasKey(l, refId, userId) {
      var existing :| existing in db.likes && HasKey(existing, refId, userId);
      RowsOfSingle(db.likes, existing);
      db.likes := db.likes - {existing};
      return Ok(false);
    }
    var t := ParseLikeType(req.likeType.value);
    if t.None? {
      // the store rejects a type outside the enum: the handler answers 500
      return ServerError;
    }
    db.likes := db.likes + {Like(rowId, t.value, refId, userId, now)};
    return Ok(true);
  }
}
