/**
 * The `useLike` hook (src/hooks/useLike.ts): three state cells updated by the
 * like-status check and by `toggleLike`. The server's reply is a parameter.
 */
module UseLike {
  import opened Wrappers
  import opened Text
  import opened Types
  import opened Counters
  import LikesRoute

  /** What a `fetch` to the likes routes yields: an OK reply with `liked`, a non-OK status, or a throw. */
  datatype LikeReply = Replied(liked: bool) | NotOk | Threw

  class LikeState {
    const likeType: LikeType
    const refId: Id
    const currentUserId: Option<Id>
    var likeCount: int
    var isLiked: bool
    var loading: bool
    /** How many `toggleLike` requests await their reply. */
    ghost var inFlight: nat

    /** A toggle request is in flight exactly while `loading` is set, and never more than one. */
    ghost predicate Valid()
      reads this`loading, this`inFlight
    {
      inFlight <= 1 && (loading <==> inFlight == 1)
    }

    /** The hook's initial state; `initialCount` defaults to 0. */
    constructor (likeType: LikeType, refId: Id, initialCount: Option<int>, currentUserId: Option<Id>)
      ensures this.likeType == likeType && this.refId == refId && this.currentUserId == currentUserId
      ensures likeCount == initialCount.GetOr(0) && !isLiked && !loading
      ensures Valid() && inFlight == 0
    {
      this.likeType, this.refId, this.currentUserId := likeType, refId, currentUserId;
      likeCount, isLiked, loading := initialCount.GetOr(0), false, false;
      inFlight := 0;
    }

    /** `checkLikeStatus`: asks only for a signed-in user and adopts an OK reply. */
    method CheckLikeStatus(reply: LikeReply) returns (asked: bool)
      modifies this`isLiked
      ensures asked == Present(currentUserId)
      ensures asked && reply.Replied? ==> isLiked == reply.liked
      ensures !(asked && reply.Replied?) ==> isLiked == old(isLiked)
    {
      if !Present(currentUserId) {
        return false;
      }
      asked := true;
      if reply.Replied? {
        isLiked := reply.liked;
      }
    }

    /**
     * `toggleLike` up to its `await fetch`: the request it sends, if any.
     * While a request is in flight `loading` is set, so a second call sends
     * nothing and at most one request is ever outstanding.
     */
    method ToggleLike() returns (sent: Option<LikesRoute.LikeRequest>)
      requires Valid()
      modifies this`loading, this`inFlight
      ensures Valid()
      ensures old(loading) || !Present(currentUserId) ==> sent.None? && loading == old(loading) && inFlight == old(inFlight)
      ensures !old(loading) && Present(currentUserId) ==>
                sent == Some(LikesRoute.LikeRequest(Some(LikeTypeName(likeType)), Some(refId))) &&
                loading && inFlight == old(inFlight) + 1
    {
      if loading || !Present(currentUserId) {
        return None;
      }
      loading := true;
      inFlight := inFlight + 1;
      sent := Some(LikesRoute.LikeRequest(Some(LikeTypeName(likeType)), Some(refId)));
    }

    /** The rest of `toggleLike` once the request settles: an OK reply is adopted, and `loading` ends. */
    method OnToggleReply(reply: LikeReply)
      requires Valid() && loading
      modifies this`likeCount, this`isLiked, this`loading, this`inFlight
      ensures Valid() && !loading && inFlight == old(inFlight) - 1
      ensures reply.Replied? ==> isLiked == reply.liked && likeCount == Bump(old(likeCount), reply.liked)
      ensures !reply.Replied? ==> isLiked == old(isLiked) && likeCount == old(likeCount)
    {
      if reply.Replied? {
        isLiked := reply.liked;
        likeCount := Bump(likeCount, reply.liked);
      }
      loading := false;
      inFlight := inFlight - 1;
    }
  }

  /** Two clicks before the first reply arrives send a single request. */
  method DoubleToggleSendsOnce(likeType: LikeType, refId: Id, initialCount: Option<int>, user: Id)
    returns (first: Option<LikesRoute.LikeRequest>, second: Option<LikesRoute.LikeRequest>)
    requires user != []
    ensures first == Some(LikesRoute.LikeRequest(Some(LikeTypeName(likeType)), Some(refId)))
    ensures second.None?
  {
    var state := new LikeState(likeType, refId, initialCount, Some(user));
    first := state.ToggleLike();
    second := state.ToggleLike();
  }
}
