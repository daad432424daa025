/**
 * The optimistic like counters of the client. `useLike` and the question
 * header of the detail modal move their counter by one in the direction the
 * server reports, with no lower bound; the answer counters of the detail
 * modal never go below zero.
 */
module Counters {
  import opened Types
  import opened Ledger

  /** `liked ? prev + 1 : prev - 1`. */
  function Bump(prev: int, liked: bool): (r: int)
    ensures liked ==> r > prev
    ensures !liked ==> r < prev
    ensures r - prev == 1 || prev - r == 1
  {
    if liked then prev + 1 else prev - 1
  }

  /** `liked ? prev + 1 : Math.max(prev - 1, 0)`. */
  function ClampedBump(prev: int, liked: bool): (r: int)
    ensures r >= 0 || (liked && prev < -1)
    ensures prev >= 0 ==> r >= 0
    ensures liked ==> r == prev + 1
    ensures !liked && prev > 0 ==> r == prev - 1
    ensures !liked && prev <= 0 ==> r == 0
  {
    if liked then prev + 1 else if prev - 1 > 0 then prev - 1 else 0
  }

  /** A like then an unlike gives back the count. */
  lemma BumpUndo(c: int)
    ensures Bump(Bump(c, true), false) == c
    ensures Bump(Bump(c, false), true) == c
  {
  }

  /** The question counter has no floor: an unlike at zero shows -1. */
  lemma BumpBelowZero()
    ensures Bump(0, false) == -1
  {
  }

  /** The answer counter's floor: like-then-unlike restores a non-negative count, unlike at zero stays zero. */
  lemma ClampedBumpUndo(c: int)
    requires c >= 0
    ensures ClampedBump(ClampedBump(c, true), false) == c
    ensures ClampedBump(0, false) == 0
  {
  }

  /**
   * When the caller's row on the reference (if any) has the type the client
   * toggles, the client's bumped count equals the ledger's count afterwards.
   */
  lemma BumpTracksLedger(likes: set<Like>, t: LikeType, refId: Id, userId: Id, rowId: Id, now: int)
    requires KeysUnique(likes)
    requires forall l :: l in likes && HasKey(l, refId, userId) ==> l.likeType == t
    ensures LikeCount(Toggled(likes, t, refId, userId, rowId, now), refId, t)
         == Bump(LikeCount(likes, refId, t), !Liked(likes, refId, userId))
  {
    if Liked(likes, refId, userId) {
      var l :| l in likes && HasKey(l, refId, userId);
      CountAfterDelete(likes, l, t, t, rowId, now);
    } else {
      CountAfterInsert(likes, t, t, refId, userId, rowId, now);
    }
  }

  /**
   * When the caller's row has the other type, the server reports "unliked"
   * and the client decrements, but the ledger's count for the client's type
   * does not move: the client's counter drifts by one.
   */
  lemma BumpDriftsOnTypeMismatch(likes: set<Like>, l: Like, t: LikeType, rowId: Id, now: int)
    requires KeysUnique(likes) && l in likes && l.likeType != t
    ensures LikeCount(Toggled(likes, t, l.refId, l.userId, rowId, now), l.refId, t) == LikeCount(likes, l.refId, t)
    ensures Bump(LikeCount(likes, l.refId, t), !Liked(likes, l.refId, l.userId)) == LikeCount(likes, l.refId, t) - 1
  {
    CountAfterDelete(likes, l, t, t, rowId, now);
  }
}
