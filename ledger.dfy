/**
 * The engagement ledger: the Like table as a set of rows. The store's unique
 * constraint is on (refId, userId) — the like type is not part of the key —
 * while the like counts the routes report select rows by (refId, type).
 */
module Ledger {
  import opened Types

  /** The row belongs to the (refId, userId) key the likes routes look up. */
  predicate HasKey(l: Like, refId: Id, userId: Id) {
    l.refId == refId && l.userId == userId
  }

  /** At most one row per (refId, userId). */
  ghost predicate KeysUnique(likes: set<Like>) {
    forall a, b :: a in likes && b in likes && HasKey(b, a.refId, a.userId) ==> a == b
  }

  /** The `findUnique` lookup on (refId, userId) finds a row. */
  predicate Liked(likes: set<Like>, refId: Id, userId: Id) {
    exists l :: l in likes && HasKey(l, refId, userId)
  }

  /** The rows a user holds on one reference, of any type. */
  function RowsOf(likes: set<Like>, refId: Id, userId: Id): set<Like> {
    set l | l in likes && HasKey(l, refId, userId)
  }

  /** The rows the `like.count({ where: { refId, type } })` queries select. */
  function RowsOn(likes: set<Like>, refId: Id, t: LikeType): set<Like> {
    set l | l in likes && l.refId == refId && l.likeType == t
  }

  /** The selected rows are empty exactly when no row has that reference and type. */
  lemma RowsOnEmpty(likes: set<Like>, refId: Id, t: LikeType)
    ensures RowsOn(likes, refId, t) == {} <==> forall l :: l in likes ==> l.refId != refId || l.likeType != t
  {
    if l :| l in likes && l.refId == refId && l.likeType == t {
      assert l in RowsOn(likes, refId, t);
    }
  }

  /** The number of likes of type `t` on the reference; zero exactly when there is no such row. */
  function LikeCount(likes: set<Like>, refId: Id, t: LikeType): (n: nat)
    ensures n == 0 <==> forall l :: l in likes ==> l.refId != refId || l.likeType != t
  {
    RowsOnEmpty(likes, refId, t);
    |RowsOn(likes, refId, t)|
  }

  /** The `delete` of the user's row on the reference. */
  function Unliked(likes: set<Like>, refId: Id, userId: Id): (r: set<Like>)
    ensures !Liked(r, refId, userId)
    ensures forall l :: !HasKey(l, refId, userId) ==> (l in r <==> l in likes)
  {
    likes - RowsOf(likes, refId, userId)
  }

  /**
   * The toggle transition on the (refId, userId) key: remove the user's row if
   * there is one, otherwise add a row of type `t`.
   */
  function Toggled(likes: set<Like>, t: LikeType, refId: Id, userId: Id, rowId: Id, now: int): (r: set<Like>)
    ensures Liked(r, refId, userId) == !Liked(likes, refId, userId)
    ensures forall l :: !HasKey(l, refId, userId) ==> (l in r <==> l in likes)
    ensures KeysUnique(likes) ==> KeysUnique(r)
  {
    if Liked(likes, refId, userId) then Unliked(likes, refId, userId)
    else likes + {Like(rowId, t, refId, userId, now)}
  }

  /** Under the unique key, the user's rows on a reference are the one row found. */
  lemma RowsOfSingle(likes: set<Like>, l: Like)
    requires KeysUnique(likes) && l in likes
    ensures RowsOf(likes, l.refId, l.userId) == {l}
  {
  }

  /** Toggling twice from "not liked" gives back exactly the original ledger. */
  lemma ToggleTwiceFromUnliked(likes: set<Like>, t1: LikeType, t2: LikeType, refId: Id, userId: Id,
                               id1: Id, now1: int, id2: Id, now2: int)
    requires !Liked(likes, refId, userId)
    ensures Toggled(Toggled(likes, t1, refId, userId, id1, now1), t2, refId, userId, id2, now2) == likes
  {
    var row := Like(id1, t1, refId, userId, now1);
    var once := Toggled(likes, t1, refId, userId, id1, now1);
    assert once == likes + {row};
    assert RowsOf(once, refId, userId) == {row};
  }

  /**
   * Toggling twice from "liked" restores the key's membership; the row is
   * re-created with the second call's id, type and time.
   */
  lemma ToggleTwiceFromLiked(likes: set<Like>, l: Like, t1: LikeType, t2: LikeType,
                             id1: Id, now1: int, id2: Id, now2: int)
    requires KeysUnique(likes) && l in likes
    ensures Toggled(Toggled(likes, t1, l.refId, l.userId, id1, now1), t2, l.refId, l.userId, id2, now2)
         == likes - {l} + {Like(id2, t2, l.refId, l.userId, now2)}
  {
    RowsOfSingle(likes, l);
  }

  /** Adding a row on a fresh key adds one to the count of its type and leaves the others. */
  lemma CountAfterInsert(likes: set<Like>, t: LikeType, s: LikeType, refId: Id, userId: Id, rowId: Id, now: int)
    requires !Liked(likes, refId, userId)
    ensures LikeCount(Toggled(likes, t, refId, userId, rowId, now), refId, s)
         == LikeCount(likes, refId, s) + (if s == t then 1 else 0)
  {
    var row := Like(rowId, t, refId, userId, now);
    assert row !in likes;
    if s == t {
      assert RowsOn(likes + {row}, refId, s) == RowsOn(likes, refId, s) + {row};
    } else {
      assert RowsOn(likes + {row}, refId, s) == RowsOn(likes, refId, s);
    }
  }

  /**
   * Removing the user's row subtracts one from the count of the ROW's type,
   * whatever type the toggle names, and leaves the other type's count alone.
   */
  lemma CountAfterDelete(likes: set<Like>, l: Like, t: LikeType, s: LikeType, rowId: Id, now: int)
    requires KeysUnique(likes) && l in likes
    ensures LikeCount(Toggled(likes, t, l.refId, l.userId, rowId, now), l.refId, s)
         == LikeCount(likes, l.refId, s) - (if s == l.likeType then 1 else 0)
  {
    RowsOfSingle(likes, l);
    if s == l.likeType {
      assert RowsOn(likes - {l}, l.refId, s) == RowsOn(likes, l.refId, s) - {l};
    } else {
      assert RowsOn(likes - {l}, l.refId, s) == RowsOn(likes, l.refId, s);
    }
  }

  /** A toggle on one key leaves every count on another reference unchanged. */
  lemma CountElsewhereUnchanged(likes: set<Like>, t: LikeType, refId: Id, userId: Id, rowId: Id, now: int,
                                other: Id, s: LikeType)
    requires other != refId
    ensures LikeCount(Toggled(likes, t, refId, userId, rowId, now), other, s) == LikeCount(likes, other, s)
  {
    assert RowsOn(Toggled(likes, t, refId, userId, rowId, now), other, s) == RowsOn(likes, other, s);
  }
}
