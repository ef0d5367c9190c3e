/** The list rules behind liking, unliking and commenting on a post: the
    likes and comments arrays a post embeds, and how each route edits them. */
module Engagement {
  import opened Base
  import opened Http
  import opened JsArray

  /** An entry of a post's `likes` array: `{ user }`. */
  datatype Like = Like(user: Id)

  /** An entry of a post's `comments` array, with a snapshot of its author. */
  datatype Comment = Comment(id: Id, text: string, firstName: string, lastName: string,
                             avatar: string, user: Id)

  /** At most one like per user. */
  predicate UniqueLikes(likes: seq<Like>) {
    forall i, j :: 0 <= i < j < |likes| ==> likes[i] != likes[j]
  }

  /** `likes.filter(like => like.user.toString() === user).length`. */
  function LikeCount(likes: seq<Like>, user: Id): (n: nat)
    ensures n == multiset(likes)[Like(user)]
    ensures n == 0 <==> Like(user) !in likes
  {
    if |likes| == 0 then 0
    else
      assert likes == [likes[0]] + likes[1..];
      (if likes[0].user == user then 1 else 0) + LikeCount(likes[1..], user)
  }

  /** `likes.map(like => like.user.toString())`. */
  function Likers(likes: seq<Like>): (users: seq<Id>)
    ensures |users| == |likes|
    ensures forall i :: 0 <= i < |likes| ==> (users[i] == likes[i].user)
  {
    Map(likes, (l: Like) => l.user)
  }

  const AlreadyLiked: Failure := MsgFailure(StatusBadRequest, "Post already liked")
  const NotYetLiked: Failure := MsgFailure(StatusBadRequest, "Post has not yet been liked")

  /** The like rule: refuse a second like by the same user, otherwise put the
      new like first and keep the others in order. */
  function AddLike(likes: seq<Like>, user: Id): (r: Result<seq<Like>>)
    ensures r.Err? <==> Like(user) in likes
    ensures r.Err? ==> r.failure == AlreadyLiked
    ensures r.Ok? ==> |r.value| == |likes| + 1 && r.value[0] == Like(user) && r.value[1..] == likes
  {
    if LikeCount(likes, user) > 0 then Err(AlreadyLiked)
    else Ok([Like(user)] + likes)
  }

  /** The unlike rule: refuse when the user has no like, otherwise remove the
      first like by that user and keep the others in order. */
  function RemoveLike(likes: seq<Like>, user: Id): (r: Result<seq<Like>>)
    ensures r.Err? <==> Like(user) !in likes
    ensures r.Err? ==> r.failure == NotYetLiked
    ensures r.Ok? ==> exists k :: 0 <= k < |likes| && likes[k] == Like(user) && Like(user) !in likes[..k]
                                  && r.value == likes[..k] + likes[k + 1..]
  {
    if LikeCount(likes, user) == 0 then Err(NotYetLiked)
    else
      var k := IndexOf(Likers(likes), user);
      assert likes[k] == Like(user);
      assert forall j :: 0 <= j < k ==> likes[..k][j] == likes[j] && Likers(likes)[..k][j] == likes[j].user;
      Ok(Splice1(likes, k))
  }

  /** Removing the like at `k` from a list with one like per user keeps one
      like per user and leaves no copy of the removed like. */
  lemma {:induction false} RemovingOneKeepsUnique(likes: seq<Like>, k: nat)
    requires UniqueLikes(likes) && k < |likes|
    ensures UniqueLikes(likes[..k] + likes[k + 1..])
    ensures likes[k] !in likes[..k] + likes[k + 1..]
  {
    var r := likes[..k] + likes[k + 1..];
    assert forall i :: 0 <= i < |r| ==> r[i] == likes[if i < k then i else i + 1];
    forall i, j | 0 <= i < j < |r|
      ensures r[i] != r[j]
    {
      assert r[i] == likes[if i < k then i else i + 1];
    }
    forall i | 0 <= i < |r|
      ensures r[i] != likes[k]
    {
      if i < k {
        assert r[i] == likes[i];
      } else {
        assert r[i] == likes[i + 1];
      }
    }
  }

  /** Liking keeps at most one like per user. */
  lemma {:induction false} AddLikeKeepsUnique(likes: seq<Like>, user: Id)
    requires UniqueLikes(likes)
    ensures AddLike(likes, user).Ok? ==> UniqueLikes(AddLike(likes, user).value)
  {
    var r := AddLike(likes, user);
    if r.Ok? {
      var s := r.value;
      forall i, j | 0 <= i < j < |s|
        ensures s[i] != s[j]
      {
        assert s[j] == likes[j - 1];
        if i > 0 {
          assert s[i] == likes[i - 1];
        }
      }
    }
  }

  /** Unliking keeps at most one like per user, and then the user has none left. */
  lemma {:induction false} RemoveLikeKeepsUnique(likes: seq<Like>, user: Id)
    requires UniqueLikes(likes)
    ensures RemoveLike(likes, user).Ok? ==> UniqueLikes(RemoveLike(likes, user).value)
    ensures RemoveLike(likes, user).Ok? ==> Like(user) !in RemoveLike(likes, user).value
  {
    var r := RemoveLike(likes, user);
    if r.Ok? {
      var k :| 0 <= k < |likes| && likes[k] == Like(user) && r.value == likes[..k] + likes[k + 1..];
      RemovingOneKeepsUnique(likes, k);
    }
  }

  /** Unlike undoes like: for a user with no like, liking then unliking gives
      back the original list. */
  lemma UnlikeUndoesLike(likes: seq<Like>, user: Id)
    requires Like(user) !in likes
    ensures AddLike(likes, user).Ok?
    ensures RemoveLike(AddLike(likes, user).value, user) == Ok(likes)
  {
    var added := AddLike(likes, user).value;
    assert added == [Like(user)] + likes;
    assert IndexOf(Likers(added), user) == 0;
    assert Splice1(added, 0) == added[..0] + added[1..] == likes;
  }

  /** With at most one like per user, a second unlike in a row is refused. */
  lemma UnlikeTwiceFails(likes: seq<Like>, user: Id)
    requires UniqueLikes(likes)
    requires RemoveLike(likes, user).Ok?
    ensures RemoveLike(RemoveLike(likes, user).value, user) == Err(NotYetLiked)
  {
    RemoveLikeKeepsUnique(likes, user);
  }

  /** Without that invariant one unlike is not enough: a user with two or
      more likes still has one after unliking. */
  lemma DuplicateLikeSurvivesUnlike(likes: seq<Like>, user: Id)
    requires LikeCount(likes, user) >= 2
    ensures RemoveLike(likes, user).Ok?
    ensures Like(user) in RemoveLike(likes, user).value
  {
    var x := Like(user);
    var r := RemoveLike(likes, user).value;
    var k :| 0 <= k < |likes| && likes[k] == x && x !in likes[..k] && r == likes[..k] + likes[k + 1..];
    SecondCopyAfterFirst(likes, k, x);
    assert r[k..] == likes[k + 1..];
  }

  /** When `x` occurs at least twice and `k` is its first index, another copy
      follows `k`. */
  lemma {:induction false} SecondCopyAfterFirst<T>(s: seq<T>, k: nat, x: T)
    requires k < |s| && s[k] == x && x !in s[..k] && multiset(s)[x] >= 2
    ensures x in s[k + 1..]
  {
    assert s == s[..k] + ([s[k]] + s[k + 1..]);
    assert multiset(s[..k])[x] == 0;
  }

  /** `comments.map(comment => comment.id)`. */
  function CommentIds(comments: seq<Comment>): (ids: seq<Id>)
    ensures |ids| == |comments|
    ensures forall i :: 0 <= i < |comments| ==> ids[i] == comments[i].id
  {
    Map(comments, (c: Comment) => c.id)
  }

  /** `find` by id and `indexOf` on the ids pick the same comment. */
  lemma FindAgreesWithIndexOf(comments: seq<Comment>, commentId: Id)
    ensures var k := IndexOf(CommentIds(comments), commentId);
            Find(comments, (c: Comment) => c.id == commentId) == if k < 0 then None else Some(comments[k])
  {
    var ids := CommentIds(comments);
    var k := IndexOf(ids, commentId);
    if k >= 0 {
      assert forall j :: 0 <= j < k ==> ids[..k][j] == ids[j];
      FindFirst(comments, (c: Comment) => c.id == commentId, k);
    }
  }

  const NotAuthorized: Failure := MsgFailure(StatusUnauthorized, "User not authorized")

  /** The comment-deletion rule as written: `find` the comment, refuse when
      its author is not the caller, then splice it out by index. When no
      comment has the id, reading `.user` of `undefined` throws and the catch
      block answers 500. */
  function DeleteCommentAsWritten(comments: seq<Comment>, caller: Id, commentId: Id): (r: Result<seq<Comment>>)
    ensures commentId !in CommentIds(comments) ==> r == Err(ServerError)
    ensures commentId in CommentIds(comments) ==>
              var k := IndexOf(CommentIds(comments), commentId);
              && (comments[k].user != caller ==> r == Err(NotAuthorized))
              && (comments[k].user == caller ==> r == Ok(comments[..k] + comments[k + 1..]))
  {
    var ids := CommentIds(comments);
    FindAgreesWithIndexOf(comments, commentId);
    match Find(comments, (c: Comment) => c.id == commentId)
    case None => Err(ServerError)
    case Some(comment) =>
      if comment.user != caller then Err(NotAuthorized)
      else Ok(Splice1(comments, IndexOf(ids, commentId)))
  }

  const CommentNotFound: Failure := MsgFailure(StatusNotFound, "Comment does not exist")

  /** Comment deletion with the missing-comment case answered 404 instead of
      faulting. */
  function DeleteComment(comments: seq<Comment>, caller: Id, commentId: Id): (r: Result<seq<Comment>>)
    ensures r.Err? ==> r.failure != ServerError
    ensures commentId !in CommentIds(comments) ==> r == Err(CommentNotFound)
    ensures r.Ok? ==> exists k :: 0 <= k < |comments| && comments[k].id == commentId
                                  && comments[k].user == caller
                                  && r.value == comments[..k] + comments[k + 1..]
  {
    if commentId !in CommentIds(comments) then Err(CommentNotFound)
    else DeleteCommentAsWritten(comments, caller, commentId)
  }

  /** The two agree on every comment id that is present. */
  lemma DeleteCommentAgreesWhenPresent(comments: seq<Comment>, caller: Id, commentId: Id)
    requires exists k :: 0 <= k < |comments| && comments[k].id == commentId
    ensures DeleteComment(comments, caller, commentId) == DeleteCommentAsWritten(comments, caller, commentId)
  {
    var k :| 0 <= k < |comments| && comments[k].id == commentId;
    assert CommentIds(comments)[k] == commentId;
  }

  /** An unknown comment id makes the as-written rule fault, even on a post
      with comments. */
  lemma UnknownCommentFaults()
    ensures var comments := [Comment("c1", "hi", "A", "B", "av", "u1")];
            DeleteCommentAsWritten(comments, "u1", "c2") == Err(ServerError)
            && DeleteComment(comments, "u1", "c2") == Err(CommentNotFound)
  {
    var comments := [Comment("c1", "hi", "A", "B", "av", "u1")];
    assert CommentIds(comments) == ["c1"];
  }
}
