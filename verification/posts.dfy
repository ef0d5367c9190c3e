/** The `/api/posts` routes over a post collection keyed by post id. The
    caller id is the one the auth guard resolved from the bearer token. */
module Posts {
  import opened Base
  import opened Http
  import opened Validation
  import opened Foreign
  import opened Users
  import opened Engagement

  /** A stored post, with a snapshot of its author's name and avatar. */
  datatype Post = Post(text: string, firstName: string, lastName: string, avatar: string,
                       user: Id, likes: seq<Like>, comments: seq<Comment>)

  type PostStore = map<Id, Post>

  const TextRules: seq<Rule> := [NotEmpty("text", "Text is required")]

  const PostNotFound: Failure := MsgFailure(StatusNotFound, "Post not found")

  /** Every stored post holds at most one like per user. */
  predicate LikesUnique(posts: PostStore) {
    forall id :: id in posts ==> UniqueLikes(posts[id].likes)
  }

  /** `posts` and `after` agree on every id other than `id`. */
  predicate OthersUnchanged(posts: PostStore, after: PostStore, id: Id) {
    forall k :: k in posts && k != id ==> k in after && after[k] == posts[k]
  }

  /** `POST /api/posts`: validate, then store a post whose author snapshot is
      copied from the caller's user document. A caller with no user document
      makes the handler read a field of `null`, which answers 500. `newId` is
      the id the store assigns; saving under an id that is already taken is
      refused by the store's unique `_id` index, which also answers 500. */
  function CreatePost(users: UserStore, posts: PostStore, caller: Id, body: Body, env: Env, newId: Id)
    : (r: Step<PostStore, Post>)
    ensures r.reply.Err? ==> r.store == posts
    ensures Violations(TextRules, body, env.isEmail) != [] ==>
              r.reply == Err(Reject(Violations(TextRules, body, env.isEmail)))
    ensures Violations(TextRules, body, env.isEmail) == [] && IndexOfId(users, caller) == -1 ==>
              r.reply == Err(ServerError)
    ensures Violations(TextRules, body, env.isEmail) == [] && newId in posts ==> r.reply == Err(ServerError)
    ensures Violations(TextRules, body, env.isEmail) == [] ==>
              (r.reply.Ok? <==> IndexOfId(users, caller) >= 0 && newId !in posts)
    ensures r.reply.Ok? ==>
              && "text" in body && IndexOfId(users, caller) >= 0 && newId !in posts
              && var author := users[IndexOfId(users, caller)];
                 r.reply.value == Post(body["text"], author.firstName, author.lastName, author.avatar, caller, [], [])
    ensures r.reply.Ok? ==> r.store.Keys == posts.Keys + {newId} && r.store[newId] == r.reply.value
                            && OthersUnchanged(posts, r.store, newId)
  {
    var errors := Violations(TextRules, body, env.isEmail);
    if errors != [] then Step(posts, Err(Reject(errors)))
    else
      assert Passes(TextRules[0], body, env.isEmail);
      var i := IndexOfId(users, caller);
      if i < 0 || newId in posts then Step(posts, Err(ServerError))
      else
        var author := users[i];
        var post := Post(body["text"], author.firstName, author.lastName, author.avatar, caller, [], []);
        Step(posts[newId := post], Ok(post))
  }

  /** `GET /api/posts/:id`: a malformed id and an unknown id both answer 404. */
  function GetPost(posts: PostStore, id: Id, env: Env): (r: Result<Post>)
    ensures r.Ok? <==> env.isObjectId(id) && id in posts
    ensures r.Ok? ==> r.value == posts[id]
    ensures r.Err? ==> r.failure == PostNotFound
  {
    if !env.isObjectId(id) || id !in posts then Err(PostNotFound) else Ok(posts[id])
  }

  /** `DELETE /api/posts/:id`: only the author may delete; a missing post is
      404, anybody else is 401; nothing else in the collection changes. */
  function DeletePost(posts: PostStore, caller: Id, id: Id, env: Env): (r: Step<PostStore, string>)
    ensures r.reply.Err? ==> r.store == posts
    ensures !env.isObjectId(id) || id !in posts ==> r.reply == Err(PostNotFound)
    ensures env.isObjectId(id) && id in posts && posts[id].user != caller ==> r.reply == Err(NotAuthorized)
    ensures r.reply.Ok? <==> env.isObjectId(id) && id in posts && posts[id].user == caller
    ensures r.reply.Ok? ==> r.reply.value == "Post deleted" && r.store.Keys == posts.Keys - {id}
                            && OthersUnchanged(posts, r.store, id)
  {
    if !env.isObjectId(id) || id !in posts then Step(posts, Err(PostNotFound))
    else if posts[id].user != caller then Step(posts, Err(NotAuthorized))
    else Step(posts - {id}, Ok("Post deleted"))
  }

  /** `PUT /api/posts/:id/like`: the like rule applied to the stored post. A
      well-formed id with no post makes the handler read `likes` of `null`,
      which answers 500. */
  function LikePost(posts: PostStore, caller: Id, id: Id, env: Env): (r: Step<PostStore, seq<Like>>)
    ensures r.reply.Err? ==> r.store == posts
    ensures !env.isObjectId(id) ==> r.reply == Err(PostNotFound)
    ensures env.isObjectId(id) && id !in posts ==> r.reply == Err(ServerError)
    ensures env.isObjectId(id) && id in posts ==> r.reply == AddLike(posts[id].likes, caller)
    ensures r.reply.Ok? ==> id in posts && r.store.Keys == posts.Keys
                            && r.store[id] == posts[id].(likes := r.reply.value)
                            && OthersUnchanged(posts, r.store, id)
  {
    if !env.isObjectId(id) then Step(posts, Err(PostNotFound))
    else if id !in posts then Step(posts, Err(ServerError))
    else
      match AddLike(posts[id].likes, caller)
      case Err(f) => Step(posts, Err(f))
      case Ok(likes) => Step(posts[id := posts[id].(likes := likes)], Ok(likes))
  }

  /** `PUT /api/posts/:id/unlike`: the unlike rule applied to the stored post,
      with the same failures as liking. */
  function UnlikePost(posts: PostStore, caller: Id, id: Id, env: Env): (r: Step<PostStore, seq<Like>>)
    ensures r.reply.Err? ==> r.store == posts
    ensures !env.isObjectId(id) ==> r.reply == Err(PostNotFound)
    ensures env.isObjectId(id) && id !in posts ==> r.reply == Err(ServerError)
    ensures env.isObjectId(id) && id in posts ==> r.reply == RemoveLike(posts[id].likes, caller)
    ensures r.reply.Ok? ==> id in posts && r.store.Keys == posts.Keys
                            && r.store[id] == posts[id].(likes := r.reply.value)
                            && OthersUnchanged(posts, r.store, id)
  {
    if !env.isObjectId(id) then Step(posts, Err(PostNotFound))
    else if id !in posts then Step(posts, Err(ServerError))
    else
      match RemoveLike(posts[id].likes, caller)
      case Err(f) => Step(posts, Err(f))
      case Ok(likes) => Step(posts[id := posts[id].(likes := likes)], Ok(likes))
  }

  /** Liking and unliking keep every post at one like per user. */
  lemma {:induction false} LikeRoutesKeepLikesUnique(posts: PostStore, caller: Id, id: Id, env: Env)
    requires LikesUnique(posts)
    ensures LikesUnique(LikePost(posts, caller, id, env).store)
    ensures LikesUnique(UnlikePost(posts, caller, id, env).store)
  {
    if env.isObjectId(id) && id in posts {
      AddLikeKeepsUnique(posts[id].likes, caller);
      RemoveLikeKeepsUnique(posts[id].likes, caller);
    }
  }

  /** `POST /api/posts/:id/comment`: validate, then put a comment with the
      caller's author snapshot first. A malformed id, a missing post or a
      missing user all end in the catch block with 500. `newId` is the id the
      store assigns to the comment. */
  function CommentOnPost(users: UserStore, posts: PostStore, caller: Id, id: Id, body: Body, env: Env, newId: Id)
    : (r: Step<PostStore, seq<Comment>>)
    ensures r.reply.Err? ==> r.store == posts
    ensures Violations(TextRules, body, env.isEmail) != [] ==>
              r.reply == Err(Reject(Violations(TextRules, body, env.isEmail)))
    ensures Violations(TextRules, body, env.isEmail) == [] ==>
              (r.reply.Ok? <==> env.isObjectId(id) && id in posts && IndexOfId(users, caller) >= 0)
    ensures Violations(TextRules, body, env.isEmail) == [] && r.reply.Err? ==> r.reply.failure == ServerError
    ensures r.reply.Ok? ==>
              && "text" in body && id in posts && IndexOfId(users, caller) >= 0
              && var author := users[IndexOfId(users, caller)];
                 && r.reply.value == [Comment(newId, body["text"], author.firstName, author.lastName, author.avatar, caller)]
                                     + posts[id].comments
                 && r.store.Keys == posts.Keys
                 && r.store[id] == posts[id].(comments := r.reply.value)
                 && OthersUnchanged(posts, r.store, id)
  {
    var errors := Violations(TextRules, body, env.isEmail);
    if errors != [] then Step(posts, Err(Reject(errors)))
    else
      assert Passes(TextRules[0], body, env.isEmail);
      var i := IndexOfId(users, caller);
      if !env.isObjectId(id) || i < 0 || id !in posts then Step(posts, Err(ServerError))
      else
        var author := users[i];
        var comment := Comment(newId, body["text"], author.firstName, author.lastName, author.avatar, caller);
        var comments := [comment] + posts[id].comments;
        Step(posts[id := posts[id].(comments := comments)], Ok(comments))
  }

  /** `DELETE /api/posts/:id/comment/:comment_id`, as written: a missing post
      is 404, then the comment-deletion rule decides. A malformed post id is
      not told apart here and answers 500. */
  function DeleteCommentOnPost(posts: PostStore, caller: Id, id: Id, commentId: Id, env: Env)
    : (r: Step<PostStore, seq<Comment>>)
    ensures r.reply.Err? ==> r.store == posts
    ensures !env.isObjectId(id) ==> r.reply == Err(ServerError)
    ensures env.isObjectId(id) && id !in posts ==> r.reply == Err(PostNotFound)
    ensures env.isObjectId(id) && id in posts ==>
              r.reply == DeleteCommentAsWritten(posts[id].comments, caller, commentId)
    ensures r.reply.Ok? ==> id in posts && r.store.Keys == posts.Keys
                            && r.store[id] == posts[id].(comments := r.reply.value)
                            && OthersUnchanged(posts, r.store, id)
  {
    if !env.isObjectId(id) then Step(posts, Err(ServerError))
    else if id !in posts then Step(posts, Err(PostNotFound))
    else
      match DeleteCommentAsWritten(posts[id].comments, caller, commentId)
      case Err(f) => Step(posts, Err(f))
      case Ok(comments) => Step(posts[id := posts[id].(comments := comments)], Ok(comments))
  }

  /** A new post starts with no likes, so creating one keeps the
      one-like-per-user invariant. */
  lemma {:induction false} CreatePostKeepsLikesUnique(users: UserStore, posts: PostStore, caller: Id,
                                                      body: Body, env: Env, newId: Id)
    requires LikesUnique(posts)
    ensures LikesUnique(CreatePost(users, posts, caller, body, env, newId).store)
  {
    var r := CreatePost(users, posts, caller, body, env, newId);
    if r.reply.Ok? {
      forall k | k in r.store
        ensures UniqueLikes(r.store[k].likes)
      {
        if k != newId {
          assert r.store[k] == posts[k];
        }
      }
    }
  }

  /** Rewriting one post without touching its likes keeps the invariant. */
  lemma {:induction false} SameLikesKeepUnique(posts: PostStore, after: PostStore, id: Id)
    requires LikesUnique(posts) && id in posts && after.Keys == posts.Keys
    requires after[id].likes == posts[id].likes && OthersUnchanged(posts, after, id)
    ensures LikesUnique(after)
  {
    forall k | k in after
      ensures UniqueLikes(after[k].likes)
    {
      if k != id {
        assert after[k] == posts[k];
      }
    }
  }

  /** Deleting a post or editing its comments leaves every likes list as it was. */
  lemma {:induction false} CommentRoutesKeepLikes(users: UserStore, posts: PostStore, caller: Id, id: Id,
                                                  commentId: Id, body: Body, env: Env, newId: Id)
    requires LikesUnique(posts)
    ensures LikesUnique(DeletePost(posts, caller, id, env).store)
    ensures LikesUnique(CommentOnPost(users, posts, caller, id, body, env, newId).store)
    ensures LikesUnique(DeleteCommentOnPost(posts, caller, id, commentId, env).store)
  {
    var c := CommentOnPost(users, posts, caller, id, body, env, newId);
    if c.reply.Ok? {
      SameLikesKeepUnique(posts, c.store, id);
    }
    var d := DeleteCommentOnPost(posts, caller, id, commentId, env);
    if d.reply.Ok? {
      SameLikesKeepUnique(posts, d.store, id);
    }
  }

  /** Read after write: a created post is what `GET /api/posts/:id` returns
      for its id. */
  lemma CreateThenGetPost(users: UserStore, posts: PostStore, caller: Id, body: Body, env: Env, newId: Id)
    requires env.isObjectId(newId)
    ensures var r := CreatePost(users, posts, caller, body, env, newId);
            r.reply.Ok? ==> GetPost(r.store, newId, env) == Ok(r.reply.value)
  {
  }
}
