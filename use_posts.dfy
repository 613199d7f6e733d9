/** The `usePosts` data hook: the post list, loading flag, error and pagination it keeps,
    `fetchPosts` split at its await into issuing the request and applying the outcome, and
    `deletePost`, which removes the post locally once the server has deleted it. */
module UsePosts {
  import opened Wrappers
  import Js
  import opened Api
  import opened ErrorHandler

  const LoadFailedMessage: string := "加载失败"
  const DeleteFailedMessage: string := "删除失败"

  /** `posts.filter(post => post.id !== id)`. */
  function WithoutId(posts: seq<Post>, id: int): (r: seq<Post>)
    ensures |r| <= |posts|
  {
    if posts == [] then []
    else (if posts[0].id != id then [posts[0]] else []) + WithoutId(posts[1..], id)
  }

  /** A post survives exactly when it was there and has another id. */
  lemma {:induction false} WithoutIdMembers(posts: seq<Post>, id: int, p: Post)
    ensures p in WithoutId(posts, id) <==> p in posts && p.id != id
  {
    if posts != [] {
      WithoutIdMembers(posts[1..], id, p);
      assert posts == [posts[0]] + posts[1..];
    }
  }

  /** Filtering distributes over concatenation: the survivors keep their relative order. */
  lemma {:induction false} WithoutIdConcat(a: seq<Post>, b: seq<Post>, id: int)
    ensures WithoutId(a + b, id) == WithoutId(a, id) + WithoutId(b, id)
  {
    if a == [] {
      assert a + b == b;
    } else {
      assert (a + b)[0] == a[0];
      assert (a + b)[1..] == a[1..] + b;
      WithoutIdConcat(a[1..], b, id);
    }
  }

  /** Nothing changes when no post has the id. */
  lemma {:induction false} WithoutAbsentId(posts: seq<Post>, id: int)
    requires forall i :: 0 <= i < |posts| ==> posts[i].id != id
    ensures WithoutId(posts, id) == posts
  {
    if posts != [] {
      WithoutAbsentId(posts[1..], id);
      assert [posts[0]] + posts[1..] == posts;
    }
  }

  /** Deleting the one post with a given id removes exactly that post and leaves the others
      in their order (deleting 3 from posts with ids 1, 2, 3, 4 leaves 1, 2, 4). */
  lemma RemoveUniqueId(posts: seq<Post>, i: nat)
    requires i < |posts|
    requires forall j :: 0 <= j < |posts| && j != i ==> posts[j].id != posts[i].id
    ensures WithoutId(posts, posts[i].id) == posts[..i] + posts[i + 1..]
  {
    var id, before, after := posts[i].id, posts[..i], posts[i + 1..];
    assert posts == before + ([posts[i]] + after);
    forall k | 0 <= k < |before| ensures before[k].id != id {
      assert before[k] == posts[k];
    }
    forall k | 0 <= k < |after| ensures after[k].id != id {
      assert after[k] == posts[i + 1 + k];
    }
    WithoutAbsentId(before, id);
    WithoutAbsentId(after, id);
    WithoutOwnId(posts[i], after);
    WithoutIdConcat(before, [posts[i]] + after, id);
    calc {
      WithoutId(posts, id);
      WithoutId(before + ([posts[i]] + after), id);
      WithoutId(before, id) + WithoutId([posts[i]] + after, id);
      before + WithoutId(after, id);
      before + after;
    }
  }

  lemma WithoutOwnId(p: Post, rest: seq<Post>)
    ensures WithoutId([p] + rest, p.id) == WithoutId(rest, p.id)
  {
    assert ([p] + rest)[1..] == rest;
  }

  class PostsHook {
    /** The `initialParams` the hook was created with. */
    const initialParams: Js.Object
    var posts: seq<Post>
    var loading: bool
    var error: Option<string>
    var pagination: Pagination

    constructor (initialParams: Js.Object)
      ensures this.initialParams == initialParams
      ensures posts == [] && !loading && error == None && pagination == Pagination(1, 10, 0)
    {
      this.initialParams := initialParams;
      posts := [];
      loading := false;
      error := None;
      pagination := Pagination(1, 10, 0);
    }

    /** `fetchPosts(params)` up to its await: loading on, error cleared, and the list request
        for the initial parameters overlaid by `params`. */
    method StartFetch(params: Js.Object) returns (call: ApiCall)
      modifies this`loading, this`error
      ensures call == ListPosts(Js.Spread(initialParams, params))
      ensures loading && error == None
    {
      loading := true;
      error := None;
      call := ListPosts(Js.Spread(initialParams, params));
    }

    /** `fetchPosts` after its await. On success the posts and the pagination are replaced by
        the response's; on failure only the error changes. Loading ends off either way. */
    method FinishFetch(outcome: Result<PostsResponse, Thrown>)
      modifies this`posts, this`pagination, this`error, this`loading
      ensures !loading
      ensures outcome.Success? ==>
                posts == outcome.value.posts
                && pagination == Pagination(outcome.value.page, outcome.value.limit, outcome.value.total)
                && error == old(error)
      ensures outcome.Failure? ==>
                posts == old(posts) && pagination == old(pagination)
                && error == Some(MessageOr(outcome.error, LoadFailedMessage))
    {
      match outcome {
        case Success(response) =>
          posts := response.posts;
          pagination := Pagination(response.page, response.limit, response.total);
        case Failure(err) =>
          error := Some(MessageOr(err, LoadFailedMessage));
      }
      loading := false;
    }

    /** `deletePost(id)`: it sends `apiService.deletePost(id)` (`call`, whose outcome is
        `outcome`); on success the posts with that id are filtered out and the result is true;
        on failure the error is set and the result is false. It never throws, and neither
        loading nor pagination changes. */
    method DeletePost<T>(id: int, outcome: Result<Reply<T>, Thrown>) returns (call: ApiCall, deleted: bool)
      modifies this`posts, this`error
      ensures call == Api.DeletePost(id)
      ensures RequestFor(call).verb == DELETE && RequestFor(call).endpoint == PostPath(id)
      ensures deleted <==> outcome.Success?
      ensures posts == if deleted then WithoutId(old(posts), id) else old(posts)
      ensures error == if deleted then old(error) else Some(MessageOr(outcome.error, DeleteFailedMessage))
    {
      call := Api.DeletePost(id);
      if outcome.Success? {
        posts := WithoutId(posts, id);
        deleted := true;
      } else {
        error := Some(MessageOr(outcome.error, DeleteFailedMessage));
        deleted := false;
      }
    }

    /** The `setError` the hook hands out. */
    method SetError(message: Option<string>)
      modifies this`error
      ensures error == message
    {
      error := message;
    }
  }
}
