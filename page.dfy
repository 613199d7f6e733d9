/** The `BlogSystem` page: its screen (list, create, view, edit), the selected post, the
    draft form, the filters, pagination, loading and error, and the handlers that change
    them. Each async handler is split at its await into `StartX`, which issues the request
    and returns it, and `FinishX`, which applies the outcome the network delivered. */
module Page {
  import opened Wrappers
  import Js
  import opened Api
  import opened ErrorHandler

  datatype Screen = ListScreen | CreateScreen | ViewScreen | EditScreen

  /** The form draft: the five text fields of a post. */
  datatype Draft = Draft(title: string, content: string, author: string, tags: string, category: string)

  const EmptyDraft: Draft := Draft("", "", "", "", "")

  /** The five form inputs. */
  datatype DraftField = TitleField | ContentField | AuthorField | CategoryField | TagsField

  /** The page size the page starts with and never changes. */
  const PageSize: int := 10

  const RequiredFieldsMessage: string := "标题和内容不能为空"
  const LoadPostsFailedMessage: string := "加载文章失败"
  const SubmitFailedMessage: string := "操作失败"
  const DeleteFailedMessage: string := "删除失败"

  /** The text fields of a post, as `handleEdit` copies them into the form. */
  function DraftOf(post: Post): (d: Draft)
    ensures d.title == post.title && d.content == post.content && d.author == post.author
    ensures d.category == post.category && d.tags == post.tags
  {
    Draft(post.title, post.content, post.author, post.tags, post.category)
  }

  function AsCreateRequest(d: Draft): CreatePostRequest {
    CreatePostRequest(d.title, d.content, Some(d.author), Some(d.category), Some(d.tags))
  }

  function AsUpdateRequest(d: Draft): UpdatePostRequest {
    UpdatePostRequest(Some(d.title), Some(d.content), Some(d.author), Some(d.category), Some(d.tags))
  }

  // ---- the list query ----

  /** `searchTerm || undefined`: an empty filter becomes `undefined`. */
  function OrUndefined(s: string): (v: Js.Value)
    ensures Sent(v) <==> s != ""
    ensures s != "" ==> v == Js.Str(s)
  {
    if s != "" then Js.Str(s) else Js.Undefined
  }

  function BaseQuery(pagination: Pagination, searchTerm: string, category: string): Js.Object {
    [Js.Entry("page", Js.Num(pagination.page)), Js.Entry("limit", Js.Num(pagination.limit)),
     Js.Entry("search", OrUndefined(searchTerm)), Js.Entry("category", OrUndefined(category))]
  }

  /** The query object of `loadPosts(params)`: page, limit, search and category from the page's
      state, then `params` spread over them. */
  function LoadQuery(pagination: Pagination, searchTerm: string, category: string, params: Js.Object): Js.Object {
    Js.Spread(BaseQuery(pagination, searchTerm, category), params)
  }

  lemma BaseQueryShape(pagination: Pagination, searchTerm: string, category: string)
    ensures var base := BaseQuery(pagination, searchTerm, category);
      Js.Keys(base) == ["page", "limit", "search", "category"]
      && Js.Get(base, "page") == Js.Num(pagination.page)
      && Js.Get(base, "limit") == Js.Num(pagination.limit)
      && Js.Get(base, "search") == OrUndefined(searchTerm)
      && Js.Get(base, "category") == OrUndefined(category)
      && Js.KeysDistinct(base)
  {
    var base := BaseQuery(pagination, searchTerm, category);
    assert base[1..][1..][1..] == [Js.Entry("category", OrUndefined(category))];
    assert Js.Find(base[1..][1..][1..], "category", Js.Undefined) == OrUndefined(category);
    assert Js.Find(base[1..][1..], "search", Js.Undefined) == OrUndefined(searchTerm);
    assert Js.Find(base[1..][1..], "category", Js.Undefined) == OrUndefined(category);
    assert Js.Find(base[1..], "search", Js.Undefined) == OrUndefined(searchTerm);
    assert Js.Find(base[1..], "category", Js.Undefined) == OrUndefined(category);
  }

  /** What `loadPosts` asks for: the current page and limit unless overridden, the search and
      category filters only when they are non-empty unless overridden, overrides winning. */
  lemma LoadQueryValues(pagination: Pagination, searchTerm: string, category: string, params: Js.Object, k: string)
    ensures var q := LoadQuery(pagination, searchTerm, category, params);
      (k in Js.Keys(params) ==> Js.Get(q, k) == Js.Get(params, k))
      && (k !in Js.Keys(params) && k == "page" ==> Js.Get(q, k) == Js.Num(pagination.page))
      && (k !in Js.Keys(params) && k == "limit" ==> Js.Get(q, k) == Js.Num(pagination.limit))
      && (k !in Js.Keys(params) && k == "search" ==> Js.Get(q, k) == OrUndefined(searchTerm))
      && (k !in Js.Keys(params) && k == "category" ==> Js.Get(q, k) == OrUndefined(category))
  {
    BaseQueryShape(pagination, searchTerm, category);
    Js.FindSpread(BaseQuery(pagination, searchTerm, category), params, k, Js.Undefined);
  }

  /** With no override for `search`, the search term is sent, as itself, exactly when it is
      non-empty (an empty search box never sends `search=`). */
  lemma SearchSentIffNonEmpty(pagination: Pagination, searchTerm: string, category: string,
                              params: Js.Object, s: string)
    requires Js.KeysDistinct(params) && "search" !in Js.Keys(params)
    ensures ("search", s) in QueryPairs(LoadQuery(pagination, searchTerm, category, params))
            <==> searchTerm != "" && s == searchTerm
  {
    var base := BaseQuery(pagination, searchTerm, category);
    var q := LoadQuery(pagination, searchTerm, category, params);
    BaseQueryShape(pagination, searchTerm, category);
    Js.SpreadDistinct(base, params);
    Js.FindSpread(base, params, "search", Js.Undefined);
    QueryPairsMember(q, "search", s);
  }

  /** The closure's page does not matter when the call overrides `page`, so reading the page
      before or after `setPagination` builds the same query. */
  lemma LoadQueryPageOverride(p1: Pagination, p2: Pagination, searchTerm: string, category: string,
                              params: Js.Object)
    requires "page" in Js.Keys(params) && p1.limit == p2.limit
    ensures LoadQuery(p1, searchTerm, category, params) == LoadQuery(p2, searchTerm, category, params)
  {
    var b1, b2 := BaseQuery(p1, searchTerm, category), BaseQuery(p2, searchTerm, category);
    BaseQueryShape(p1, searchTerm, category);
    BaseQueryShape(p2, searchTerm, category);
    assert b1[1..] == b2[1..];
    Js.FindDefault(params, "page", Js.Num(p1.page), Js.Num(p2.page));
    assert Js.Override(b1, params) == Js.Override(b2, params);
    Js.FreshSameKeys(params, b1, b2);
  }

  // ---- the pager ----

  /** `Math.ceil(total / limit)`. */
  function TotalPages(total: int, limit: int): (n: int)
    requires limit > 0
    ensures (n - 1) * limit < total <= n * limit
  {
    -((-total) / limit)
  }

  /** The pager is rendered only when there is more than one page. */
  predicate PagerShown(total: int, limit: int)
    requires limit > 0
  {
    TotalPages(total, limit) > 1
  }

  /** More than one page exactly when there are more posts than fit on one page. */
  lemma PagerShownIffOverflow(total: int, limit: int)
    requires limit > 0
    ensures PagerShown(total, limit) <==> total > limit
  {
    var n := TotalPages(total, limit);
    if n > 1 {
      assert (n - 1) * limit >= limit by {
        assert n - 1 >= 1;
      }
    } else {
      assert n * limit <= limit by {
        assert n <= 1;
      }
    }
  }

  lemma MultiplyMonotone(a: int, b: int, c: int)
    requires a <= b && c > 0
    ensures a * c <= b * c
  {
  }

  /** The page the "previous" button requests, or None while it is disabled (`page <= 1`). */
  function PrevTarget(page: int): (r: Option<int>)
    ensures r.Some? <==> page > 1
    ensures r.Some? ==> 1 <= r.value < page
  {
    if page <= 1 then None else Some(page - 1)
  }

  /** The page the "next" button requests, or None while it is disabled (`page >= totalPages`). */
  function NextTarget(page: int, totalPages: int): (r: Option<int>)
    ensures r.Some? <==> page < totalPages
    ensures r.Some? ==> page < r.value <= totalPages
  {
    if page >= totalPages then None else Some(page + 1)
  }

  /** What the pager shows: the targets of "previous" and "next" (None while disabled), and
      "page `page` of `totalPages`". */
  datatype PagerView = PagerView(prev: Option<int>, page: int, totalPages: int, next: Option<int>)

  // ---- the page state ----

  /** All the page's state at once, to state what each handler leaves unchanged. */
  datatype PageState = PageState(
    posts: seq<Post>, currentView: Screen, selectedPost: Option<Post>,
    searchTerm: string, selectedCategory: string, loading: bool, error: Option<string>,
    pagination: Pagination, formData: Draft)

  const InitialState: PageState :=
    PageState([], ListScreen, None, "", "", false, None, Pagination(1, PageSize, 0), EmptyDraft)

  class BlogSystem {
    var posts: seq<Post>
    var currentView: Screen
    var selectedPost: Option<Post>
    var searchTerm: string
    var selectedCategory: string
    var loading: bool
    var error: Option<string>
    var pagination: Pagination
    var formData: Draft

    /** The page size never changes, and the view and edit screens always have a selected
        post (so the view screen is never rendered empty). */
    ghost predicate Valid()
      reads this
    {
      pagination.limit == PageSize
      && (currentView == ViewScreen || currentView == EditScreen ==> selectedPost.Some?)
    }

    ghost function State(): PageState
      reads this
    {
      PageState(posts, currentView, selectedPost, searchTerm, selectedCategory, loading, error,
                pagination, formData)
    }

    /** `renderPagination`: hidden (None) unless there is more than one page; "next" never
        asks for a page past the last post, "previous" never for a page before the first. */
    function RenderPagination(): (r: Option<PagerView>)
      reads this
      requires Valid()
      ensures r.Some? <==> pagination.total > pagination.limit
      ensures r.Some? ==> r.value.page == pagination.page && r.value.totalPages > 1
      ensures r.Some? ==>
                (r.value.totalPages - 1) * pagination.limit < pagination.total
                <= r.value.totalPages * pagination.limit
      ensures r.Some? ==> (r.value.prev.Some? <==> pagination.page > 1)
      ensures r.Some? ==> (r.value.next.Some? <==> pagination.page < r.value.totalPages)
      ensures r.Some? && r.value.next.Some? ==>
                r.value.next.value == pagination.page + 1
                && (r.value.next.value - 1) * pagination.limit < pagination.total
      ensures r.Some? && r.value.prev.Some? ==> 1 <= r.value.prev.value == pagination.page - 1
    {
      PagerShownIffOverflow(pagination.total, pagination.limit);
      var totalPages := TotalPages(pagination.total, pagination.limit);
      if !PagerShown(pagination.total, pagination.limit) then None
      else
        var next := NextTarget(pagination.page, totalPages);
        assert next.Some? ==> (next.value - 1) * pagination.limit <= (totalPages - 1) * pagination.limit by {
          if next.Some? {
            MultiplyMonotone(next.value - 1, totalPages - 1, pagination.limit);
          }
        }
        Some(PagerView(PrevTarget(pagination.page), pagination.page, totalPages, next))
    }

    constructor ()
      ensures Valid() && State() == InitialState
    {
      posts := [];
      currentView := ListScreen;
      selectedPost := None;
      searchTerm := "";
      selectedCategory := "";
      loading := false;
      error := None;
      pagination := Pagination(1, PageSize, 0);
      formData := EmptyDraft;
    }

    /** `loadPosts(params)` up to its await: loading on, error cleared, and the list request. */
    method StartLoadPosts(params: Js.Object) returns (call: ApiCall)
      requires Valid()
      modifies this
      ensures Valid()
      ensures call == ListPosts(LoadQuery(old(pagination), old(searchTerm), old(selectedCategory), params))
      ensures State() == old(State()).(loading := true, error := None)
    {
      loading := true;
      error := None;
      call := ListPosts(LoadQuery(pagination, searchTerm, selectedCategory, params));
    }

    /** `loadPosts` after its await. On success the posts are replaced and the total and page
        taken from the response, the limit kept; on failure the posts stay and the error is
        set. Loading ends off either way. */
    method FinishLoadPosts(outcome: Result<PostsResponse, Thrown>)
      requires Valid()
      modifies this
      ensures Valid()
      ensures outcome.Success? ==>
                State() == old(State()).(posts := outcome.value.posts, loading := false,
                  pagination := old(pagination).(total := outcome.value.total, page := outcome.value.page))
      ensures outcome.Failure? ==>
                State() == old(State()).(loading := false,
                  error := Some(MessageOr(outcome.error, LoadPostsFailedMessage)))
    {
      match outcome {
        case Success(response) =>
          posts := response.posts;
          pagination := pagination.(total := response.total, page := response.page);
        case Failure(err) =>
          error := Some(MessageOr(err, LoadPostsFailedMessage));
      }
      loading := false;
    }

    /** The debounced filter effect once its timer fires: back to page 1 and load page 1. */
    method SettleFilters() returns (call: ApiCall)
      requires Valid()
      modifies this
      ensures Valid()
      ensures call == ListPosts(LoadQuery(old(pagination), old(searchTerm), old(selectedCategory),
                                          [Js.Entry("page", Js.Num(1))]))
      ensures State() == old(State()).(pagination := old(pagination).(page := 1), loading := true, error := None)
    {
      pagination := pagination.(page := 1);
      call := StartLoadPosts([Js.Entry("page", Js.Num(1))]);
      LoadQueryPageOverride(old(pagination), old(pagination).(page := 1), searchTerm, selectedCategory,
                            [Js.Entry("page", Js.Num(1))]);
    }

    /** `handlePageChange(newPage)`: the page is set as given, without clamping, and that page
        is requested. */
    method HandlePageChange(newPage: int) returns (call: ApiCall)
      requires Valid()
      modifies this
      ensures Valid()
      ensures call == ListPosts(LoadQuery(old(pagination), old(searchTerm), old(selectedCategory),
                                          [Js.Entry("page", Js.Num(newPage))]))
      ensures State() == old(State()).(pagination := old(pagination).(page := newPage), loading := true, error := None)
    {
      pagination := pagination.(page := newPage);
      call := StartLoadPosts([Js.Entry("page", Js.Num(newPage))]);
      LoadQueryPageOverride(old(pagination), old(pagination).(page := newPage), searchTerm, selectedCategory,
                            [Js.Entry("page", Js.Num(newPage))]);
    }

    /** `handleSubmit` up to its await. An empty title or content only sets the validation
        error and issues nothing. Otherwise loading goes on, the error is cleared, and the draft
        is sent as an update of the selected post exactly when the edit screen has one, and as
        a new post otherwise. */
    method StartSubmit() returns (call: Option<ApiCall>)
      requires Valid()
      modifies this
      ensures Valid()
      ensures call.None? <==> old(formData).title == "" || old(formData).content == ""
      ensures call.None? ==> State() == old(State()).(error := Some(RequiredFieldsMessage))
      ensures call.Some? ==> State() == old(State()).(loading := true, error := None)
      ensures call.Some? ==>
                (call.value.UpdatePost? <==> old(currentView) == EditScreen && old(selectedPost).Some?)
      ensures call.Some? && call.value.UpdatePost? ==>
                call.value == UpdatePost(old(selectedPost).value.id, AsUpdateRequest(old(formData)))
      ensures call.Some? && !call.value.UpdatePost? ==> call.value == CreatePost(AsCreateRequest(old(formData)))
    {
      if formData.title == "" || formData.content == "" {
        error := Some(RequiredFieldsMessage);
        return None;
      }
      loading := true;
      error := None;
      if currentView == EditScreen && selectedPost.Some? {
        call := Some(UpdatePost(selectedPost.value.id, AsUpdateRequest(formData)));
      } else {
        call := Some(CreatePost(AsCreateRequest(formData)));
      }
    }

    /** `handleSubmit` after its await. On success the draft is reset, the list screen shown
        and the list reloaded; the handler's own `finally` then turns loading off while that
        reload is still in flight. On failure screen and draft stay and the error is set. */
    method FinishSubmit<T>(outcome: Result<Reply<T>, Thrown>) returns (reload: Option<ApiCall>)
      requires Valid()
      modifies this
      ensures Valid()
      ensures reload.Some? <==> outcome.Success?
      ensures outcome.Success? ==>
                reload == Some(ListPosts(LoadQuery(old(pagination), old(searchTerm), old(selectedCategory), [])))
                && State() == old(State()).(formData := EmptyDraft, currentView := ListScreen,
                                            loading := false, error := None)
      ensures outcome.Failure? ==>
                State() == old(State()).(loading := false,
                                         error := Some(MessageOr(outcome.error, SubmitFailedMessage)))
    {
      reload := None;
      if outcome.Success? {
        formData := EmptyDraft;
        currentView := ListScreen;
        var call := StartLoadPosts([]);
        reload := Some(call);
      } else {
        error := Some(MessageOr(outcome.error, SubmitFailedMessage));
      }
      loading := false;
    }

    /** `handleDelete(id)` up to its await; `confirmed` is the user's answer to the dialog.
        Declining changes nothing and issues nothing. */
    method StartDelete(id: int, confirmed: bool) returns (call: Option<ApiCall>)
      requires Valid()
      modifies this
      ensures Valid()
      ensures call.Some? <==> confirmed
      ensures !confirmed ==> State() == old(State())
      ensures confirmed ==> call == Some(DeletePost(id)) && State() == old(State()).(loading := true, error := None)
    {
      if !confirmed {
        return None;
      }
      loading := true;
      error := None;
      call := Some(DeletePost(id));
    }

    /** `handleDelete` after its await. On success the page leaves a selected post with that id
        for the list screen and reloads the list (the post is not removed locally); the handler's
        `finally` turns loading off while the reload is in flight. On failure only the error is set. */
    method FinishDelete<T>(id: int, outcome: Result<Reply<T>, Thrown>) returns (reload: Option<ApiCall>)
      requires Valid()
      modifies this
      ensures Valid()
      ensures reload.Some? <==> outcome.Success?
      ensures posts == old(posts)
      ensures outcome.Success? ==>
                reload == Some(ListPosts(LoadQuery(old(pagination), old(searchTerm), old(selectedCategory), [])))
      ensures outcome.Success? && old(selectedPost).Some? && old(selectedPost).value.id == id ==>
                State() == old(State()).(currentView := ListScreen, selectedPost := None,
                                         loading := false, error := None)
      ensures outcome.Success? && !(old(selectedPost).Some? && old(selectedPost).value.id == id) ==>
                State() == old(State()).(loading := false, error := None)
      ensures outcome.Failure? ==>
                State() == old(State()).(loading := false,
                                         error := Some(MessageOr(outcome.error, DeleteFailedMessage)))
    {
      reload := None;
      if outcome.Success? {
        if selectedPost.Some? && selectedPost.value.id == id {
          currentView := ListScreen;
          selectedPost := None;
        }
        var call := StartLoadPosts([]);
        reload := Some(call);
      } else {
        error := Some(MessageOr(outcome.error, DeleteFailedMessage));
      }
      loading := false;
    }

    /** `handleView(post)` up to its await: the post is fetched again by id. */
    method StartView(post: Post) returns (call: ApiCall)
      requires Valid()
      modifies this
      ensures Valid()
      ensures call == GetPost(post.id)
      ensures State() == old(State()).(loading := true, error := None)
    {
      loading := true;
      error := None;
      call := GetPost(post.id);
    }

    /** `handleView` after its await: on success the fetched post (with the server's view
        count) becomes the selected post and the view screen is shown; on failure the screen
        stays and the error is set. */
    method FinishView(outcome: Result<Post, Thrown>)
      requires Valid()
      modifies this
      ensures Valid()
      ensures outcome.Success? ==>
                State() == old(State()).(selectedPost := Some(outcome.value), currentView := ViewScreen,
                                         loading := false)
      ensures outcome.Failure? ==>
                State() == old(State()).(loading := false,
                                         error := Some(MessageOr(outcome.error, LoadPostsFailedMessage)))
    {
      match outcome {
        case Success(fetched) =>
          selectedPost := Some(fetched);
          currentView := ViewScreen;
        case Failure(err) =>
          error := Some(MessageOr(err, LoadPostsFailedMessage));
      }
      loading := false;
    }

    /** `handleEdit(post)`: the post becomes the selected one, its text fields fill the
        draft, and the edit screen is shown. */
    method HandleEdit(post: Post)
      requires Valid()
      modifies this
      ensures Valid()
      ensures State() == old(State()).(selectedPost := Some(post), formData := DraftOf(post),
                                       currentView := EditScreen)
    {
      selectedPost := Some(post);
      formData := DraftOf(post);
      currentView := EditScreen;
    }

    /** The form's cancel button: back to the list with an empty draft and no selected post. */
    method Cancel()
      requires Valid()
      modifies this
      ensures Valid()
      ensures State() == old(State()).(currentView := ListScreen, formData := EmptyDraft, selectedPost := None)
    {
      currentView := ListScreen;
      formData := EmptyDraft;
      selectedPost := None;
    }

    /** The "new post" buttons: only the screen changes; draft and selected post are kept. */
    method ShowCreate()
      requires Valid()
      modifies this
      ensures Valid()
      ensures State() == old(State()).(currentView := CreateScreen)
    {
      currentView := CreateScreen;
    }

    /** The "post list" and "back to list" buttons: only the screen changes. */
    method ShowList()
      requires Valid()
      modifies this
      ensures Valid()
      ensures State() == old(State()).(currentView := ListScreen)
    {
      currentView := ListScreen;
    }

    /** The close button of the error banner. */
    method DismissError()
      requires Valid()
      modifies this
      ensures Valid()
      ensures State() == old(State()).(error := None)
    {
      error := None;
    }

    /** Typing in the search box. */
    method SetSearchTerm(term: string)
      requires Valid()
      modifies this
      ensures Valid()
      ensures State() == old(State()).(searchTerm := term)
    {
      searchTerm := term;
    }

    /** Choosing a category. */
    method SelectCategory(category: string)
      requires Valid()
      modifies this
      ensures Valid()
      ensures State() == old(State()).(selectedCategory := category)
    {
      selectedCategory := category;
    }

    /** Typing in one of the form inputs: that field of the draft takes the value. */
    method EditDraft(field: DraftField, value: string)
      requires Valid()
      modifies this
      ensures Valid()
      ensures State() == old(State()).(formData := match field
                                         case TitleField => old(formData).(title := value)
                                         case ContentField => old(formData).(content := value)
                                         case AuthorField => old(formData).(author := value)
                                         case CategoryField => old(formData).(category := value)
                                         case TagsField => old(formData).(tags := value))
    {
      match field {
        case TitleField => formData := formData.(title := value);
        case ContentField => formData := formData.(content := value);
        case AuthorField => formData := formData.(author := value);
        case CategoryField => formData := formData.(category := value);
        case TagsField => formData := formData.(tags := value);
      }
    }
  }
}
