/** The API client: how each operation becomes an HTTP request (method, endpoint, headers,
    body), how the list query becomes a query string, and how a response becomes a value,
    an empty result or a thrown error. The network itself is an input (`Transport`). */
module Api {
  import opened Wrappers
  import opened Numbers
  import Js
  import FormUrlencoded
  import opened ErrorHandler

  datatype Post = Post(
    id: int, title: string, content: string, author: string, category: string,
    tags: string, views: int, createdAt: string, updatedAt: string)

  datatype CreatePostRequest = CreatePostRequest(
    title: string, content: string,
    author: Option<string>, category: Option<string>, tags: Option<string>)

  /** Every field optional: a partial update. */
  datatype UpdatePostRequest = UpdatePostRequest(
    title: Option<string>, content: Option<string>,
    author: Option<string>, category: Option<string>, tags: Option<string>)

  datatype PostsResponse = PostsResponse(posts: seq<Post>, total: int, page: int, limit: int)

  /** Pagination as the UI keeps it. */
  datatype Pagination = Pagination(page: int, limit: int, total: int)

  // ---- building requests ----

  datatype Method = GET | POST | PATCH | DELETE

  /** The JSON body of a write; its serialisation is not part of this model. */
  datatype RequestBody = CreateBody(create: CreatePostRequest) | UpdateBody(update: UpdatePostRequest)

  /** A property of a `RequestInit` object as the client fills it: `method`, `body` or
      `headers` (an object of header names and string values). */
  datatype Init =
    | MethodInit(verb: Method)
    | BodyInit(body: RequestBody)
    | HeadersInit(headers: Js.Object)
    | UndefinedInit  // what reading a property the object does not have gives

  /** A `RequestInit` object: the `options` a caller hands to the private `request`, and the
      `config` handed on to `fetch`. */
  type RequestInit = Js.Props<Init>

  /** What is handed to `fetch`; `endpoint` is appended to the configured base URL. */
  datatype HttpRequest = HttpRequest(
    verb: Method, endpoint: string, headers: Js.Object, body: Option<RequestBody>)

  const JsonHeaders: Js.Object := [Js.Entry("Content-Type", Js.Str("application/json"))]

  /** `init.method`, read as `fetch` does: GET when there is none. */
  function MethodOf(init: RequestInit): Method {
    match Js.Find(init, "method", UndefinedInit)
    case MethodInit(m) => m
    case _ => GET
  }

  /** `init.body`: `None` when there is none. */
  function BodyOf(init: RequestInit): Option<RequestBody> {
    match Js.Find(init, "body", UndefinedInit)
    case BodyInit(b) => Some(b)
    case _ => None
  }

  /** `init.headers` as an object; a missing one spreads as nothing, so it reads as `{}`. */
  function HeadersOf(init: RequestInit): Js.Object {
    match Js.Find(init, "headers", UndefinedInit)
    case HeadersInit(h) => h
    case _ => []
  }

  /** The `config` object of `request`:
      `{headers: {'Content-Type': 'application/json', ...options.headers}, ...options}`. */
  function Config(options: RequestInit): RequestInit {
    Js.Spread([Js.Entry("headers", HeadersInit(Js.Spread(JsonHeaders, HeadersOf(options))))], options)
  }

  /** The request `fetch` sends for `config`. Because `...options` is spread last, a caller's
      own `headers` replace the merged headers wholesale, and method and body are the caller's. */
  function Configure(endpoint: string, options: RequestInit): (r: HttpRequest)
    ensures r.endpoint == endpoint
    ensures r.verb == MethodOf(options) && r.body == BodyOf(options)
    ensures "headers" !in Js.Keys(options) ==> r.headers == JsonHeaders
    ensures "headers" in Js.Keys(options) ==> r.headers == HeadersOf(options)
  {
    ConfigKeepsOptions(options, "method");
    ConfigKeepsOptions(options, "body");
    ConfigHeaders(options);
    var config := Config(options);
    HttpRequest(MethodOf(config), endpoint, HeadersOf(config), BodyOf(config))
  }

  /** Every property of `config` other than `headers` is the caller's. */
  lemma ConfigKeepsOptions(options: RequestInit, k: string)
    requires k != "headers"
    ensures Js.Find(Config(options), k, UndefinedInit) == Js.Find(options, k, UndefinedInit)
  {
    var base := [Js.Entry("headers", HeadersInit(Js.Spread(JsonHeaders, HeadersOf(options))))];
    assert Js.Keys(base) == ["headers"];
    Js.FindSpread(base, options, k, UndefinedInit);
  }

  /** The headers of `config`: the caller's when it has a `headers` property, otherwise the
      JSON defaults. */
  lemma ConfigHeaders(options: RequestInit)
    ensures "headers" !in Js.Keys(options) ==> HeadersOf(Config(options)) == JsonHeaders
    ensures "headers" in Js.Keys(options) ==> HeadersOf(Config(options)) == HeadersOf(options)
  {
    var merged := Js.Spread(JsonHeaders, HeadersOf(options));
    var base := [Js.Entry("headers", HeadersInit(merged))];
    assert Js.Keys(base) == ["headers"];
    Js.FindSpread(base, options, "headers", UndefinedInit);
    if "headers" !in Js.Keys(options) {
      assert HeadersOf(options) == [];
      assert Js.Override(JsonHeaders, []) == JsonHeaders;
      assert merged == JsonHeaders;
    }
  }

  /** A caller's own headers would lose the JSON content type unless they name it again. */
  lemma CallerHeadersDropJsonContentType(endpoint: string, headers: Js.Object)
    requires "Content-Type" !in Js.Keys(headers)
    ensures "Content-Type" !in Js.Keys(Configure(endpoint, [Js.Entry("headers", HeadersInit(headers))]).headers)
  {
  }

  /** An entry of the query object reaches the query string unless it is `undefined`, `null`
      or the empty string (a strict comparison: `0` and `false` are sent). */
  predicate Sent(v: Js.Value) {
    v != Js.Undefined && v != Js.Null && v != Js.Str("")
  }

  /** The pairs `getPosts` appends, `key=value.toString()`, in the object's property order. */
  function QueryPairs(params: Js.Object): seq<(string, string)> {
    if params == [] then []
    else
      var last := params[|params| - 1];
      QueryPairs(params[..|params| - 1])
        + (if Sent(last.value) then [(last.key, Js.ToString(last.value))] else [])
  }

  /** The list endpoint: `/posts` when no pair survives, `/posts?<query>` otherwise. */
  function ListEndpoint(params: Js.Object): string {
    var query := FormUrlencoded.Serialize(QueryPairs(params));
    if query != "" then "/posts?" + query else "/posts"
  }

  /** One API operation with its arguments. */
  datatype ApiCall =
    | ListPosts(params: Js.Object)
    | GetPost(id: int)
    | CreatePost(create: CreatePostRequest)
    | UpdatePost(id: int, update: UpdatePostRequest)
    | DeletePost(id: int)
    | GetCategories
    | GetAuthors

  function PostPath(id: int): string {
    "/posts/" + IntToString(id)
  }

  function Endpoint(call: ApiCall): string {
    match call
    case ListPosts(params) => ListEndpoint(params)
    case GetPost(id) => PostPath(id)
    case CreatePost(_) => "/posts"
    case UpdatePost(id, _) => PostPath(id)
    case DeletePost(id) => PostPath(id)
    case GetCategories => "/posts/categories"
    case GetAuthors => "/posts/authors"
  }

  /** The `options` each operation passes, properties in the order written: `{method, body}`
      for the writes, `{method}` for a delete, none for the reads; no operation passes `headers`. */
  function Options(call: ApiCall): RequestInit {
    match call
    case CreatePost(data) => [Js.Entry("method", MethodInit(POST)), Js.Entry("body", BodyInit(CreateBody(data)))]
    case UpdatePost(_, data) => [Js.Entry("method", MethodInit(PATCH)), Js.Entry("body", BodyInit(UpdateBody(data)))]
    case DeletePost(_) => [Js.Entry("method", MethodInit(DELETE))]
    case _ => []
  }

  /** The request an operation sends: every one carries exactly the JSON content type; the
      writes send POST or PATCH with their data, a delete sends DELETE, the reads GET. */
  function RequestFor(call: ApiCall): (r: HttpRequest)
    ensures r.endpoint == Endpoint(call)
    ensures r.headers == JsonHeaders
    ensures r.verb == match call
                      case CreatePost(_) => POST
                      case UpdatePost(_, _) => PATCH
                      case DeletePost(_) => DELETE
                      case _ => GET
    ensures r.body == match call
                      case CreatePost(data) => Some(CreateBody(data))
                      case UpdatePost(_, data) => Some(UpdateBody(data))
                      case _ => None
  {
    Configure(Endpoint(call), Options(call))
  }

  /** `getPosts`: appends every surviving entry in a loop, then picks the endpoint. */
  method GetPostsRequest(params: Js.Object) returns (req: HttpRequest)
    ensures req == RequestFor(ListPosts(params))
    ensures req.verb == GET && req.body == None
  {
    var pairs: seq<(string, string)> := [];
    var i := 0;
    while i < |params|
      invariant 0 <= i <= |params|
      invariant pairs == QueryPairs(params[..i])
    {
      var entry := params[i];
      assert params[..i + 1][..i] == params[..i];
      if Sent(entry.value) {
        pairs := pairs + [(entry.key, Js.ToString(entry.value))];
      }
      i := i + 1;
    }
    assert params[..i] == params;
    var query := FormUrlencoded.Serialize(pairs);
    var endpoint := if query != "" then "/posts?" + query else "/posts";
    req := Configure(endpoint, []);
  }

  // ---- properties of the query string ----

  lemma {:induction false} QueryPairsConcat(a: Js.Object, b: Js.Object)
    ensures QueryPairs(a + b) == QueryPairs(a) + QueryPairs(b)
    decreases |b|
  {
    if b == [] {
      assert a + b == a;
    } else {
      var b' := b[..|b| - 1];
      assert (a + b)[..|a + b| - 1] == a + b';
      assert (a + b)[|a + b| - 1] == b[|b| - 1];
      QueryPairsConcat(a, b');
    }
  }

  /** A pair `(k, s)` is in the query exactly when the object has property `k`, its value is
      neither `undefined`, `null` nor `''`, and `s` is that value's string form. */
  lemma {:induction false} QueryPairsMember(params: Js.Object, k: string, s: string)
    requires Js.KeysDistinct(params)
    ensures (k, s) in QueryPairs(params)
            <==> k in Js.Keys(params) && Sent(Js.Get(params, k)) && s == Js.ToString(Js.Get(params, k))
    decreases |params|
  {
    if params != [] {
      var init, last := params[..|params| - 1], params[|params| - 1];
      assert params == init + [last];
      QueryPairsMember(init, k, s);
      Js.FindConcat(init, [last], k, Js.Undefined);
      Js.KeysConcat(init, [last]);
      if last.key == k {
        assert k !in Js.Keys(init) by {
          forall i | 0 <= i < |init| ensures Js.Keys(init)[i] != k {
            assert init[i] == params[i];
          }
        }
      }
    }
  }

  /** Each key is sent at most once when the object names each property once. */
  lemma {:induction false} QueryKeysDistinct(params: Js.Object)
    requires Js.KeysDistinct(params)
    ensures forall i, j :: 0 <= i < j < |QueryPairs(params)| ==> QueryPairs(params)[i].0 != QueryPairs(params)[j].0
    decreases |params|
  {
    if params != [] {
      var init, last := params[..|params| - 1], params[|params| - 1];
      QueryKeysDistinct(init);
      var pairs := QueryPairs(init);
      forall p | p in pairs ensures p.0 != last.key {
        QueryPairsMember(init, p.0, p.1);
        var i :| 0 <= i < |init| && Js.Keys(init)[i] == p.0;
        assert params[i] == init[i];
      }
    }
  }

  /** The endpoint is `/posts` exactly when nothing survives the filter, and otherwise
      `/posts?` followed by the serialized pairs. */
  lemma ListEndpointChoice(params: Js.Object)
    ensures ListEndpoint(params) == "/posts" <==> QueryPairs(params) == []
    ensures QueryPairs(params) != [] ==>
              ListEndpoint(params) == "/posts?" + FormUrlencoded.Serialize(QueryPairs(params))
  {
    FormUrlencoded.SerializeEmpty(QueryPairs(params));
  }

  /** `{search: '', category: 'tech', page: 2}` sends only `category=tech` and `page=2`. */
  lemma EmptySearchNotSent()
    ensures QueryPairs([Js.Entry("search", Js.Str("")), Js.Entry("category", Js.Str("tech")),
                        Js.Entry("page", Js.Num(2))]) == [("category", "tech"), ("page", "2")]
  {
    var params := [Js.Entry("search", Js.Str("")), Js.Entry("category", Js.Str("tech")), Js.Entry("page", Js.Num(2))];
    assert params[..1] == [params[0]] && params[..1][..0] == [];
    assert QueryPairs(params[..1]) == [];
    assert params[..2][..1] == params[..1];
    assert QueryPairs(params[..2]) == [("category", "tech")];
    assert IntToString(2) == "2";
    assert params[..2] == params[..|params| - 1];
  }

  /** Page `0` is not filtered out: `{page: 0}` sends `page=0`. */
  lemma PageZeroIsSent()
    ensures QueryPairs([Js.Entry("page", Js.Num(0))]) == [("page", "0")]
  {
    var params := [Js.Entry("page", Js.Num(0))];
    assert params[..0] == [];
  }

  // ---- routing: the server's reading of a request ----

  /** What the server is asked to do, with the query as the bytes it decodes. */
  datatype Intent =
    | ListIntent(query: seq<(seq<FormUrlencoded.Byte>, seq<FormUrlencoded.Byte>)>)
    | ReadIntent(id: int)
    | CreateIntent(create: CreatePostRequest)
    | UpdateIntent(id: int, update: UpdatePostRequest)
    | DeleteIntent(id: int)
    | CategoriesIntent
    | AuthorsIntent

  function IntentOf(call: ApiCall): Intent {
    match call
    case ListPosts(params) => ListIntent(FormUrlencoded.EncodedPairs(QueryPairs(params)))
    case GetPost(id) => ReadIntent(id)
    case CreatePost(data) => CreateIntent(data)
    case UpdatePost(id, data) => UpdateIntent(id, data)
    case DeletePost(id) => DeleteIntent(id)
    case GetCategories => CategoriesIntent
    case GetAuthors => AuthorsIntent
  }

  /** The route table of the method/path pairs above, read from the request alone. */
  function RouteOf(req: HttpRequest): Option<Intent> {
    var e := req.endpoint;
    if e == "/posts" then
      if req.verb == GET then Some(ListIntent([]))
      else if req.verb == POST && req.body.Some? && req.body.value.CreateBody?
      then Some(CreateIntent(req.body.value.create))
      else None
    else if |e| > 7 && e[..7] == "/posts?" then
      var query := FormUrlencoded.Parse(e[7..]);
      if req.verb == GET && query.Some? then Some(ListIntent(query.value)) else None
    else if e == "/posts/categories" then
      if req.verb == GET then Some(CategoriesIntent) else None
    else if e == "/posts/authors" then
      if req.verb == GET then Some(AuthorsIntent) else None
    else if |e| > 7 && e[..7] == "/posts/" then
      var id := ParseInt(e[7..]);
      if id.None? then None
      else if req.verb == GET then Some(ReadIntent(id.value))
      else if req.verb == DELETE then Some(DeleteIntent(id.value))
      else if req.verb == PATCH && req.body.Some? && req.body.value.UpdateBody?
      then Some(UpdateIntent(id.value, req.body.value.update))
      else None
    else None
  }

  lemma PostPathRoute(id: int)
    ensures var e := PostPath(id);
      e != "/posts" && e != "/posts/categories" && e != "/posts/authors"
      && |e| > 7 && e[..7] == "/posts/" && e[..7] != "/posts?" && ParseInt(e[7..]) == Some(id)
  {
    var e := PostPath(id);
    assert e[7] == IntToString(id)[0];
    assert e[7..] == IntToString(id);
    ParseIntToString(id);
  }

  lemma ListRoute(params: Js.Object)
    ensures RouteOf(RequestFor(ListPosts(params))) == Some(IntentOf(ListPosts(params)))
  {
    var pairs := QueryPairs(params);
    ListEndpointChoice(params);
    if pairs != [] {
      var e := ListEndpoint(params);
      assert e[..7] == "/posts?";
      assert e[7..] == FormUrlencoded.Serialize(pairs);
      FormUrlencoded.ParseSerialize(pairs);
    }
  }

  /** Every request is routed back to the operation and arguments that built it, so the
      method/path table is unambiguous (e.g. `/posts/categories` is never read as a post id). */
  lemma RouteRoundTrip(call: ApiCall)
    ensures RouteOf(RequestFor(call)) == Some(IntentOf(call))
  {
    match call
    case ListPosts(params) => ListRoute(params);
    case GetPost(id) => ReadRoute(id);
    case UpdatePost(id, data) => UpdateRoute(id, data);
    case DeletePost(id) => DeleteRoute(id);
    case CreatePost(data) => CreateRoute(data);
    case GetCategories => CategoriesRoute();
    case GetAuthors => AuthorsRoute();
  }

  /** How a request to a post's own path is routed. */
  lemma PostPathRequestRoute(req: HttpRequest, id: int)
    requires req.endpoint == PostPath(id)
    ensures RouteOf(req) ==
              if req.verb == GET then Some(ReadIntent(id))
              else if req.verb == DELETE then Some(DeleteIntent(id))
              else if req.verb == PATCH && req.body.Some? && req.body.value.UpdateBody?
              then Some(UpdateIntent(id, req.body.value.update))
              else None
  {
    PostPathRoute(id);
  }

  lemma ReadRoute(id: int)
    ensures RouteOf(RequestFor(GetPost(id))) == Some(ReadIntent(id))
  {
    PostPathRequestRoute(RequestFor(GetPost(id)), id);
  }

  lemma UpdateRoute(id: int, data: UpdatePostRequest)
    ensures RouteOf(RequestFor(UpdatePost(id, data))) == Some(UpdateIntent(id, data))
  {
    PostPathRequestRoute(RequestFor(UpdatePost(id, data)), id);
  }

  lemma DeleteRoute(id: int)
    ensures RouteOf(RequestFor(DeletePost(id))) == Some(DeleteIntent(id))
  {
    PostPathRequestRoute(RequestFor(DeletePost(id)), id);
  }

  lemma CreateRoute(data: CreatePostRequest)
    ensures RouteOf(RequestFor(CreatePost(data))) == Some(CreateIntent(data))
  {
  }

  /** How a request to `/posts/categories` or `/posts/authors` is routed. */
  lemma ListingRequestRoute(req: HttpRequest)
    requires req.endpoint == "/posts/categories" || req.endpoint == "/posts/authors"
    ensures req.endpoint == "/posts/categories" ==>
              RouteOf(req) == if req.verb == GET then Some(CategoriesIntent) else None
    ensures req.endpoint == "/posts/authors" ==>
              RouteOf(req) == if req.verb == GET then Some(AuthorsIntent) else None
  {
    var e := req.endpoint;
    assert e != "/posts";
    assert e[..7] != "/posts?" by { assert e[6] == '/'; }
    assert "/posts/authors" != "/posts/categories";
  }

  lemma CategoriesRoute()
    ensures RouteOf(RequestFor(GetCategories)) == Some(CategoriesIntent)
  {
    ListingRequestRoute(RequestFor(GetCategories));
  }

  lemma AuthorsRoute()
    ensures RouteOf(RequestFor(GetAuthors)) == Some(AuthorsIntent)
  {
    ListingRequestRoute(RequestFor(GetAuthors));
  }

  /** Operations the server must tell apart send different requests. */
  lemma RequestsDistinguishable(a: ApiCall, b: ApiCall)
    requires IntentOf(a) != IntentOf(b)
    ensures RequestFor(a) != RequestFor(b)
  {
    RouteRoundTrip(a);
    RouteRoundTrip(b);
  }

  // ---- handling the response ----

  /** The parsed body: `message` is its `message` property (`undefined` when absent). */
  datatype ResponseBody<T> = Unparsable(syntaxError: string) | Json(message: Js.Value, value: T)

  datatype Response<T> = Response(status: int, body: ResponseBody<T>)

  /** What `fetch` does: reject (network failure, with its reason) or answer. */
  datatype Transport<T> = Rejected(reason: Thrown) | Answered(response: Response<T>)

  /** A resolved `request`: `{}` for 204, otherwise the parsed body. */
  datatype Reply<T> = NoContent | Payload(value: T)

  /** `response.ok`. */
  predicate IsOk(status: int) {
    200 <= status <= 299
  }

  const HttpErrorPrefix: string := "HTTP error! status: "

  /** The message of the error thrown for a non-ok answer: the body's `message` if truthy,
      otherwise one naming the status; an unparsable body counts as `{}`. */
  function HttpErrorMessage<T>(resp: Response<T>): string {
    var message := if resp.body.Json? then resp.body.message else Js.Undefined;
    if Js.Truthy(message) then Js.ToString(message) else HttpErrorPrefix + IntToString(resp.status)
  }

  /** `request` after `fetch`: the ok check first, then 204 (body not read), then the JSON body.
      Whatever was thrown inside is re-thrown unchanged. */
  function Perform<T>(t: Transport<T>): (r: Result<Reply<T>, Thrown>)
    ensures t.Rejected? ==> r == Failure(t.reason)
    ensures r.Success? <==>
              t.Answered? && IsOk(t.response.status)
              && (t.response.status == 204 || t.response.body.Json?)
    ensures (r.Success? && r.value.NoContent?) <==> t.Answered? && t.response.status == 204
    ensures t.Answered? && r.Failure? ==> r.error.ErrorValue?
    ensures r.Success? && r.value.Payload? ==>
              t.Answered? && t.response.body.Json? && r.value.value == t.response.body.value
    ensures t.Answered? && !IsOk(t.response.status) ==>
              r == Failure(ErrorValue("Error", HttpErrorMessage(t.response)))
    ensures t.Answered? && IsOk(t.response.status) && t.response.status != 204
            && t.response.body.Unparsable? ==>
              r == Failure(ErrorValue("SyntaxError", t.response.body.syntaxError))
  {
    match t
    case Rejected(reason) => Failure(reason)
    case Answered(resp) =>
      if !IsOk(resp.status) then Failure(ErrorValue("Error", HttpErrorMessage(resp)))
      else if resp.status == 204 then Success(NoContent)
      else
        match resp.body
        case Unparsable(syntaxError) => Failure(ErrorValue("SyntaxError", syntaxError))
        case Json(_, value) => Success(Payload(value))
  }

  /** A 204 answer resolves to the empty result whatever its body holds. */
  lemma NoContentIgnoresBody<T>(b1: ResponseBody<T>, b2: ResponseBody<T>)
    ensures Perform(Answered(Response(204, b1))) == Perform(Answered(Response(204, b2))) == Success(NoContent)
  {
  }

  /** A non-ok answer is shown with the body's message when it has a truthy one, otherwise with
      a message from which the status can be read back; no handler's fallback text is used, and
      the message is never empty, so the error banner always appears. */
  lemma HttpFailureMessage<T>(resp: Response<T>, fallback: string)
    requires !IsOk(resp.status)
    ensures Perform(Answered(resp)).Failure?
    ensures var m := MessageOr(Perform(Answered(resp)).error, fallback);
      m == HandleApiError(Perform(Answered(resp)).error)
      && m != ""
      && (resp.body.Json? && Js.Truthy(resp.body.message) ==> m == Js.ToString(resp.body.message))
      && (!(resp.body.Json? && Js.Truthy(resp.body.message)) ==>
            |m| > |HttpErrorPrefix| && m[..|HttpErrorPrefix|] == HttpErrorPrefix
            && ParseInt(m[|HttpErrorPrefix|..]) == Some(resp.status))
  {
    var m := HttpErrorMessage(resp);
    if resp.body.Json? && Js.Truthy(resp.body.message) {
      Js.TruthyToStringNonEmpty(resp.body.message);
    } else {
      assert m[|HttpErrorPrefix|..] == IntToString(resp.status);
      ParseIntToString(resp.status);
    }
  }
}
