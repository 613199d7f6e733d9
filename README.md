# Blog administration UI: client data layer in Dafny

This project models the client-side data and view-state layer of a single-page blog
administration UI. The UI lists, searches, filters, paginates, creates, edits and deletes
posts held by a remote HTTP API. The model covers four parts:

- **API client** (`api.dfy`, with `form_urlencoded.dfy`, `js.dfy`, `numbers.dfy`):
  - Each operation (`getPosts`, `getPost`, `createPost`, `updatePost`, `deletePost`,
    `getCategories`, `getAuthors`) becomes an `HttpRequest` with a method, an endpoint, headers
    and a body. The `config` object is built with the same model of object spread as the
    query objects, so which headers, method and body reach `fetch` follows from the spread itself.
    A route table (`RouteOf`) reads a request back into the operation that built it.
  - `getPosts` builds its query with a loop, as the source does. It drops entries that are
    `undefined`, `null` or `''` and serializes the rest. The serializer is modelled at byte
    level: the WHATWG URL Standard's application/x-www-form-urlencoded serializer
    (section 5.2), which is what `URLSearchParams` runs. A strict reader of its output is the
    partner for a round-trip proof.
  - `request` after `fetch` (`Perform`) decides from the status and the body. The outcome is
    a value, an empty result for 204, or a thrown error.
- **Error normaliser** (`error_handler.dfy`): the `ApiError` record and `handleApiError`. It
  also holds the expression `err instanceof Error ? err.message : fallback`, which every
  handler uses.
- **`usePosts` hook** (`use_posts.dfy`): a class holding posts, loading, error and
  pagination. It has `fetchPosts` and `deletePost`.
- **`BlogSystem` page** (`page.dfy`): a class with the screen (`list | create | view | edit`),
  the selected post, the draft form, the filters, pagination, loading and error. It has every
  handler and the pager arithmetic.
  - The class invariant `Valid()` says the page size stays 10. It also says the view and edit
    screens always have a selected post, so the view screen's guard (src/app/page.tsx:582) never
    hides it.

Each async handler is split at its `await`:

- `StartX` issues the request and returns it as an `ApiCall`.
- `FinishX` takes the outcome as a `Result` and applies it.

The network's answer is therefore an input, and `Api.Perform` maps a raw `Transport` to such an
outcome. The mount effects (hooks/usePosts.ts:48-50, src/app/page.tsx:68-71) are
`StartFetch([])` and `StartLoadPosts([])`.

Behaviour of the code worth knowing:

- The client throws plain `Error`s, never `ApiError`, so the HTTP status is not kept with the
  error. The ensures clause `t.Answered? && r.Failure? ==> r.error.ErrorValue?` of `Api.Perform`
  states this.
- The "new post" buttons only switch screen. They neither reset the draft nor clear the selected
  post (`Page.BlogSystem.ShowCreate`).
- Delete on the page reloads the list instead of removing the post locally. The hook's
  `deletePost` does remove it locally.
- After a successful submit or delete, loading is off while the reload is still in flight. The
  handler's `finally` runs after the synchronous start of `loadPosts`.
- The page's `loadPosts` takes only `total` and `page` from the response and keeps its own
  `limit`. The hook takes all three.
- The selected post stays set on the list and create screens, except after cancel and after
  deleting that post.

## Model

| member | source | states |
|---|---|---|
| Numbers.ParseIntToString | src/lib/api.ts:93 | an integer printed as in `${id}` reads back as the same integer |
| Numbers.IntToStringInjective | src/lib/api.ts:93 | distinct post ids give distinct path segments |
| Js.FindSpread | hooks/usePosts.ts:19-22 | in `{...base, ...over}`, a key of `over` takes its value from `over` and any other key keeps its value from `base`; the keys are those of both objects |
| Js.SpreadKeepsBaseOrder | src/app/page.tsx:35-41 | the spread object lists the base object's keys first, in their order |
| Js.SpreadDistinct | hooks/usePosts.ts:19-22 | spreading two objects that name each key once gives an object that names each key once |
| Js.FreshSameKeys | src/app/page.tsx:35-41 | which override keys are appended depends only on the base's keys |
| Js.TruthyToStringNonEmpty | src/lib/api.ts:60 | a truthy value never prints as the empty string |
| FormUrlencoded.DecodeEncodeBytes | src/lib/api.ts:85 | percent-encoding loses nothing: the strict reader gives back the encoded bytes |
| FormUrlencoded.EncodeDecodeBytes | src/lib/api.ts:85 | the reader accepts nothing but the serializer's output: whatever it reads, the serializer writes back as exactly the string it read |
| FormUrlencoded.EncodePlain | src/lib/api.ts:81 | ASCII alphanumerics and `*-._` pass through the serializer unchanged |
| FormUrlencoded.SerializeEmpty | src/lib/api.ts:85-86 | the query string is empty exactly when no pair survives |
| FormUrlencoded.SplitJoin | src/lib/api.ts:85 | splitting at `&` undoes joining with `&` when no piece contains `&` |
| FormUrlencoded.ParseSerialize | src/lib/api.ts:79-85 | every surviving pair comes back, in order, as the UTF-8 bytes of its key and value; `&` or `=` inside a value cannot split or merge pairs |
| ErrorHandler.NewApiError | utils/errorHandler.ts:1-10 | the constructor stores message, status and optional data, and the name is `ApiError` |
| ErrorHandler.MessageOr | hooks/usePosts.ts:31 | an Error, including an ApiError, yields its message; any other thrown value yields the handler's fallback text |
| ErrorHandler.HandleApiError | utils/errorHandler.ts:12-22 | an ApiError yields its message verbatim; any other Error yields its message; a non-Error yields the fixed unknown-error text; it is defined for every input |
| ErrorHandler.HandleApiErrorIsMessageOr | utils/errorHandler.ts:12-22 | the normaliser equals the handlers' inline expression when the fallback is the unknown-error text |
| ErrorHandler.HandleNewApiError | utils/errorHandler.ts:2-15 | a constructed ApiError is reported with exactly its own message |
| Api.ConfigKeepsOptions | src/lib/api.ts:47-53 | every property of `config` other than `headers` (method, body) is the caller's, because `...options` is spread last |
| Api.ConfigHeaders | src/lib/api.ts:47-53 | the headers of `config` are exactly `Content-Type: application/json` when the caller gives none, and the caller's own headers, wholesale, when it gives some |
| Api.Configure | src/lib/api.ts:45-56 | the request `fetch` sends for `config`: the caller's method (GET when none) and body; the JSON content type unless the caller passes headers, which then replace the merged headers wholesale |
| Api.CallerHeadersDropJsonContentType | src/lib/api.ts:47-53 | because `...options` is spread last, caller headers that do not name `Content-Type` would drop the JSON content type |
| Api.RequestFor | src/lib/api.ts:92-127 | every operation's request goes to its endpoint and carries exactly the JSON content type; create sends POST and update PATCH, each with its data as the body; delete sends DELETE and the reads GET, without a body |
| Api.GetPostsRequest | src/lib/api.ts:76-89 | the loop's request is the list operation's request for these params: GET, no body |
| Api.QueryPairsConcat | src/lib/api.ts:79-83 | the filter works entry by entry, so surviving pairs keep the object's key order |
| Api.QueryPairsMember | src/lib/api.ts:79-83 | `(k, s)` is sent iff the object has `k`, its value is not `undefined`, `null` or `''`, and `s` is that value's `toString()` |
| Api.QueryKeysDistinct | src/lib/api.ts:79-82 | each key is sent at most once |
| Api.ListEndpointChoice | src/lib/api.ts:85-86 | the endpoint is `/posts` exactly when no pair survives; otherwise it is `/posts?` followed by the serialized pairs |
| Api.EmptySearchNotSent | src/lib/api.ts:79-83 | `{search: '', category: 'tech', page: 2}` sends only `category=tech` and `page=2`, in that order |
| Api.PageZeroIsSent | src/lib/api.ts:80 | `page: 0` is sent as `page=0`, because the check is a strict comparison with `''` |
| Api.RouteRoundTrip | src/lib/api.ts:92-127 | the method/path table is unambiguous: every request routes back to the operation and arguments that built it (GET `/posts/{id}`, POST `/posts`, PATCH and DELETE `/posts/{id}`, GET `/posts/categories` and `/posts/authors`, GET `/posts[?query]`) |
| Api.RequestsDistinguishable | src/lib/api.ts:92-127 | operations the server must tell apart never send the same request |
| Api.Perform | src/lib/api.ts:55-72 | success iff the answer is ok and is either 204 or parsable; the empty result iff the status is 204; any other success is the parsed body's value; a non-ok answer throws an `Error` with the HTTP error message; an ok, non-204 answer whose body does not parse re-throws its `SyntaxError`; a fetch rejection is re-thrown unchanged; an answered failure is a plain Error, never an ApiError |
| Api.NoContentIgnoresBody | src/lib/api.ts:63-66 | a 204 resolves to the empty result whatever its body holds |
| Api.HttpFailureMessage | src/lib/api.ts:58-60 | a non-ok answer fails with the body's `message` when that is truthy; otherwise the message is `HTTP error! status: ` followed by the status, which can be read back; no handler fallback is used; the message is never empty |
| UsePosts.WithoutIdMembers | hooks/usePosts.ts:40 | a post survives the delete filter iff it was present and its id differs |
| UsePosts.WithoutIdConcat | hooks/usePosts.ts:40 | the filter distributes over concatenation, so survivors keep their relative order |
| UsePosts.WithoutAbsentId | hooks/usePosts.ts:40 | the posts are unchanged when none has the id |
| UsePosts.RemoveUniqueId | hooks/usePosts.ts:39-41 | deleting the only post with an id removes exactly that post and keeps the rest in order |
| UsePosts.PostsHook.constructor | hooks/usePosts.ts:4-12 | initial state: no posts, not loading, no error, pagination page 1, limit 10, total 0 |
| UsePosts.PostsHook.StartFetch | hooks/usePosts.ts:14-22 | loading on, error cleared, and the request is for `initialParams` overlaid by `params` |
| UsePosts.PostsHook.FinishFetch | hooks/usePosts.ts:24-34 | success replaces the posts and sets pagination to exactly the response's page, limit and total; failure keeps both and sets the message or `加载失败`; loading ends off |
| UsePosts.PostsHook.DeletePost | hooks/usePosts.ts:37-46 | sends DELETE `/posts/{id}`; success filters out the posts with that id and returns true; failure keeps the posts, sets the message or `删除失败` and returns false; loading and pagination are untouched |
| UsePosts.PostsHook.SetError | hooks/usePosts.ts:59 | the exposed setter replaces the error |
| Page.DraftOf | src/app/page.tsx:151-157 | the draft holds the post's title, content, author, category and tags |
| Page.OrUndefined | src/app/page.tsx:38-39 | a filter value is sent iff it is non-empty, and then as itself |
| Page.BaseQueryShape | src/app/page.tsx:35-39 | the base query has the keys page, limit, search and category, in that order, with the page state's values |
| Page.LoadQueryValues | src/app/page.tsx:35-41 | override params win; otherwise page and limit come from pagination, and search and category are `value || undefined`: sent, as themselves, exactly when non-empty |
| Page.SearchSentIffNonEmpty | src/app/page.tsx:38 | without an override, `search=s` is sent iff the search term is non-empty and `s` is that term |
| Page.LoadQueryPageOverride | src/app/page.tsx:162-165 | when the call overrides `page`, the page held in the closure does not change the query |
| Page.TotalPages | src/app/page.tsx:199 | `ceil(total / limit)`: the least page count whose pages hold `total` posts |
| Page.PagerShownIffOverflow | src/app/page.tsx:199-200 | the pager is shown iff there are more posts than one page holds |
| Page.PrevTarget | src/app/page.tsx:205-206 | "previous" is enabled iff `page > 1`, and then it requests a page of at least 1 |
| Page.BlogSystem.RenderPagination | src/app/page.tsx:198-225 | hidden unless there are more posts than one page holds; shows the current page and a page count that is the least number of pages holding all posts (`ceil(total / limit)`); "previous" is enabled iff `page > 1` and asks for the page before, never below 1; "next" is enabled iff `page < totalPages` and asks for the following page, which still holds posts |
| Page.NextTarget | src/app/page.tsx:217-218 | "next" is enabled iff `page < totalPages`, and then it requests a page of at most `totalPages` |
| Page.BlogSystem.constructor | src/app/page.tsx:7-27 | initial state: list screen, no selection, empty filters and draft, page 1 of size 10, not loading, no error |
| Page.BlogSystem.StartLoadPosts | src/app/page.tsx:30-43 | loading on, error cleared, and the list request for the page's query with the overrides |
| Page.BlogSystem.FinishLoadPosts | src/app/page.tsx:44-54 | success replaces the posts and takes total and page from the response while keeping limit; failure keeps the posts and sets the error; loading ends off |
| Page.BlogSystem.SettleFilters | src/app/page.tsx:76-79 | when the debounce fires: page set to 1, and page 1 requested |
| Page.BlogSystem.HandlePageChange | src/app/page.tsx:162-165 | the page is set to `newPage` with no clamping, and that page is requested |
| Page.BlogSystem.StartSubmit | src/app/page.tsx:85-99 | an empty title or content sets only the validation error and issues nothing; otherwise it updates iff the screen is edit with a selected post, and creates otherwise |
| Page.BlogSystem.FinishSubmit | src/app/page.tsx:101-108 | success resets the draft, shows the list and reloads it; failure keeps screen and draft and sets the error; loading ends off in both |
| Page.BlogSystem.StartDelete | src/app/page.tsx:112-119 | a declined confirmation changes nothing; otherwise it sends DELETE `/posts/{id}` with loading on |
| Page.BlogSystem.FinishDelete | src/app/page.tsx:119-129 | success leaves a selected post with that id for the list screen and reloads; the posts are never filtered locally; failure sets the error, turns loading off and keeps the screen, selection and posts |
| Page.BlogSystem.StartView | src/app/page.tsx:133-138 | the post is fetched again by its id |
| Page.BlogSystem.FinishView | src/app/page.tsx:138-145 | success selects the fetched post and shows the view screen; failure keeps the screen and sets the error |
| Page.BlogSystem.HandleEdit | src/app/page.tsx:149-159 | the post becomes the selected one, its text fields fill the draft, and the edit screen is shown |
| Page.BlogSystem.Cancel | src/app/page.tsx:457-461 | back to the list with an empty draft and no selection |
| Page.BlogSystem.ShowCreate | src/app/page.tsx:261 | only the screen changes; the draft and the selection are kept (also the button at line 564) |
| Page.BlogSystem.ShowList | src/app/page.tsx:480 | only the screen changes (also the button at line 554) |
| Page.BlogSystem.DismissError | src/app/page.tsx:178 | the error banner's close button clears the error |
| Page.BlogSystem.SetSearchTerm | src/app/page.tsx:241 | typing in the search box sets only the search term |
| Page.BlogSystem.SelectCategory | src/app/page.tsx:248 | choosing a category sets only the category filter |
| Page.BlogSystem.EditDraft | src/app/page.tsx:381-441 | typing in a form input sets only that field of the draft |

## Left out

- Network I/O: `fetch`, `response.json()`, `JSON.stringify` of bodies, the base URL from
  `process.env` (src/lib/api.ts:1) and `console.error`. A request's outcome is an input
  (`Api.Transport`, or the `Result` a `FinishX` method takes). Bodies stay structured values.
- Numbers.IntToString: does not model JavaScript's exponent form for integers of magnitude 10^21
  or more. Non-integral numbers, `NaN` and `Infinity` are not modelled either: numbers are
  integers.
- Js.Get: object property order is insertion order. JavaScript lists integer-like keys (`"0"`,
  `"1"`, …) first, and that ordering is not modelled. The query objects here have no such keys.
- Api.HttpErrorMessage: an error body whose `message` is an object or an array is not modelled.
  Nor is an error body that parses as JSON `null`, where reading `.message` throws a TypeError.
- A 204 answer to a GET resolves to `{}`, which the page would then use as a post or a list
  response. The view and list handlers take well-typed values, so this case is not modelled.
- FormUrlencoded.DecodeBytes: a strict reader that accepts exactly the serializer's output
  (`EncodeDecodeBytes`). It is the round-trip partner and not the WHATWG parser, which also
  accepts lower-case hex digits, escapes of bytes that need none, a stray `%` and raw
  non-ASCII characters. Lone UTF-16 surrogates cannot occur, because a Dafny `char` is a Unicode
  scalar value.
- The 300 ms debounce timer (src/app/page.tsx:75-82). Only the body of its callback is modelled
  (`SettleFilters`).
- Overlapping requests: each handler reads the current state and not the state captured by the
  closure of an earlier render. The two differ only when calls interleave.
- The `confirm()` dialog (src/app/page.tsx:113) is a boolean input.
- `loadCategories` and the `categories` list (src/app/page.tsx:58-65), and all rendering except
  the pager's.
  The rest of the rendering includes `formatDate`, the tag chips' `split(',')`/`trim`, and the submit button
  being disabled while loading.
- ErrorHandler.NewApiError: `data`, declared `any` in utils/errorHandler.ts:5, holds a primitive
  JavaScript value here. Objects and arrays as `data` are not modelled; nothing in the core
  reads `data`.
- `types/index.ts`: it holds declarations only.
