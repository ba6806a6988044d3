# readable: a verified model of the worker's request handler

`readable` is a Cloudflare Worker that returns a clean, reader-mode copy of a
web page. A request carries two query parameters, `url` and `token`. The
token must be the hex SHA-1 digest of `TOKEN_SECRET + ":" + url`. The worker
then does the following:

1. It fetches the page.
2. It sanitises the HTML with DOMPurify and parses it with linkedom.
3. It removes the site chrome in place. Pass 1 removes every `nav`, `header`
   and `footer`. Pass 2 removes every `a`, `h1`, `h2` or `h3` whose trimmed
   text is "Skip to content" or "The Latest".
4. Readability extracts the article, and the worker renders it as a small
   HTML page.

This project models that handler, `src/index.ts`, in five modules:

- `Js` covers the JavaScript values the handler relies on:
  - strings that may be `null` or `undefined`;
  - how a template literal stringifies them;
  - truthiness and `||`;
  - `String.prototype.trim`, with the ECMAScript white-space set.
- `Dom` models the parsed document. It is an array of nodes numbered in
  document order, each with a parent link, and node 0 is the document node.
  - The `Document` class holds these links and updates them in place.
  - `Remove` models `ChildNode.remove()`: it cuts one node's parent link, and
    that node's subtree leaves the document with it.
  - `TextContent` and `QuerySelectorAll` are defined on the links.
  - Lemmas cover what removal does to descendants, text and selector results.
- `Strip` models the two removal passes as loops over the static list that
  `querySelectorAll` returns.
  - Each loop removes nodes through `Document.Remove`.
  - Each loop is proved equal to a specification on values, which cuts the
    links of a set of nodes fixed before the pass.
  - Pass 2 reads text while earlier removals are happening. It reads the
    same text it would have read before the pass, because a node's text
    depends only on the links of later nodes and the pass visits nodes in
    document order.
- `Page` builds the four response bodies as the handler's template
  literals, part by part, and proves what each page shows.
- `Handler` models the whole request in two forms. `Handle` is a function
  from the environment, the query and the libraries to an outcome. `Fetch`
  is the same handler written step by step, where the parsed document is
  pruned in place before Readability reads it.

The outcome of a request is either a response (status, content type, body)
or an exception that escapes the handler.

The model follows the code as written; in particular:

- **Stripping is not idempotent.** `Strip.StripNotIdempotent` exhibits the
  document `<h1>The Latest <a>Skip to content</a></h1>`. The first run
  removes only the link. A second run then finds the heading reading
  "The Latest " and removes it.
- **URLs are not escaped.** The URL and the upstream body are inserted into
  the HTML without escaping.
- **Transport errors are not caught.** A `fetch` that rejects (an invalid
  URL, a DNS or connection failure) is not turned into a failed-fetch page.
  The handler's promise rejects (`Threw(FetchRejected)`).
- **The missing-secret response is status 500.** Its content type is the
  Fetch standard's default for a string body, `text/plain;charset=UTF-8`.
- **`new Response` can throw.** It throws when an upstream failure status
  falls outside 200..599, or when the status is 304, a status that may not
  carry a body. The handler passes that status on, so in these cases the
  handler throws as well.
- **The `<'a>` typo is kept.** The failed-fetch page closes its link with
  `<'a>`, as the source does.
- **A missing article shows as `undefined`.** When there is no article, or
  it has no content, the page shows the text `undefined`; `null` content
  shows as `null`.
- **The `?? ''` fallback is never used.** An element's `textContent` is
  never `null`, so this fallback in pass 2 never applies.

## Model

| member | source | states |
|---|---|---|
| Js.JsString.ToText | src/index.ts:85 | definition, no contract: what `${v}` inserts, the string itself, "null" or "undefined" |
| Js.JsString.Truthy | src/index.ts:26 | definition, no contract: JavaScript truthiness of a string-or-nullish value, true only for a non-empty string |
| Js.OrElse | src/index.ts:22 | definition, no contract: the logical or of a string-or-nullish value and a string, as used at lines 22, 79, 82 and 92 |
| Js.Trim | src/index.ts:68 | the trimmed text is no longer than the input and neither starts nor ends with white space |
| Js.TrimIsInfix | src/index.ts:68 | `trim` returns a contiguous slice of its input, and only white space lies before and after that slice |
| Js.TrimNoOp | src/index.ts:68 | a text with no white space at either end is its own trim |
| Dom.SelectFrom | src/index.ts:65 | the selector result holds exactly the attached elements with one of the given tags, in strictly increasing document order |
| Dom.Document.constructor | src/index.ts:62 | the document object starts as the parsed tree |
| Dom.Document.Remove | src/index.ts:65 | `node.remove()` cuts that node's parent link, keeps the document well formed and changes nothing else |
| Dom.TextContentFrame | src/index.ts:68 | an element's text content is unchanged by any change to the links of the element itself or of nodes before it |
| Dom.CutKeepsNoNewDesc | src/index.ts:65 | removing nodes never places a node under a new ancestor |
| Dom.CutSurvivors | src/index.ts:69 | after removals, a node is attached exactly when it was attached before and neither it nor any ancestor was removed |
| Dom.SelectAfterCut | src/index.ts:67 | after removals, a selector finds exactly the elements it found before that are still attached, in the same order |
| Dom.Attached | src/index.ts:67 | the filtered list holds exactly the attached entries of the original list, and it is in increasing order whenever the original is |
| Dom.Matches | src/index.ts:65-67 | definition, no contract: an attached element whose tag is one of the listed type selectors |
| Dom.TextContent | src/index.ts:68 | definition, no contract: `textContent` of a node, the data of the text nodes in its subtree in document order |
| Dom.QuerySelectorAll | src/index.ts:65-67 | definition, no contract: the static list of the attached elements with one of the given tags (its properties are those of `Dom.SelectFrom`) |
| Strip.ChromeSet | src/index.ts:65 | definition, no contract: the attached `nav`, `header` and `footer` elements |
| Strip.BlockedSet | src/index.ts:66-71 | definition, no contract: the attached `a`, `h1`, `h2` and `h3` elements whose trimmed text is in `DROP_TEXT` |
| Strip.RemoveChromeSpec | src/index.ts:65 | definition, no contract: the links after every chrome element is cut |
| Strip.RemoveBlockedTextSpec | src/index.ts:66-71 | definition, no contract: the links after every block-listed candidate is cut |
| Strip.StripTree | src/index.ts:64-71 | stripping keeps every node and its kind; only links change |
| Strip.RemoveChrome | src/index.ts:65 | the loop over the `nav, header, footer` list leaves the links equal to the original links with every matched element cut |
| Strip.RemoveBlockedText | src/index.ts:66-71 | the loop over the `a,h1,h2,h3` list cuts exactly the candidates whose trimmed text, read before the pass, is in `DROP_TEXT` |
| Strip.StripChrome | src/index.ts:64-71 | the two passes in order leave the document equal to the stripping specification applied to the document before them |
| Strip.RemoveChromeRemovesAll | src/index.ts:65 | pass 1 changes the link of exactly the chrome elements, and afterwards no `nav`, `header` or `footer` is attached at any depth |
| Strip.RemoveBlockedTextExact | src/index.ts:66-71 | pass 2 changes the link of exactly the attached candidate elements whose trimmed text is block-listed, and of nothing else |
| Strip.RemoveBlockedTextSurvivors | src/index.ts:67-70 | a node survives pass 2 exactly when it was attached and neither it nor an ancestor is a block-listed candidate |
| Strip.StripRemovesChrome | src/index.ts:64-71 | after both passes, every attached node was attached in the parsed document and none is a chrome element |
| Strip.RemoveBlockedTextKeepsOrder | src/index.ts:67-71 | the elements left after pass 2 keep their relative document order |
| Strip.BlockListExamples | src/index.ts:66-68 | the text is trimmed before the comparison, and the comparison is exact: case matters and extra words do not match |
| Strip.StripNotIdempotent | src/index.ts:64-71 | there is a parsed document on which a second stripping run changes the result of the first |
| Strip.Blocked | src/index.ts:66-68 | definition, no contract: the trimmed text content is one of the two `DROP_TEXT` strings |
| Page.TemplateContains | src/index.ts:33-37 | every run of consecutive parts of a template literal occurs in the rendered text |
| Page.InvalidTokenEchoesUrl | src/index.ts:33-37 | the invalid-token page shows its heading and links the requested URL, as both link target and link text |
| Page.FetchFailedEchoes | src/index.ts:47-51 | the failed-fetch page links the URL (closed by `<'a>`) and shows the upstream text verbatim in a paragraph |
| Page.InvalidTokenIsNotFetchFailed | src/index.ts:33-51 | no URL and upstream text make the failed-fetch page equal the invalid-token page |
| Page.SuccessPageTitle | src/index.ts:79-82 | the `<title>` and the `<h1>` show the article title when it is a non-empty string, and the URL otherwise |
| Page.SuccessPageByline | src/index.ts:82-84 | the byline paragraph appears between heading and backlink exactly when the byline is a non-empty string |
| Page.SuccessPageBacklink | src/index.ts:84 | the page always carries the "Original" backlink to the URL |
| Page.SuccessPageContent | src/index.ts:85-88 | the article content follows the backlink unchanged; missing content shows as `undefined`, `null` content as `null` |
| Page.ContentTypeFallback | src/index.ts:92 | the success content type is the upstream header when it is non-empty, and `text/html` otherwise |
| Page.InvalidTokenBody | src/index.ts:33-37 | definition, no contract: the invalid-token template literal, part by part |
| Page.FetchFailedBody | src/index.ts:47-51 | definition, no contract: the failed-fetch template literal, part by part, with `<'a>` as written |
| Page.SuccessPage | src/index.ts:76-88 | definition, no contract: the success template literal, part by part |
| Page.PageTitle | src/index.ts:79-82 | definition, no contract: the article title when it is truthy, otherwise the URL |
| Page.BylineLine | src/index.ts:83 | definition, no contract: the byline paragraph when the byline is truthy, else the empty string |
| Page.ContentText | src/index.ts:85 | definition, no contract: `${article?.content}` |
| Page.ContentTypeOf | src/index.ts:92 | definition, no contract: the upstream `content-type` header or `text/html` |
| Handler.RequestUrl | src/index.ts:22 | the URL is the `url` parameter when it is non-empty, and the empty string otherwise |
| Handler.Handle | src/index.ts:20-94 | definition, no contract: the outcome of one request; its properties are the `Handler` lemmas below |
| Handler.Authentic | src/index.ts:29-31 | definition, no contract: the token parameter equals the digest of the secret, a colon and the URL |
| Handler.SecretMissing | src/index.ts:26 | definition, no contract: the secret is unset or empty |
| Handler.IsOk | src/index.ts:46 | definition, no contract: `Response.ok`, a status in 200..299 |
| Handler.NullBodyStatus | src/index.ts:47-57 | definition, no contract: the statuses the Fetch standard forbids a body (101, 103, 204, 205, 304) |
| Handler.Prepared | src/index.ts:59-71 | definition, no contract: the body sanitised, parsed, then stripped, which is the tree the extractor reads |
| Handler.TokenInput | src/index.ts:29 | the digested text is the secret, a colon, then the URL, and both can be read back from it |
| Handler.NewResponse | src/index.ts:90-94 | the Response constructor returns exactly when the status is in 200..599 and may carry a body, and throws a RangeError outside that range |
| Handler.Fetch | src/index.ts:20-94 | the step-by-step handler, with in-place stripping, produces the outcome `Handle` specifies |
| Handler.MissingSecret | src/index.ts:26-28 | without a secret, every request gets the plain-text 500 response "No token secret found" |
| Handler.AuthenticationGate | src/index.ts:29-43 | with a secret, the handler returns the 403 invalid-token page if and only if the token is not the digest of the secret and the URL |
| Handler.RejectedTouchesNothing | src/index.ts:26-45 | a request that fails the secret or token check returns a response whatever the network, sanitiser, parser and extractor do |
| Handler.RejectedLinksUrl | src/index.ts:31-42 | a rejected request gets status 403, `text/html`, and a body linking the requested URL |
| Handler.TokenBindsUrl | src/index.ts:29 | two different URLs are digested from two different texts under the same secret |
| Handler.TransportErrorNotCaught | src/index.ts:45 | a rejected `fetch` makes the handler reject as well |
| Handler.UpstreamFailure | src/index.ts:46-58 | an upstream non-2xx status is passed on with the failed-fetch page, or the handler throws when the Response constructor refuses that status; the later stages are not used |
| Handler.SuccessResponse | src/index.ts:59-94 | a 2xx upstream yields status 200 with the upstream or default content type, rendering what the extractor found in a chrome-free pruning of the parsed document |
| Handler.ThrowsExactly | src/index.ts:20-94 | the handler throws exactly on a rejected fetch or a refused upstream status, and every returned status is in 200..599 and may carry a body |

## Left out

- SHA-1 and its hex encoding are left out. The digest is a parameter function, so no claim depends on what the digest is.
- The network is a parameter function from the URL to a response or a rejection. This covers `fetch`, the `User-Agent` header it sends, and `fetched.text()`. A rejection while the body is read is not modelled.
- DOMPurify, linkedom's `parseHTML` and Readability are parameter functions and are not modelled. The model assumes the parser numbers nodes in document order and never throws.
- Selectors are modelled as lists of type selectors matched against lower-case local names. Attributes, namespaces and the rest of the CSS selector grammar are not modelled.
- Readability receives the pruned tree as a value. Its own changes to the document are not modelled, because the handler does not use the document afterwards.
- `console.log` of the expected digest and the received token is left out: it is output only.
- `Env`, `ExecutionContext`, the async plumbing and the parsing of the request URL into search parameters are left out. The handler receives the two parameters directly, already decoded.
- HTML escaping is not modelled because the source does none.
- Exceptions from the libraries are not modelled, nor is the runtime's error page for an exception that escapes the handler.
- The document holds element, text and comment nodes only. Other node types, such as processing instructions, are not modelled, and neither is their effect on text content or selector results.
