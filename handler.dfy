/** The worker's `fetch` handler: it checks the request's token against a
    SHA-1 digest of the secret and the URL, fetches the page, sanitises and
    parses it, strips the site chrome, extracts the article and renders it.
    The digest, the network, the sanitiser, the parser and the article
    extractor are parameters: the handler's decisions are modelled, their
    insides are not. */
module Handler {
  import opened Js
  import opened Dom
  import opened Strip
  import opened Page

  /** The worker's bindings; `TOKEN_SECRET` may be unset. */
  datatype Env = Env(tokenSecret: Option<string>)

  /** The `url` and `token` search parameters of the request; `None` is the
      `null` that `searchParams.get` returns for a missing parameter. */
  datatype Query = Query(url: Option<string>, token: Option<string>)

  /** A response from the upstream site: its status, its body as text and
      its `content-type` header, if any. */
  datatype Upstream = Upstream(status: int, bodyText: string, contentType: Option<string>)

  /** What the platform's `fetch` settles to: a response, or a rejection
      (an invalid URL, a DNS or connection failure). */
  datatype FetchResult = Received(response: Upstream) | TransportError

  /** The exceptions that escape the handler. */
  datatype Thrown =
    | FetchRejected        // the rejection of `fetch`, not caught
    | StatusRangeError     // `new Response` with a status outside 200..599
    | NullBodyStatusError  // `new Response` with a body and a null body status

  /** The handler's promise either resolves to a response or rejects. */
  datatype Outcome = Returned(response: Response) | Threw(error: Thrown)

  /** The code the handler calls but does not define: the hex SHA-1 digest,
      the network, DOMPurify's `sanitize`, linkedom's `parseHTML` and
      Readability's `parse`. */
  datatype Libraries = Libraries(
    digest: string -> string,
    fetch: string -> FetchResult,
    sanitize: string -> string,
    parse: string -> ParsedTree,
    extract: Tree -> Option<Article>)

  /** `searchParams.get('url') || ''`. */
  function RequestUrl(q: Query): (r: string)
    ensures q.url.Some? && q.url.value != "" ==> r == q.url.value
    ensures q.url.None? || q.url.value == "" ==> r == ""
  {
    OrElse(if q.url.Some? then Str(q.url.value) else Null, "")
  }

  /** `!env.TOKEN_SECRET`: the secret is unset or empty. */
  predicate SecretMissing(env: Env) {
    env.tokenSecret.None? || env.tokenSecret.value == ""
  }

  /** The text that is digested: `${TOKEN_SECRET}:${url}`. */
  function TokenInput(secret: string, url: string): (r: string)
    ensures |r| == |secret| + 1 + |url| && r[|secret|] == ':'
    ensures r[..|secret|] == secret && r[|secret| + 1..] == url
  {
    secret + ":" + url
  }

  /** `token !== digest`, negated: the token parameter is present and equals
      the digest of the secret and the URL. */
  predicate Authentic(env: Env, q: Query, lib: Libraries)
    requires !SecretMissing(env)
  {
    q.token == Some(lib.digest(TokenInput(env.tokenSecret.value, RequestUrl(q))))
  }

  /** `Response.ok`. */
  predicate IsOk(status: int) {
    200 <= status <= 299
  }

  /** The statuses whose responses the Fetch standard forbids a body. */
  predicate NullBodyStatus(status: int) {
    status == 101 || status == 103 || status == 204 || status == 205 || status == 304
  }

  /** `new Response(body, { status, headers })` with a string body. */
  function NewResponse(status: int, contentType: string, body: string): (r: Outcome)
    ensures r.Returned? <==> 200 <= status <= 599 && !NullBodyStatus(status)
    ensures r.Returned? ==> r.response == Response(status, contentType, body)
    ensures !(200 <= status <= 599) ==> r == Threw(StatusRangeError)
  {
    if !(200 <= status <= 599) then Threw(StatusRangeError)
    else if NullBodyStatus(status) then Threw(NullBodyStatusError)
    else Returned(Response(status, contentType, body))
  }

  /** The tree the article extractor receives: the sanitised body, parsed,
      with the chrome stripped. */
  function Prepared(text: string, lib: Libraries): Tree {
    StripTree(lib.parse(lib.sanitize(text)))
  }

  /** What the handler does with one request. */
  function Handle(env: Env, q: Query, lib: Libraries): Outcome {
    var url := RequestUrl(q);
    if SecretMissing(env) then NewResponse(500, PlainText, NoSecretBody)
    else if !Authentic(env, q, lib) then NewResponse(403, Html, InvalidTokenBody(url))
    else match lib.fetch(url)
      case TransportError => Threw(FetchRejected)
      case Received(up) =>
        if !IsOk(up.status) then NewResponse(up.status, Html, FetchFailedBody(url, up.bodyText))
        else
          var article := lib.extract(Prepared(up.bodyText, lib));
          NewResponse(200, ContentTypeOf(up.contentType), SuccessPage(url, article))
  }

  /** The handler, step by step: the parsed document is pruned in place
      before the extractor reads it. */
  method Fetch(env: Env, q: Query, lib: Libraries) returns (r: Outcome)
    ensures r == Handle(env, q, lib)
  {
    var url := RequestUrl(q);
    if SecretMissing(env) {
      return NewResponse(500, PlainText, NoSecretBody);
    }
    var digest := lib.digest(TokenInput(env.tokenSecret.value, url));
    if q.token != Some(digest) {
      return NewResponse(403, Html, InvalidTokenBody(url));
    }
    var fetched := lib.fetch(url);
    if fetched.TransportError? {
      return Threw(FetchRejected);
    }
    var up := fetched.response;
    if !IsOk(up.status) {
      return NewResponse(up.status, Html, FetchFailedBody(url, up.bodyText));
    }
    var clean := lib.sanitize(up.bodyText);
    var doc := new Document(lib.parse(clean));
    StripChrome(doc);
    var article := lib.extract(doc.Snapshot());
    r := NewResponse(200, ContentTypeOf(up.contentType), SuccessPage(url, article));
  }

  // ---------------------------------------------------------------------
  // What the handler guarantees

  /** Without a secret every request gets the plain-text 500 response, and
      nothing else is consulted. */
  lemma MissingSecret(env: Env, q: Query, lib: Libraries)
    requires SecretMissing(env)
    ensures Handle(env, q, lib) == Returned(Response(500, "text/plain;charset=UTF-8", "No token secret found"))
  {
  }

  /** With a secret, the handler answers with the invalid-token page exactly
      when the token is not the digest of the secret and the URL: no upstream
      response, however it looks, produces that page. */
  lemma AuthenticationGate(env: Env, q: Query, lib: Libraries)
    requires !SecretMissing(env)
    ensures Handle(env, q, lib) == Returned(Response(403, "text/html", InvalidTokenBody(RequestUrl(q))))
            <==> !Authentic(env, q, lib)
  {
    var url := RequestUrl(q);
    if Authentic(env, q, lib) && lib.fetch(url).Received? {
      var up := lib.fetch(url).response;
      InvalidTokenIsNotFetchFailed(url, up.bodyText);
    }
  }

  /** A request that fails the check reaches neither the network nor any of
      the page-processing code: replacing everything but the digest leaves
      its outcome unchanged. */
  lemma RejectedTouchesNothing(env: Env, q: Query, lib: Libraries, other: Libraries)
    requires SecretMissing(env) || !Authentic(env, q, lib)
    requires other.digest == lib.digest
    ensures Handle(env, q, other) == Handle(env, q, lib)
    ensures Handle(env, q, lib).Returned?
  {
  }

  /** The invalid-token page links to the requested URL. */
  lemma RejectedLinksUrl(env: Env, q: Query, lib: Libraries)
    requires !SecretMissing(env) && !Authentic(env, q, lib)
    ensures var r := Handle(env, q, lib);
            r.Returned? && r.response.status == 403 && r.response.contentType == "text/html" &&
            Contains(r.response.body, "<a href=\"" + RequestUrl(q) + "\">" + RequestUrl(q) + "</a>")
  {
    var url := RequestUrl(q);
    assert Handle(env, q, lib) == NewResponse(403, Html, InvalidTokenBody(url));
    InvalidTokenEchoesUrl(url);
  }

  /** The token is bound to the URL: the digest is taken of the secret, a
      colon and the URL, so two different URLs are digested from two
      different texts. */
  lemma TokenBindsUrl(secret: string, url1: string, url2: string)
    requires url1 != url2
    ensures TokenInput(secret, url1) != TokenInput(secret, url2)
  {
  }

  /** A rejected `fetch` is not caught: the handler's promise rejects. */
  lemma TransportErrorNotCaught(env: Env, q: Query, lib: Libraries)
    requires !SecretMissing(env) && Authentic(env, q, lib)
    requires lib.fetch(RequestUrl(q)).TransportError?
    ensures Handle(env, q, lib) == Threw(FetchRejected)
  {
  }

  /** An upstream status other than 2xx is passed on with the failure page,
      which links the URL and shows the upstream text; a status the
      Response constructor refuses makes the handler throw instead. The
      sanitiser, the parser and the extractor are not used. */
  lemma UpstreamFailure(env: Env, q: Query, lib: Libraries, other: Libraries)
    requires !SecretMissing(env) && Authentic(env, q, lib)
    requires lib.fetch(RequestUrl(q)).Received?
    requires !IsOk(lib.fetch(RequestUrl(q)).response.status)
    requires other.digest == lib.digest && other.fetch == lib.fetch
    ensures Handle(env, q, other) == Handle(env, q, lib)
    ensures var up := lib.fetch(RequestUrl(q)).response;
            var r := Handle(env, q, lib);
            (200 <= up.status <= 599 && up.status != 304 ==>
               r.Returned? && r.response.status == up.status && r.response.contentType == "text/html" &&
               Contains(r.response.body, "<p>" + up.bodyText + "</p>") &&
               Contains(r.response.body, "<a href=\"" + RequestUrl(q) + "\">" + RequestUrl(q) + "<'a>")) &&
            (up.status == 304 ==> r == Threw(NullBodyStatusError)) &&
            (!(200 <= up.status <= 599) ==> r == Threw(StatusRangeError))
  {
    FetchFailedEchoes(RequestUrl(q), lib.fetch(RequestUrl(q)).response.bodyText);
  }

  /** A 2xx upstream response always yields a 200 response carrying the
      upstream content type (or `text/html`), and the page shows the
      article the extractor found in a tree from which every `nav`,
      `header` and `footer` element has been removed and to which nothing
      has been added. */
  lemma SuccessResponse(env: Env, q: Query, lib: Libraries)
    requires !SecretMissing(env) && Authentic(env, q, lib)
    requires lib.fetch(RequestUrl(q)).Received?
    requires IsOk(lib.fetch(RequestUrl(q)).response.status)
    ensures var up := lib.fetch(RequestUrl(q)).response;
            var parsed := lib.parse(lib.sanitize(up.bodyText));
            var t := Prepared(up.bodyText, lib);
            var r := Handle(env, q, lib);
            r == Returned(Response(200, ContentTypeOf(up.contentType), SuccessPage(RequestUrl(q), lib.extract(t)))) &&
            t.kinds == parsed.kinds && Forest(t.kinds, t.parent) &&
            (forall i :: 0 <= i < |t.parent| && InDocument(t.parent, i) ==>
               InDocument(parsed.parent, i) && !(t.kinds[i].Element? && t.kinds[i].tag in ChromeTags))
  {
    var up := lib.fetch(RequestUrl(q)).response;
    StripRemovesChrome(lib.parse(lib.sanitize(up.bodyText)));
  }

  /** The handler throws exactly when `fetch` rejects or the upstream
      failure status is one the Response constructor refuses; otherwise it
      returns a response with an acceptable status. */
  lemma ThrowsExactly(env: Env, q: Query, lib: Libraries)
    ensures var r := Handle(env, q, lib);
            var f := lib.fetch(RequestUrl(q));
            (r.Threw? <==>
               !SecretMissing(env) && Authentic(env, q, lib) &&
               (f.TransportError? ||
                (!IsOk(f.response.status) &&
                 (!(200 <= f.response.status <= 599) || f.response.status == 304)))) &&
            (r.Returned? ==> 200 <= r.response.status <= 599 && !NullBodyStatus(r.response.status))
  {
  }
}
