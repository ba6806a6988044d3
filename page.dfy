/** The responses the worker builds: the missing-secret error, the
    invalid-token page, the failed-fetch page and the extracted article
    page. Every body is the template literal of the handler, character for
    character; values are interpolated as they are, with no HTML escaping. */
module Page {
  import opened Js

  datatype Response = Response(status: int, contentType: string, body: string)

  /** What Readability's `parse()` returns when it finds an article; every
      field may be a string, `null` or `undefined`. */
  datatype Article = Article(title: JsString, byline: JsString, content: JsString)

  /** The type the Fetch standard gives a response built from a string body
      when no `Content-Type` header is set. */
  const PlainText := "text/plain;charset=UTF-8"
  const Html := "text/html"

  /** `t` occurs in `s`. */
  predicate Contains(s: string, t: string) {
    exists i :: 0 <= i <= |s| && t <= s[i..]
  }

  /** A template literal: its literal chunks and the values substituted
      between them, joined in order. */
  function Template(parts: seq<string>): string
    decreases |parts|
  {
    if parts == [] then "" else parts[0] + Template(parts[1..])
  }

  lemma {:induction false} TemplateAppend(a: seq<string>, b: seq<string>)
    ensures Template(a + b) == Template(a) + Template(b)
    decreases |a|
  {
    if a == [] {
      assert a + b == b;
    } else {
      assert (a + b)[1..] == a[1..] + b;
      TemplateAppend(a[1..], b);
    }
  }

  lemma ContainsMiddle(a: string, t: string, b: string)
    ensures Contains(a + t + b, t)
  {
    assert (a + t + b)[|a|..] == t + b;
  }

  /** Splitting a template's parts at any point splits its text there. */
  lemma TemplateSplit(parts: seq<string>, k: nat)
    requires k <= |parts|
    ensures Template(parts) == Template(parts[..k]) + Template(parts[k..])
  {
    assert parts[..k] + parts[k..] == parts;
    TemplateAppend(parts[..k], parts[k..]);
  }

  /** Every run of consecutive parts of a template occurs in its text. */
  lemma TemplateContains(parts: seq<string>, i: nat, j: nat)
    requires i <= j <= |parts|
    ensures Contains(Template(parts), Template(parts[i..j]))
  {
    var head := parts[..j];
    TemplateSplit(parts, j);
    TemplateSplit(head, i);
    assert head[..i] == parts[..i] && head[i..] == parts[i..j];
    ContainsMiddle(Template(parts[..i]), Template(parts[i..j]), Template(parts[j..]));
  }

  lemma Template3(a: string, b: string, c: string)
    ensures Template([a, b, c]) == a + b + c
  {
    assert [a, b, c][1..] == [b, c];
    assert [b, c][1..] == [c];
    assert [c][1..] == [];
    assert Template([c]) == c + "" == c;
  }

  lemma Template5(a: string, b: string, c: string, d: string, e: string)
    ensures Template([a, b, c, d, e]) == a + b + c + d + e
  {
    assert [a, b, c, d, e][1..] == [b, c, d, e];
    assert [b, c, d, e][1..] == [c, d, e];
    Template3(c, d, e);
    assert Template([c, d, e]) == c + d + e;
    assert Template([b, c, d, e]) == b + (c + d + e);
    assert Template([a, b, c, d, e]) == a + (b + (c + d + e));
  }

  lemma TemplateHead2(parts: seq<string>)
    requires |parts| >= 2
    ensures Template(parts) == parts[0] + (parts[1] + Template(parts[2..]))
  {
    assert parts[1..][1..] == parts[2..];
  }

  /** The body of the response when `TOKEN_SECRET` is missing. */
  const NoSecretBody := "No token secret found"

  function InvalidTokenParts(url: string): seq<string> {
    ["\n\t\t\t\t", "<h1>Invalid token</h1>", "\n\t\t\t\tfor ",
     "<a href=\"", url, "\">", url, "</a>", "\n\t\t\t"]
  }

  function InvalidTokenBody(url: string): string {
    Template(InvalidTokenParts(url))
  }

  /** The failed-fetch page; `<'a>` stands where a closing `</a>` was meant. */
  function FetchFailedParts(url: string, text: string): seq<string> {
    ["\n\t\t\t\t", "<h1>Failed to fetch</h1>", "\n\t\t\t\t<p>",
     "<a href=\"", url, "\">", url, "<'a>", "</p>\n\t\t\t\t",
     "<p>", text, "</p>", "\n\t\t\t"]
  }

  function FetchFailedBody(url: string, text: string): string {
    Template(FetchFailedParts(url, text))
  }

  /** `article?.title || url`. */
  function PageTitle(article: Option<Article>, url: string): string {
    OrElse(if article.Some? then article.value.title else Undefined, url)
  }

  /** `article?.byline ? `<p>By: ${article.byline}</p>` : ''`. */
  function BylineLine(article: Option<Article>): string {
    if article.Some? && article.value.byline.Truthy()
    then "<p>By: " + article.value.byline.s + "</p>"
    else ""
  }

  /** `${article?.content}`. */
  function ContentText(article: Option<Article>): string {
    (if article.Some? then article.value.content else Undefined).ToText()
  }

  function SuccessParts(url: string, article: Option<Article>): seq<string> {
    ["<!DOCTYPE html>\n<html>\n<head>\n  ", "<title>", PageTitle(article, url), "</title>",
     "\n</head>\n<body>\n", "<h1>", PageTitle(article, url), "</h1>", "\n", BylineLine(article), "\n",
     "<p>Original: <a href=\"", url, "\">", url, "</a></p>", "\n",
     ContentText(article), "\n</body>\n</html>\n\t\t"]
  }

  /** The document returned on success. */
  function SuccessPage(url: string, article: Option<Article>): string {
    Template(SuccessParts(url, article))
  }

  /** `fetched.headers.get('content-type') || 'text/html'`; `None` is the
      `null` that `get` returns for a missing header. */
  function ContentTypeOf(upstream: Option<string>): string {
    OrElse(if upstream.Some? then Str(upstream.value) else Null, Html)
  }

  // ---------------------------------------------------------------------
  // What each body shows

  /** The invalid-token page links to the requested URL, which is both the
      link target and the link text. */
  lemma InvalidTokenEchoesUrl(url: string)
    ensures Contains(InvalidTokenBody(url), "<h1>Invalid token</h1>")
    ensures Contains(InvalidTokenBody(url), "<a href=\"" + url + "\">" + url + "</a>")
  {
    var parts := InvalidTokenParts(url);
    TemplateContains(parts, 1, 2);
    assert parts[1..2] == ["<h1>Invalid token</h1>"];
    TemplateContains(parts, 3, 8);
    assert parts[3..8] == ["<a href=\"", url, "\">", url, "</a>"];
    Template5("<a href=\"", url, "\">", url, "</a>");
  }

  /** The failed-fetch page links to the requested URL and shows the
      upstream body text verbatim in a paragraph. */
  lemma FetchFailedEchoes(url: string, text: string)
    ensures Contains(FetchFailedBody(url, text), "<a href=\"" + url + "\">" + url + "<'a>")
    ensures Contains(FetchFailedBody(url, text), "<p>" + text + "</p>")
  {
    var parts := FetchFailedParts(url, text);
    TemplateContains(parts, 3, 8);
    assert parts[3..8] == ["<a href=\"", url, "\">", url, "<'a>"];
    Template5("<a href=\"", url, "\">", url, "<'a>");
    TemplateContains(parts, 9, 12);
    assert parts[9..12] == ["<p>", text, "</p>"];
    Template3("<p>", text, "</p>");
  }

  /** The invalid-token page and a failed-fetch page are never the same
      text, whatever the URL and the upstream body: their headings differ. */
  lemma InvalidTokenIsNotFetchFailed(url: string, text: string)
    ensures InvalidTokenBody(url) != FetchFailedBody(url, text)
  {
    var a := InvalidTokenParts(url);
    var b := FetchFailedParts(url, text);
    TemplateHead2(a);
    TemplateHead2(b);
    assert InvalidTokenBody(url)[9] == a[1][4] == 'I';
    assert FetchFailedBody(url, text)[9] == b[1][4] == 'F';
  }

  /** The `<title>` and the `<h1>` both show the article's title when it is a
      non-empty string, and the requested URL otherwise. */
  lemma SuccessPageTitle(url: string, article: Option<Article>)
    ensures var t := if article.Some? && article.value.title.Truthy()
                     then article.value.title.s else url;
            Contains(SuccessPage(url, article), "<title>" + t + "</title>") &&
            Contains(SuccessPage(url, article), "<h1>" + t + "</h1>")
  {
    var parts := SuccessParts(url, article);
    var t := PageTitle(article, url);
    assert parts[1] == "<title>" && parts[2] == t && parts[3] == "</title>";
    assert parts[5] == "<h1>" && parts[6] == t && parts[7] == "</h1>";
    TemplateContains(parts, 1, 4);
    assert parts[1..4] == ["<title>", t, "</title>"];
    Template3("<title>", t, "</title>");
    TemplateContains(parts, 5, 8);
    assert parts[5..8] == ["<h1>", t, "</h1>"];
    Template3("<h1>", t, "</h1>");
  }

  /** The backlink to the original page is always there. */
  lemma SuccessPageBacklink(url: string, article: Option<Article>)
    ensures Contains(SuccessPage(url, article),
                     "<p>Original: <a href=\"" + url + "\">" + url + "</a></p>")
  {
    var parts := SuccessParts(url, article);
    TemplateContains(parts, 11, 16);
    assert parts[11..16] == ["<p>Original: <a href=\"", url, "\">", url, "</a></p>"];
    Template5("<p>Original: <a href=\"", url, "\">", url, "</a></p>");
  }

  /** Between the heading and the backlink stands the byline paragraph when
      the byline is a non-empty string, and nothing but the line break
      otherwise. */
  lemma SuccessPageByline(url: string, article: Option<Article>)
    ensures article.Some? && article.value.byline.Truthy() ==>
            Contains(SuccessPage(url, article),
                     "</h1>" + "\n" + ("<p>By: " + article.value.byline.s + "</p>") + "\n"
                     + "<p>Original: <a href=\"")
    ensures !(article.Some? && article.value.byline.Truthy()) ==>
            Contains(SuccessPage(url, article), "</h1>" + "\n" + "" + "\n" + "<p>Original: <a href=\"")
  {
    var parts := SuccessParts(url, article);
    TemplateContains(parts, 7, 12);
    assert parts[7..12] == ["</h1>", "\n", BylineLine(article), "\n", "<p>Original: <a href=\""];
    Template5("</h1>", "\n", BylineLine(article), "\n", "<p>Original: <a href=\"");
  }

  /** The content is inserted as it is, right after the backlink; a missing
      article or missing content shows as the text `undefined`, and a `null`
      content as `null`. */
  lemma SuccessPageContent(url: string, article: Option<Article>)
    ensures var c := if article.None? || article.value.content.Undefined? then "undefined"
                     else if article.value.content.Null? then "null"
                     else article.value.content.s;
            Contains(SuccessPage(url, article), "</a></p>" + "\n" + c + "\n</body>\n</html>\n\t\t")
  {
    SuccessPageContentSlot(url, article);
    if article.Some? {
      match article.value.content
      case Str(_) =>
      case Null =>
      case Undefined =>
    }
  }

  lemma SuccessPageContentSlot(url: string, article: Option<Article>)
    ensures Contains(SuccessPage(url, article),
                     "</a></p>" + "\n" + ContentText(article) + "\n</body>\n</html>\n\t\t")
  {
    var parts := SuccessParts(url, article);
    TemplateContains(parts, 15, 19);
    assert parts[15..19] == ["</a></p>", "\n", ContentText(article), "\n</body>\n</html>\n\t\t"];
    assert parts[15..19][1..] == ["\n", ContentText(article), "\n</body>\n</html>\n\t\t"];
    Template3("\n", ContentText(article), "\n</body>\n</html>\n\t\t");
  }

  /** The success response keeps the upstream content type when it is a
      non-empty string and falls back to `text/html` otherwise. */
  lemma ContentTypeFallback(upstream: Option<string>)
    ensures upstream.Some? && upstream.value != "" ==> ContentTypeOf(upstream) == upstream.value
    ensures upstream.None? || upstream.value == "" ==> ContentTypeOf(upstream) == "text/html"
  {
  }
}
