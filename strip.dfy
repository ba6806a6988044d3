/** Removal of page chrome from the parsed document, in two passes run in
    place on the document: every `nav`, `header` and `footer` element, then
    every `a`, `h1`, `h2` or `h3` element whose trimmed text is on the
    block-list. */
module Strip {
  import opened Js
  import opened Dom

  const ChromeTags: set<string> := {"nav", "header", "footer"}
  const CandidateTags: set<string> := {"a", "h1", "h2", "h3"}
  /** `DROP_TEXT`. */
  const DropText: set<string> := {"Skip to content", "The Latest"}

  /** The block-list test applied to an element's text content. */
  predicate Blocked(text: string) {
    Trim(text) in DropText
  }

  /** The elements pass 1 removes: the chrome elements of the document. */
  function ChromeSet(kinds: seq<NodeKind>, parent: seq<int>): set<nat>
    requires |kinds| == |parent|
  {
    set i: nat | i < |parent| && Matches(kinds, parent, ChromeTags, i)
  }

  /** The elements pass 2 removes: the candidate elements whose text content
      in the document as pass 2 finds it is blocked. */
  function BlockedSet(kinds: seq<NodeKind>, parent: seq<int>): set<nat>
    requires |kinds| == |parent|
  {
    set i: nat | i < |parent| && Matches(kinds, parent, CandidateTags, i) &&
                 Blocked(TextContent(kinds, parent, i))
  }

  /** The links after pass 1. */
  function RemoveChromeSpec(kinds: seq<NodeKind>, parent: seq<int>): seq<int>
    requires |kinds| == |parent|
  {
    Cut(parent, ChromeSet(kinds, parent))
  }

  /** The links after pass 2. */
  function RemoveBlockedTextSpec(kinds: seq<NodeKind>, parent: seq<int>): seq<int>
    requires |kinds| == |parent|
  {
    Cut(parent, BlockedSet(kinds, parent))
  }

  /** The document after both passes. */
  function StripTree(t: Tree): (r: Tree)
    requires |t.kinds| == |t.parent|
    ensures r.kinds == t.kinds && |r.parent| == |t.parent|
  {
    var p1 := RemoveChromeSpec(t.kinds, t.parent);
    Tree(t.kinds, RemoveBlockedTextSpec(t.kinds, p1))
  }

  /** Pass 1: `querySelectorAll('nav, header, footer').forEach(n => n.remove())`. */
  method RemoveChrome(doc: Document)
    requires doc.Valid()
    modifies doc
    ensures doc.Valid()
    ensures doc.parent == RemoveChromeSpec(doc.kinds, old(doc.parent))
  {
    ghost var p0 := doc.parent;
    var nodes := QuerySelectorAll(doc.kinds, doc.parent, ChromeTags);
    for k := 0 to |nodes|
      invariant doc.Valid() && |doc.parent| == |p0|
      invariant forall i :: 0 <= i < |p0| ==>
                  doc.parent[i] == if i in nodes[..k] then -1 else p0[i]
    {
      doc.Remove(nodes[k]);
    }
    assert nodes[..|nodes|] == nodes;
  }

  /** Pass 2: visits the snapshot of `a`, `h1`, `h2`, `h3` elements in
      document order and removes each one whose text content, read when it is
      visited, trims to a block-listed phrase. */
  method RemoveBlockedText(doc: Document)
    requires doc.Valid()
    modifies doc
    ensures doc.Valid()
    ensures doc.parent == RemoveBlockedTextSpec(doc.kinds, old(doc.parent))
  {
    ghost var p0 := doc.parent;
    var nodes := QuerySelectorAll(doc.kinds, doc.parent, CandidateTags);
    for k := 0 to |nodes|
      invariant doc.Valid() && |doc.parent| == |p0|
      invariant forall i :: 0 <= i < |p0| ==>
                  doc.parent[i] == if i in nodes[..k] && i in BlockedSet(doc.kinds, p0)
                                   then -1 else p0[i]
    {
      var x := nodes[k];
      // Everything removed so far precedes `x`, so its text is as it was.
      assert forall m :: 0 <= m < k ==> nodes[m] < x;
      assert forall i :: x < i < |p0| ==> i !in nodes[..k];
      TextContentFrame(doc.kinds, doc.parent, p0, x);
      if Trim(TextContent(doc.kinds, doc.parent, x)) in DropText {
        doc.Remove(x);
      }
    }
    assert nodes[..|nodes|] == nodes;
  }

  /** Both passes, in order, on the document `doc`. */
  method StripChrome(doc: Document)
    requires doc.Valid()
    modifies doc
    ensures doc.Valid()
    ensures doc.Snapshot() == StripTree(old(doc.Snapshot()))
  {
    RemoveChrome(doc);
    RemoveBlockedText(doc);
  }

  // ---------------------------------------------------------------------
  // Properties of the two passes

  /** Pass 1 cuts the link of exactly the chrome elements of the document,
      and after it no `nav`, `header` or `footer` element is left at any
      depth. */
  lemma RemoveChromeRemovesAll(kinds: seq<NodeKind>, parent: seq<int>)
    requires Forest(kinds, parent)
    ensures var q := RemoveChromeSpec(kinds, parent);
            Forest(kinds, q) &&
            (forall i :: 0 <= i < |q| ==>
               (q[i] != parent[i] <==> Matches(kinds, parent, ChromeTags, i))) &&
            (forall i :: 0 <= i < |q| && InDocument(q, i) ==>
               !(kinds[i].Element? && kinds[i].tag in ChromeTags))
  {
    var q := RemoveChromeSpec(kinds, parent);
    var d := ChromeSet(kinds, parent);
    forall i | 0 <= i < |q| && InDocument(q, i)
      ensures !(kinds[i].Element? && kinds[i].tag in ChromeTags)
    {
      CutKeepsNoNewDesc(parent, d, i, 0);
    }
  }

  /** Pass 2 cuts the link of exactly the block-listed candidate elements of
      the document, and never touches any other node. */
  lemma RemoveBlockedTextExact(kinds: seq<NodeKind>, parent: seq<int>)
    requires Forest(kinds, parent)
    ensures var q := RemoveBlockedTextSpec(kinds, parent);
            Forest(kinds, q) &&
            forall i :: 0 <= i < |q| ==>
              (q[i] != parent[i] <==>
                 kinds[i].Element? && kinds[i].tag in CandidateTags && InDocument(parent, i) &&
                 Trim(TextContent(kinds, parent, i)) in DropText)
  {
  }

  /** A node survives pass 2 exactly when it was in the document and neither
      it nor any ancestor is a block-listed candidate element. */
  lemma RemoveBlockedTextSurvivors(kinds: seq<NodeKind>, parent: seq<int>, i: nat)
    requires Forest(kinds, parent) && i < |parent|
    ensures InDocument(RemoveBlockedTextSpec(kinds, parent), i) <==>
            InDocument(parent, i) &&
            forall a :: 0 <= a < |parent| && Desc(parent, i, a) ==>
              !(Matches(kinds, parent, CandidateTags, a) && Blocked(TextContent(kinds, parent, a)))
  {
    CutSurvivors(parent, BlockedSet(kinds, parent), i);
  }

  /** Pass 2 only removes: every node in the document afterwards was in it
      before, and chrome removed by pass 1 does not come back. */
  lemma {:induction false} StripRemovesChrome(t: Tree)
    requires Forest(t.kinds, t.parent)
    ensures var r := StripTree(t);
            Forest(r.kinds, r.parent) &&
            forall i :: 0 <= i < |r.parent| && InDocument(r.parent, i) ==>
              InDocument(t.parent, i) && !(t.kinds[i].Element? && t.kinds[i].tag in ChromeTags)
  {
    var p1 := RemoveChromeSpec(t.kinds, t.parent);
    RemoveChromeRemovesAll(t.kinds, t.parent);
    var r := StripTree(t);
    forall i | 0 <= i < |r.parent| && InDocument(r.parent, i)
      ensures InDocument(t.parent, i) && !(t.kinds[i].Element? && t.kinds[i].tag in ChromeTags)
    {
      CutKeepsNoNewDesc(p1, BlockedSet(t.kinds, p1), i, 0);
      CutKeepsNoNewDesc(t.parent, ChromeSet(t.kinds, t.parent), i, 0);
    }
  }

  /** The surviving elements keep their relative order: after pass 2 a
      selector finds the elements it found before that are still attached,
      in the same order. */
  lemma RemoveBlockedTextKeepsOrder(kinds: seq<NodeKind>, parent: seq<int>, tags: set<string>)
    requires Forest(kinds, parent)
    ensures var q := RemoveBlockedTextSpec(kinds, parent);
            QuerySelectorAll(kinds, q, tags) == Attached(q, QuerySelectorAll(kinds, parent, tags))
  {
    SelectAfterCut(kinds, parent, BlockedSet(kinds, parent), tags, 0);
  }

  /** Trimming happens before the comparison, and the comparison is exact:
      a trailing space is ignored, a change of case is not. */
  lemma BlockListExamples()
    ensures Blocked("Skip to content ")
    ensures Blocked("\n  The Latest\t")
    ensures !Blocked("skip to content")
    ensures !Blocked("The Latest News")
  {
    TrimSkipToContent();
    TrimTheLatest();
    TrimNoOp("skip to content");
    TrimNoOp("The Latest News");
  }

  lemma TrimSkipToContent()
    ensures Trim("Skip to content ") == "Skip to content"
  {
    assert TrimStart("Skip to content ") == "Skip to content ";
    assert TrimEnd("Skip to content ") == TrimEnd("Skip to content");
    assert TrimEnd("Skip to content") == "Skip to content";
  }

  lemma TrimLatestSpace()
    ensures Trim("The Latest ") == "The Latest"
  {
    assert TrimStart("The Latest ") == "The Latest ";
    assert TrimEnd("The Latest ") == TrimEnd("The Latest");
    assert TrimEnd("The Latest") == "The Latest";
  }

  lemma TrimTheLatest()
    ensures Trim("\n  The Latest\t") == "The Latest"
  {
    var s := "\n  The Latest\t";
    assert TrimStart(s) == TrimStart(s[1..]);
    assert TrimStart(s[1..]) == TrimStart(s[2..]);
    assert TrimStart(s[2..]) == TrimStart(s[3..]);
    assert s[3..] == "The Latest\t";
    assert TrimStart("The Latest\t") == "The Latest\t";
    assert TrimEnd("The Latest\t") == TrimEnd("The Latest");
    assert TrimEnd("The Latest") == "The Latest";
  }

  /** Stripping is not idempotent. In `<h1>The Latest <a>Skip to content</a></h1>`
      the first run removes only the `a` (the heading reads
      "The Latest Skip to content"); a second run then finds the heading
      reading "The Latest " and removes it too. */
  lemma StripNotIdempotent()
    ensures var t := Tree([DocumentNode, Element("h1"), TextNode("The Latest "),
                           Element("a"), TextNode("Skip to content")],
                          [-1, 0, 1, 1, 3]);
            Parsed(t) && StripTree(StripTree(t)) != StripTree(t)
  {
    var kinds := [DocumentNode, Element("h1"), TextNode("The Latest "),
                  Element("a"), TextNode("Skip to content")];
    var p := [-1, 0, 1, 1, 3];
    var t := Tree(kinds, p);
    assert Desc(p, 3, 1) && Desc(p, 4, 3);
    assert Parsed(t);
    var s1 := StripTree(t);
    FirstRun(kinds, p);
    SecondRun(kinds, s1.parent);
  }

  lemma FirstRun(kinds: seq<NodeKind>, p: seq<int>)
    requires kinds == [DocumentNode, Element("h1"), TextNode("The Latest "),
                       Element("a"), TextNode("Skip to content")]
    requires p == [-1, 0, 1, 1, 3]
    ensures StripTree(Tree(kinds, p)).parent == [-1, 0, 1, -1, 3]
  {
    assert ChromeSet(kinds, p) == {};
    assert RemoveChromeSpec(kinds, p) == p;
    FirstRunHeading(kinds, p);
    FirstRunLink(kinds, p);
    var q := StripTree(Tree(kinds, p)).parent;
    assert 1 !in BlockedSet(kinds, p) && 3 in BlockedSet(kinds, p);
    assert 0 !in BlockedSet(kinds, p) && 2 !in BlockedSet(kinds, p) && 4 !in BlockedSet(kinds, p);
    assert q[0] == -1 && q[1] == 0 && q[2] == 1 && q[3] == -1 && q[4] == 3;
  }

  /** Before the first run the heading reads "The Latest Skip to content",
      which is not on the block list. */
  lemma FirstRunHeading(kinds: seq<NodeKind>, p: seq<int>)
    requires kinds == [DocumentNode, Element("h1"), TextNode("The Latest "),
                       Element("a"), TextNode("Skip to content")]
    requires p == [-1, 0, 1, 1, 3]
    ensures !Blocked(TextContent(kinds, p, 1))
  {
    assert Desc(p, 2, 1) && Desc(p, 4, 1);
    var heading := "The Latest " + "Skip to content";
    assert TextFrom(kinds, p, 1, 4) == "Skip to content";
    assert TextFrom(kinds, p, 1, 3) == "Skip to content";
    assert TextFrom(kinds, p, 1, 2) == heading;
    assert TextFrom(kinds, p, 1, 1) == "" + heading;
    TrimNoOp(heading);
  }

  /** Before the first run the link reads "Skip to content", which is on the block
      list. */
  lemma FirstRunLink(kinds: seq<NodeKind>, p: seq<int>)
    requires kinds == [DocumentNode, Element("h1"), TextNode("The Latest "),
                       Element("a"), TextNode("Skip to content")]
    requires p == [-1, 0, 1, 1, 3]
    ensures Blocked(TextContent(kinds, p, 3))
  {
    assert Desc(p, 4, 3);
    assert TextFrom(kinds, p, 3, 5) == "";
    assert TextFrom(kinds, p, 3, 4) == "Skip to content";
    assert TextFrom(kinds, p, 3, 3) == "" + "Skip to content";
    assert TextContent(kinds, p, 3) == "Skip to content";
    TrimNoOp("Skip to content");
    assert Trim("Skip to content") in DropText;
  }

  lemma SecondRun(kinds: seq<NodeKind>, q: seq<int>)
    requires kinds == [DocumentNode, Element("h1"), TextNode("The Latest "),
                       Element("a"), TextNode("Skip to content")]
    requires q == [-1, 0, 1, -1, 3]
    ensures StripTree(Tree(kinds, q)).parent[1] == -1
  {
    assert ChromeSet(kinds, q) == {};
    assert RemoveChromeSpec(kinds, q) == q;
    SecondRunHeading(kinds, q);
    assert 1 in BlockedSet(kinds, q);
  }

  /** After the first run the heading reads "The Latest ", which is on the
      block list once trimmed. */
  lemma SecondRunHeading(kinds: seq<NodeKind>, q: seq<int>)
    requires kinds == [DocumentNode, Element("h1"), TextNode("The Latest "),
                       Element("a"), TextNode("Skip to content")]
    requires q == [-1, 0, 1, -1, 3]
    ensures Blocked(TextContent(kinds, q, 1))
  {
    assert !Desc(q, 3, 1) && !Desc(q, 4, 1) && Desc(q, 2, 1);
    assert TextFrom(kinds, q, 1, 5) == "";
    assert TextFrom(kinds, q, 1, 4) == "";
    assert TextFrom(kinds, q, 1, 3) == "";
    assert TextFrom(kinds, q, 1, 2) == "The Latest ";
    assert TextContent(kinds, q, 1) == "The Latest ";
    TrimLatestSpace();
  }
}
