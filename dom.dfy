/** The parsed HTML document the worker prunes, as an array of nodes with
    parent links.

    Node 0 is the document node. The parser numbers the nodes in document
    order (a preorder walk), so every parent has a smaller index than its
    children and, within any subtree, index order is document order.
    `parent[i] == -1` means node `i` has no parent: the document node, or a
    node that was removed. Removing a node (`ChildNode.remove()`) cuts only
    its own parent link; its subtree stays attached to it, and so leaves the
    document with it. */
module Dom {
  import opened Js

  datatype NodeKind =
    | DocumentNode
    | Element(tag: string)      // tag: the lower-case local name
    | TextNode(data: string)
    | CommentNode(data: string)

  /** A document: the kind of every node and its parent link. */
  datatype Tree = Tree(kinds: seq<NodeKind>, parent: seq<int>)

  predicate CanHaveChildren(k: NodeKind) {
    k.DocumentNode? || k.Element?
  }

  /** Shape every document keeps while nodes are removed: a forest whose
      parents precede their children and whose first tree is rooted at the
      document node. */
  predicate Forest(kinds: seq<NodeKind>, parent: seq<int>) {
    |kinds| == |parent| > 0 &&
    kinds[0] == DocumentNode && parent[0] == -1 &&
    forall i :: 0 < i < |parent| ==>
      -1 <= parent[i] < i && !kinds[i].DocumentNode? &&
      (parent[i] >= 0 ==> CanHaveChildren(kinds[parent[i]]))
  }

  /** `j` is `x` or lies in the subtree of `x`. Only the links of the nodes
      strictly between `x` and `j`, and of `j`, are consulted. */
  predicate Desc(parent: seq<int>, j: nat, x: nat)
    requires j < |parent|
    decreases j
  {
    j == x || (x < j && 0 <= parent[j] < j && Desc(parent, parent[j], x))
  }

  /** `j` is attached to the document (it is a descendant of node 0). */
  predicate InDocument(parent: seq<int>, j: nat)
    requires j < |parent|
  {
    Desc(parent, j, 0)
  }

  /** What the parser produces: a forest whose every node is attached, and
      whose indices are a preorder (the node before `i` is the parent of `i`
      or a descendant of it). */
  predicate Parsed(t: Tree) {
    Forest(t.kinds, t.parent) &&
    forall i :: 0 < i < |t.parent| ==>
      0 <= t.parent[i] && Desc(t.parent, i - 1, t.parent[i])
  }

  type ParsedTree = t: Tree | Parsed(t) witness Tree([DocumentNode], [-1])

  /** Concatenated data of the text nodes among `j`, `j + 1`, ... that lie in
      the subtree of `x`. */
  function TextFrom(kinds: seq<NodeKind>, parent: seq<int>, x: nat, j: nat): string
    requires |kinds| == |parent| && j <= |parent|
    decreases |parent| - j
  {
    if j == |parent| then ""
    else (if kinds[j].TextNode? && Desc(parent, j, x) then kinds[j].data else "")
         + TextFrom(kinds, parent, x, j + 1)
  }

  /** `Node.textContent` of element `x`: the data of every text node in its
      subtree, in document order. */
  function TextContent(kinds: seq<NodeKind>, parent: seq<int>, x: nat): string
    requires |kinds| == |parent| && x < |parent|
  {
    TextFrom(kinds, parent, x, x)
  }

  /** Element `i` is matched by a selector list of type selectors `tags`
      evaluated on the document. */
  predicate Matches(kinds: seq<NodeKind>, parent: seq<int>, tags: set<string>, i: nat)
    requires |kinds| == |parent| && i < |parent|
  {
    kinds[i].Element? && kinds[i].tag in tags && InDocument(parent, i)
  }

  /** The matching elements among `j`, `j + 1`, ..., in document order. */
  function SelectFrom(kinds: seq<NodeKind>, parent: seq<int>, tags: set<string>, j: nat): (r: seq<nat>)
    requires |kinds| == |parent| && j <= |parent|
    ensures forall k :: 0 <= k < |r| ==> j <= r[k] < |parent| && Matches(kinds, parent, tags, r[k])
    ensures forall i :: j <= i < |parent| && Matches(kinds, parent, tags, i) ==> i in r
    ensures forall a, b :: 0 <= a < b < |r| ==> r[a] < r[b]
    decreases |parent| - j
  {
    if j == |parent| then []
    else if Matches(kinds, parent, tags, j) then [j] + SelectFrom(kinds, parent, tags, j + 1)
    else SelectFrom(kinds, parent, tags, j + 1)
  }

  /** `document.querySelectorAll(tags)`: a static list of every element of
      the document whose tag is in `tags`, in document order. */
  function QuerySelectorAll(kinds: seq<NodeKind>, parent: seq<int>, tags: set<string>): (r: seq<nat>)
    requires |kinds| == |parent|
  {
    SelectFrom(kinds, parent, tags, 0)
  }

  /** The links after every node in `d` has been removed from its parent. */
  function Cut(parent: seq<int>, d: set<nat>): (r: seq<int>)
  {
    seq(|parent|, i requires 0 <= i < |parent| => if i in d then -1 else parent[i])
  }

  /** The document as a mutable object; the worker's handler prunes it in
      place through `Remove`. */
  class Document {
    const kinds: seq<NodeKind>
    var parent: seq<int>

    ghost predicate Valid()
      reads this
    {
      Forest(kinds, parent)
    }

    /** The document `parseHTML` returns. */
    constructor (t: ParsedTree)
      ensures Valid()
      ensures kinds == t.kinds && parent == t.parent
    {
      kinds := t.kinds;
      parent := t.parent;
    }

    /** The current state of the document, as a value. */
    function Snapshot(): Tree
      reads this
    {
      Tree(kinds, parent)
    }

    /** `node.remove()`: cuts the link from node `i` to its parent, if any. */
    method Remove(i: nat)
      requires Valid() && i < |parent|
      modifies this
      ensures Valid()
      ensures parent == old(parent)[i := -1]
    {
      parent := parent[i := -1];
    }
  }

  // ---------------------------------------------------------------------
  // Facts about descendants, text content and removal

  lemma {:induction false} DescBelow(parent: seq<int>, j: nat, x: nat)
    requires j < |parent| && Desc(parent, j, x)
    ensures x <= j
  {
  }

  /** Whether `j` lies under `x` does not depend on the links of nodes at or
      before `x`. */
  lemma {:induction false} DescFrame(p: seq<int>, q: seq<int>, j: nat, x: nat)
    requires j < |p| == |q|
    requires forall i :: x < i < |p| ==> p[i] == q[i]
    ensures Desc(p, j, x) == Desc(q, j, x)
    decreases j
  {
    if j != x && x < j && 0 <= p[j] < j {
      DescFrame(p, q, p[j], x);
    }
  }

  lemma {:induction false} TextFromFrame(kinds: seq<NodeKind>, p: seq<int>, q: seq<int>, x: nat, j: nat)
    requires |kinds| == |p| == |q| && j <= |p|
    requires forall i :: x < i < |p| ==> p[i] == q[i]
    ensures TextFrom(kinds, p, x, j) == TextFrom(kinds, q, x, j)
    decreases |p| - j
  {
    if j < |p| {
      DescFrame(p, q, j, x);
      TextFromFrame(kinds, p, q, x, j + 1);
    }
  }

  /** The text content of `x` depends only on the links of the nodes after
      `x`: removing `x` itself, or any node before it, leaves it unchanged. */
  lemma TextContentFrame(kinds: seq<NodeKind>, p: seq<int>, q: seq<int>, x: nat)
    requires |kinds| == |p| == |q| && x < |p|
    requires forall i :: x < i < |p| ==> p[i] == q[i]
    ensures TextContent(kinds, p, x) == TextContent(kinds, q, x)
  {
    TextFromFrame(kinds, p, q, x, x);
  }

  /** Cutting links never attaches a node below another. */
  lemma {:induction false} CutKeepsNoNewDesc(p: seq<int>, d: set<nat>, j: nat, x: nat)
    requires j < |p|
    requires Desc(Cut(p, d), j, x)
    ensures Desc(p, j, x)
    decreases j
  {
    var q := Cut(p, d);
    if j != x {
      CutKeepsNoNewDesc(p, d, q[j], x);
    }
  }

  /** In the document after a cut, a node keeps every ancestor it had before
      that is still an ancestor of it. */
  lemma {:induction false} CutKeepsPath(p: seq<int>, d: set<nat>, k: nat, y: nat)
    requires k < |p|
    requires Desc(Cut(p, d), k, 0) && Desc(p, k, y)
    ensures Desc(Cut(p, d), k, y)
    decreases k
  {
    var q := Cut(p, d);
    if k != y {
      assert q[k] == p[k];
      CutKeepsPath(p, d, p[k], y);
    }
  }

  /** The ancestors of a node form a chain: an ancestor of `k` lies under
      every smaller ancestor of `k`. */
  lemma {:induction false} AncestorsChain(q: seq<int>, k: nat, y: nat, z: nat)
    requires k < |q|
    requires Desc(q, k, y) && Desc(q, k, z) && z <= y
    ensures Desc(q, y, z)
    decreases k
  {
    if k != y {
      DescBelow(q, q[k], y);
      AncestorsChain(q, q[k], y, z);
    }
  }

  /** After removing the nodes `d`, a node is in the document exactly when it
      was before and neither it nor any of its ancestors was removed. */
  lemma {:induction false} CutSurvivors(p: seq<int>, d: set<nat>, i: nat)
    requires i < |p| && 0 !in d
    ensures InDocument(Cut(p, d), i) <==>
            InDocument(p, i) && forall a :: 0 <= a < |p| && Desc(p, i, a) ==> a !in d
    decreases i
  {
    var q := Cut(p, d);
    if InDocument(q, i) {
      CutKeepsNoNewDesc(p, d, i, 0);
      forall a | 0 <= a < |p| && Desc(p, i, a) ensures a !in d {
        CutKeepsPath(p, d, i, a);
        AncestorsChain(q, i, a, 0);
      }
    }
    if InDocument(p, i) && (forall a :: 0 <= a < |p| && Desc(p, i, a) ==> a !in d) {
      if i != 0 {
        assert Desc(p, i, i);
        forall a | 0 <= a < |p| && Desc(p, p[i], a) ensures a !in d {
          DescBelow(p, p[i], a);
          assert Desc(p, i, a);
        }
        CutSurvivors(p, d, p[i]);
      }
    }
  }

  /** Keeps the entries of `s` that are attached to the document. */
  function Attached(parent: seq<int>, s: seq<nat>): (r: seq<nat>)
    requires forall k :: 0 <= k < |s| ==> s[k] < |parent|
    ensures forall k :: 0 <= k < |r| ==> r[k] in s && InDocument(parent, r[k])
    ensures forall x :: x in s && InDocument(parent, x) ==> x in r
    ensures (forall a, b :: 0 <= a < b < |s| ==> s[a] < s[b]) ==>
            forall a, b :: 0 <= a < b < |r| ==> r[a] < r[b]
  {
    if s == [] then []
    else if InDocument(parent, s[0]) then [s[0]] + Attached(parent, s[1..])
    else Attached(parent, s[1..])
  }

  /** Removing nodes keeps the relative order of what remains: the elements
      a selector finds afterwards are those it found before that are still
      attached, in the same order. */
  lemma {:induction false} SelectAfterCut(kinds: seq<NodeKind>, p: seq<int>, d: set<nat>, tags: set<string>, j: nat)
    requires |kinds| == |p| && j <= |p|
    ensures SelectFrom(kinds, Cut(p, d), tags, j) == Attached(Cut(p, d), SelectFrom(kinds, p, tags, j))
    decreases |p| - j
  {
    var q := Cut(p, d);
    if j < |p| {
      SelectAfterCut(kinds, p, d, tags, j + 1);
      var rest := SelectFrom(kinds, p, tags, j + 1);
      if Matches(kinds, p, tags, j) {
        assert SelectFrom(kinds, p, tags, j) == [j] + rest;
        assert ([j] + rest)[1..] == rest;
        if InDocument(q, j) {
          assert SelectFrom(kinds, q, tags, j) == [j] + SelectFrom(kinds, q, tags, j + 1);
        } else {
          assert SelectFrom(kinds, q, tags, j) == SelectFrom(kinds, q, tags, j + 1);
        }
      } else {
        if InDocument(q, j) {
          CutKeepsNoNewDesc(p, d, j, 0);
        }
        assert SelectFrom(kinds, q, tags, j) == SelectFrom(kinds, q, tags, j + 1);
      }
    }
  }
}
