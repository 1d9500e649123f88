/**
 * The parsed HTML document the scraper walks, as goquery presents it: a read-only tree
 * of text, comment and element nodes under a document root.  An element found by a
 * query is a `Loc`: the element together with its element ancestors, nearest first,
 * which is what goquery's `Parents()` yields for it.
 */
module Dom {
  import opened Wrappers
  import opened Text

  datatype Attribute = Attribute(key: string, val: string)

  datatype Node =
    | TextNode(data: string)
    | CommentNode(data: string)
    | Element(tag: string, attrs: seq<Attribute>, children: seq<Node>)

  /** The document root; it is not an element, so it is never a query result or a parent. */
  datatype Document = Document(children: seq<Node>)

  /** An element and its element ancestors, nearest first. */
  datatype Loc = Loc(node: Node, parents: seq<Node>)

  // ---------------------------------------------------------------------------
  // Attributes

  /** The value of the first attribute named `key` in `attrs`. */
  function AttrIn(attrs: seq<Attribute>, key: string): Option<string>
  {
    if attrs == [] then None
    else if attrs[0].key == key then Some(attrs[0].val)
    else AttrIn(attrs[1..], key)
  }

  /** `AttrIn` is absent exactly when no attribute has the name, and otherwise is the first one's value. */
  lemma {:induction false} AttrInSpec(attrs: seq<Attribute>, key: string)
    ensures AttrIn(attrs, key).None? <==> forall i :: 0 <= i < |attrs| ==> attrs[i].key != key
    ensures AttrIn(attrs, key).Some? ==>
      exists i :: 0 <= i < |attrs| && attrs[i] == Attribute(key, AttrIn(attrs, key).value)
                  && forall j :: 0 <= j < i ==> attrs[j].key != key
  {
    if attrs != [] && attrs[0].key != key {
      AttrInSpec(attrs[1..], key);
      assert forall i :: 1 <= i < |attrs| ==> attrs[i] == attrs[1..][i - 1];
      if AttrIn(attrs, key).Some? {
        var i :| 0 <= i < |attrs[1..]| && attrs[1..][i] == Attribute(key, AttrIn(attrs, key).value)
                 && forall j :: 0 <= j < i ==> attrs[1..][j].key != key;
        assert attrs[i + 1] == Attribute(key, AttrIn(attrs, key).value);
      }
    }
  }

  /** goquery's `Attr(key)`: the value and whether the attribute exists. */
  function Attr(n: Node, key: string): (r: Option<string>)
    ensures r.Some? ==> n.Element?
  {
    if n.Element? then AttrIn(n.attrs, key) else None
  }

  // ---------------------------------------------------------------------------
  // Selectors

  /** The two kinds of CSS selector the scraper uses: a type selector and `[key*='value']`. */
  datatype Selector = TagIs(name: string) | AttrContains(key: string, value: string)

  /**
   * Whether an element matches a selector.  `[key*='value']` holds when some attribute
   * named `key` has `value` as a substring; by section 6.3.2 of Selectors Level 3 an empty
   * `value` matches nothing.
   */
  predicate Matches(sel: Selector, n: Node)
  {
    n.Element? &&
    match sel
    case TagIs(name) => n.tag == name
    case AttrContains(key, value) =>
      value != [] && exists i | 0 <= i < |n.attrs| :: n.attrs[i].key == key && Contains(n.attrs[i].val, value)
  }

  predicate IsAnchor(n: Node)
  {
    Matches(TagIs("a"), n)
  }

  // ---------------------------------------------------------------------------
  // Text

  /** goquery's `Text()`: the text of every text node in the subtree, in document order. */
  function FullText(n: Node): string
    decreases n, 1
  {
    match n
    case TextNode(data) => data
    case CommentNode(_) => []
    case Element(_, _, children) => ForestText(children)
  }

  function ForestText(ns: seq<Node>): string
    decreases ns, 0
  {
    if ns == [] then [] else ForestText(ns[..|ns| - 1]) + FullText(ns[|ns| - 1])
  }

  /** The text of a node's own text-node children, leaving out everything inside child elements. */
  function OwnText(ns: seq<Node>): string
  {
    if ns == [] then []
    else OwnText(ns[..|ns| - 1]) + (if ns[|ns| - 1].TextNode? then ns[|ns| - 1].data else [])
  }

  /**
   * `s.Clone().Children().Remove().End().Text()`: the clone keeps only its text and comment
   * children once its element children are removed, so its text is the direct text.
   */
  function DirectText(n: Node): string
  {
    match n
    case TextNode(data) => data
    case CommentNode(_) => []
    case Element(_, _, children) => OwnText(children)
  }

  lemma ForestTextSnoc(front: seq<Node>, last: Node)
    ensures ForestText(front + [last]) == ForestText(front) + FullText(last)
  {
    assert (front + [last])[..|front|] == front;
  }

  /** The text of a forest is the text of its parts, in document order. */
  lemma {:induction false} ForestTextAppend(a: seq<Node>, b: seq<Node>)
    ensures ForestText(a + b) == ForestText(a) + ForestText(b)
    decreases |b|
  {
    if b == [] {
      assert a + b == a;
    } else {
      var init := b[..|b| - 1];
      var last := b[|b| - 1];
      assert a + b == (a + init) + [last];
      ForestTextSnoc(a + init, last);
      ForestTextAppend(a, init);
      assert ForestText(b) == ForestText(init) + FullText(last);
    }
  }

  /** The children of a node that are not elements, in their order. */
  function WithoutElements(ns: seq<Node>): seq<Node>
  {
    if ns == [] then []
    else WithoutElements(ns[..|ns| - 1]) + (if ns[|ns| - 1].Element? then [] else [ns[|ns| - 1]])
  }

  lemma {:induction false} OwnTextWithoutElements(ns: seq<Node>)
    ensures OwnText(ns) == ForestText(WithoutElements(ns))
    ensures forall k :: 0 <= k < |WithoutElements(ns)| ==> !WithoutElements(ns)[k].Element?
  {
    if ns != [] {
      var init := ns[..|ns| - 1];
      var last := ns[|ns| - 1];
      OwnTextWithoutElements(init);
      var w := WithoutElements(init);
      if !last.Element? {
        assert WithoutElements(ns) == w + [last];
        ForestTextSnoc(w, last);
      } else {
        assert WithoutElements(ns) == w;
      }
    }
  }

  /**
   * The direct text of an element is the full text of its clone once every element child
   * is removed: only its text and comment children remain.
   */
  lemma DirectTextRemovesChildren(n: Node)
    requires n.Element?
    ensures DirectText(n) == FullText(n.(children := WithoutElements(n.children)))
    ensures forall k :: 0 <= k < |WithoutElements(n.children)| ==> !WithoutElements(n.children)[k].Element?
  {
    OwnTextWithoutElements(n.children);
  }

  // ---------------------------------------------------------------------------
  // Document order

  /** The elements of a forest in document (pre-)order, each with its ancestors. */
  function ForestLocs(ns: seq<Node>, parents: seq<Node>): seq<Loc>
    decreases ns, 0
  {
    if ns == [] then [] else ForestLocs(ns[..|ns| - 1], parents) + SubtreeLocs(ns[|ns| - 1], parents)
  }

  function SubtreeLocs(n: Node, parents: seq<Node>): seq<Loc>
    decreases n, 1
  {
    match n
    case Element(_, _, children) => [Loc(n, parents)] + ForestLocs(children, [n] + parents)
    case _ => []
  }

  /** Document order lists elements only: text and comment nodes are never query results. */
  lemma {:induction false} ForestLocsElements(ns: seq<Node>, parents: seq<Node>)
    ensures forall k :: 0 <= k < |ForestLocs(ns, parents)| ==> ForestLocs(ns, parents)[k].node.Element?
    decreases ns, 0
  {
    if ns != [] {
      ForestLocsElements(ns[..|ns| - 1], parents);
      SubtreeLocsElements(ns[|ns| - 1], parents);
    }
  }

  lemma {:induction false} SubtreeLocsElements(n: Node, parents: seq<Node>)
    ensures forall k :: 0 <= k < |SubtreeLocs(n, parents)| ==> SubtreeLocs(n, parents)[k].node.Element?
    decreases n, 1
  {
    if n.Element? {
      ForestLocsElements(n.children, [n] + parents);
    }
  }

  /** `doc.Find("*")`: every element of the document in document order. */
  function AllElements(doc: Document): seq<Loc>
  {
    ForestLocs(doc.children, [])
  }

  /** The elements of `locs` that match `sel`, in their order. */
  function Select(locs: seq<Loc>, sel: Selector): seq<Loc>
  {
    if locs == [] then []
    else Select(locs[..|locs| - 1], sel) + (if Matches(sel, locs[|locs| - 1].node) then [locs[|locs| - 1]] else [])
  }

  /** `Select` keeps exactly the elements that match. */
  lemma {:induction false} SelectSpec(locs: seq<Loc>, sel: Selector)
    ensures forall k :: 0 <= k < |Select(locs, sel)| ==> Matches(sel, Select(locs, sel)[k].node)
    ensures forall l :: l in Select(locs, sel) <==> l in locs && Matches(sel, l.node)
  {
    if locs != [] {
      var init := locs[..|locs| - 1];
      SelectSpec(init, sel);
      assert locs == init + [locs[|locs| - 1]];
    }
  }

  /** `doc.Find(sel)`: the matching elements in document order. */
  function Find(doc: Document, sel: Selector): seq<Loc>
  {
    Select(AllElements(doc), sel)
  }

  /** The element descendants of a node, in document order (the node itself excluded). */
  function Descendants(n: Node): seq<Node>
  {
    if n.Element? then Nodes(ForestLocs(n.children, [n])) else []
  }

  function Nodes(locs: seq<Loc>): seq<Node>
  {
    if locs == [] then [] else Nodes(locs[..|locs| - 1]) + [locs[|locs| - 1].node]
  }

  /** The first anchor of `ns`. */
  function FirstAnchorIn(ns: seq<Node>): Option<Node>
  {
    if ns == [] then None
    else if IsAnchor(ns[0]) then Some(ns[0])
    else FirstAnchorIn(ns[1..])
  }

  /** `FirstAnchorIn` finds an anchor exactly when there is one, and no anchor comes before it. */
  lemma {:induction false} FirstAnchorInSpec(ns: seq<Node>)
    ensures FirstAnchorIn(ns).None? <==> forall k :: 0 <= k < |ns| ==> !IsAnchor(ns[k])
    ensures FirstAnchorIn(ns).Some? ==>
      exists k :: 0 <= k < |ns| && ns[k] == FirstAnchorIn(ns).value && IsAnchor(ns[k])
                  && forall j :: 0 <= j < k ==> !IsAnchor(ns[j])
  {
    if ns != [] && !IsAnchor(ns[0]) {
      FirstAnchorInSpec(ns[1..]);
      assert forall k :: 1 <= k < |ns| ==> ns[k] == ns[1..][k - 1];
      if FirstAnchorIn(ns).Some? {
        var k :| 0 <= k < |ns[1..]| && ns[1..][k] == FirstAnchorIn(ns).value && IsAnchor(ns[1..][k])
                 && forall j :: 0 <= j < k ==> !IsAnchor(ns[1..][j]);
        assert ns[k + 1] == FirstAnchorIn(ns).value;
      }
    }
  }

  /** `s.Find("a").First()`: the first anchor among the descendants of `n`. */
  function FirstAnchor(n: Node): Option<Node>
  {
    FirstAnchorIn(Descendants(n))
  }

  /** The concatenated full text of the elements `locs`. */
  function TextOf(locs: seq<Loc>): string
  {
    if locs == [] then [] else TextOf(locs[..|locs| - 1]) + FullText(locs[|locs| - 1].node)
  }

  /** `doc.Find("body").Text()`: the full text of every `body` element, in document order. */
  function BodyText(doc: Document): string
  {
    TextOf(Find(doc, TagIs("body")))
  }

  /** Whatever the lower-cased text of one listed element contains, the lower-cased concatenated text contains too. */
  lemma {:induction false} TextOfContains(locs: seq<Loc>, k: nat, sub: string)
    requires k < |locs| && Contains(ToLower(FullText(locs[k].node)), sub)
    ensures Contains(ToLower(TextOf(locs)), sub)
  {
    var last := |locs| - 1;
    var t := TextOf(locs[..last]);
    var lastText := FullText(locs[last].node);
    ToLowerConcat(t, lastText);
    if k == last {
      ContainsInContext(ToLower(t), ToLower(lastText), [], sub);
      assert ToLower(TextOf(locs)) == ToLower(t) + ToLower(lastText) + [];
    } else {
      TextOfContains(locs[..last], k, sub);
      ContainsInContext([], ToLower(t), ToLower(lastText), sub);
      assert ToLower(TextOf(locs)) == [] + ToLower(t) + ToLower(lastText);
    }
  }
}
