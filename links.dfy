/**
 * The link-relevance logic of the scraper: `findClosestLink`, which picks the link that
 * belongs to one element, and `findLinksForText`, which gathers the links for a phrase
 * from three discovery strategies into one deduplicating accumulator.
 */
module Links {
  import opened Wrappers
  import opened Text
  import opened NetUrl
  import opened Dom

  /** The path segment that marks a product-detail link. */
  const ProductSegment: string := "/products/"

  predicate IsProductLink(link: string)
  {
    Contains(link, ProductSegment)
  }

  // ---------------------------------------------------------------------------
  // findClosestLink: specification

  /** The resolution of an element's `href`, when it has one. */
  function HrefLink(n: Node, base: Url): (r: seq<string>)
    ensures |r| <= 1
  {
    match Attr(n, "href")
    case Some(href) => [ResolveURL(base, href)]
    case None => []
  }

  /** The resolutions of the anchors among `parents` that have an `href`, in order. */
  function AncestorAnchorLinks(parents: seq<Node>, base: Url): seq<string>
  {
    if parents == [] then []
    else
      var p := parents[|parents| - 1];
      AncestorAnchorLinks(parents[..|parents| - 1], base) + (if IsAnchor(p) then HrefLink(p, base) else [])
  }

  /** The resolution of the first descendant anchor of `n`, when that anchor has an `href`. */
  function FirstAnchorLink(n: Node, base: Url): (r: seq<string>)
    ensures |r| <= 1
  {
    match FirstAnchor(n)
    case Some(a) => HrefLink(a, base)
    case None => []
  }

  /** For each of `parents` in order, the link of its first descendant anchor. */
  function ContainerLinks(parents: seq<Node>, base: Url): seq<string>
  {
    if parents == [] then []
    else ContainerLinks(parents[..|parents| - 1], base) + FirstAnchorLink(parents[|parents| - 1], base)
  }

  /** Every link the fallback chain offers, in the order it tries them. */
  function CandidateChain(loc: Loc, base: Url): seq<string>
  {
    AncestorAnchorLinks(loc.parents, base) + FirstAnchorLink(loc.node, base) + ContainerLinks(loc.parents, base)
  }

  /** The first non-empty string of `s`, or `""` when there is none. */
  function FirstNonEmpty(s: seq<string>): string
  {
    if s == [] then []
    else if s[0] != [] then s[0]
    else FirstNonEmpty(s[1..])
  }

  /** `FirstNonEmpty` is empty exactly when every entry is, and otherwise the first entry that is not. */
  lemma {:induction false} FirstNonEmptySpec(s: seq<string>)
    ensures FirstNonEmpty(s) == [] <==> forall k :: 0 <= k < |s| ==> s[k] == []
    ensures FirstNonEmpty(s) != [] ==>
      exists k :: 0 <= k < |s| && s[k] == FirstNonEmpty(s) && forall j :: 0 <= j < k ==> s[j] == []
  {
    if s != [] && s[0] == [] {
      FirstNonEmptySpec(s[1..]);
      assert forall k :: 1 <= k < |s| ==> s[k] == s[1..][k - 1];
      if FirstNonEmpty(s) != [] {
        var k :| 0 <= k < |s[1..]| && s[1..][k] == FirstNonEmpty(s) && forall j :: 0 <= j < k ==> s[1..][j] == [];
        assert s[k + 1] == FirstNonEmpty(s);
      }
    }
  }

  lemma {:induction false} FirstNonEmptyAppend(a: seq<string>, b: seq<string>)
    ensures FirstNonEmpty(a + b) == if FirstNonEmpty(a) != [] then FirstNonEmpty(a) else FirstNonEmpty(b)
  {
    if a != [] {
      assert (a + b)[1..] == a[1..] + b;
      FirstNonEmptyAppend(a[1..], b);
    } else {
      assert a + b == b;
    }
  }

  /**
   * The link of an element: its own `href` when it is an anchor that has one (even if that
   * resolves to `""`), otherwise the first non-empty link of the fallback chain.
   */
  function ClosestLink(loc: Loc, base: Url): string
  {
    if IsAnchor(loc.node) && Attr(loc.node, "href").Some? then ResolveURL(base, Attr(loc.node, "href").value)
    else FirstNonEmpty(CandidateChain(loc, base))
  }

  /**
   * The link of an element is its own resolved `href` when it is an anchor that has one.
   * Otherwise it is the first non-empty link of the fallback chain, and `""` exactly when
   * the chain offers no non-empty link.
   */
  lemma ClosestLinkSpec(loc: Loc, base: Url)
    ensures IsAnchor(loc.node) && Attr(loc.node, "href").Some? ==>
      ClosestLink(loc, base) == ResolveURL(base, Attr(loc.node, "href").value)
    ensures !(IsAnchor(loc.node) && Attr(loc.node, "href").Some?) ==>
      var chain := CandidateChain(loc, base);
      (ClosestLink(loc, base) == [] <==> forall k :: 0 <= k < |chain| ==> chain[k] == [])
      && (ClosestLink(loc, base) != [] ==>
            exists k :: 0 <= k < |chain| && chain[k] == ClosestLink(loc, base) && forall j :: 0 <= j < k ==> chain[j] == [])
  {
    FirstNonEmptySpec(CandidateChain(loc, base));
  }

  /** The chain read in three stages: parent anchors, then the first descendant anchor, then containers. */
  lemma ClosestLinkStages(loc: Loc, base: Url)
    requires !(IsAnchor(loc.node) && Attr(loc.node, "href").Some?)
    ensures var up := FirstNonEmpty(AncestorAnchorLinks(loc.parents, base));
            var down := FirstNonEmpty(FirstAnchorLink(loc.node, base));
            ClosestLink(loc, base)
            == if up != [] then up else if down != [] then down
               else FirstNonEmpty(ContainerLinks(loc.parents, base))
  {
    var up := AncestorAnchorLinks(loc.parents, base);
    var down := FirstAnchorLink(loc.node, base);
    FirstNonEmptyAppend(up, down);
    FirstNonEmptyAppend(up + down, ContainerLinks(loc.parents, base));
  }

  // ---------------------------------------------------------------------------
  // findClosestLink: the method

  /** The callback of the first `s.Parents().Each` walk for one parent. */
  method VisitParentAnchor(parent: Node, base: Url, foundLink: string) returns (foundLink': string)
    ensures foundLink' == if foundLink != [] then foundLink
                          else FirstNonEmpty(if IsAnchor(parent) then HrefLink(parent, base) else [])
  {
    foundLink' := foundLink;
    if foundLink != [] {
      return;
    }
    if IsAnchor(parent) {
      var href := Attr(parent, "href");
      if href.Some? {
        foundLink' := ResolveURL(base, href.value);
      }
    }
  }

  /**
   * The first `s.Parents().Each` walk of `findClosestLink`: the callback returns early
   * once `foundLink` is set, which skips the rest of that one iteration only.
   */
  method WalkParentAnchors(parents: seq<Node>, base: Url) returns (foundLink: string)
    ensures foundLink == FirstNonEmpty(AncestorAnchorLinks(parents, base))
  {
    foundLink := [];
    for i := 0 to |parents|
      invariant foundLink == FirstNonEmpty(AncestorAnchorLinks(parents[..i], base))
    {
      var parent := parents[i];
      ghost var before := AncestorAnchorLinks(parents[..i], base);
      ghost var own := if IsAnchor(parent) then HrefLink(parent, base) else [];
      foundLink := VisitParentAnchor(parent, base, foundLink);
      FirstNonEmptyAppend(before, own);
      assert parents[..i + 1][..i] == parents[..i];
    }
    assert parents[..|parents|] == parents;
  }

  /**
   * The callback of the second `s.Parents().Each` walk for one parent: the first descendant
   * anchor's link.  A product link is preferred, but `foundLink` is empty whenever the
   * callback gets that far, so both branches take the resolution.
   */
  method VisitContainer(parent: Node, base: Url, foundLink: string) returns (foundLink': string)
    ensures foundLink' == if foundLink != [] then foundLink else FirstNonEmpty(FirstAnchorLink(parent, base))
  {
    foundLink' := foundLink;
    if foundLink != [] {
      return;
    }
    var a := FirstAnchor(parent);
    if a.Some? {
      var href := Attr(a.value, "href");
      if href.Some? {
        var resolved := ResolveURL(base, href.value);
        if IsProductLink(resolved) {
          foundLink' := resolved;
        } else if foundLink' == [] {
          foundLink' := resolved;
        }
      }
    }
  }

  /** The second `s.Parents().Each` walk: the containers, nearest first. */
  method WalkContainers(parents: seq<Node>, base: Url) returns (foundLink: string)
    ensures foundLink == FirstNonEmpty(ContainerLinks(parents, base))
  {
    foundLink := [];
    for i := 0 to |parents|
      invariant foundLink == FirstNonEmpty(ContainerLinks(parents[..i], base))
    {
      var parent := parents[i];
      ghost var before := ContainerLinks(parents[..i], base);
      foundLink := VisitContainer(parent, base, foundLink);
      FirstNonEmptyAppend(before, FirstAnchorLink(parent, base));
      assert parents[..i + 1][..i] == parents[..i];
    }
    assert parents[..|parents|] == parents;
  }

  /** `findClosestLink`: the element's own link, then the parent anchors, the first descendant anchor and the containers. */
  method FindClosestLink(loc: Loc, base: Url) returns (link: string)
    ensures link == ClosestLink(loc, base)
  {
    var s := loc.node;
    if IsAnchor(s) {
      var href := Attr(s, "href");
      if href.Some? {
        return ResolveURL(base, href.value);
      }
    }
    ClosestLinkStages(loc, base);

    var foundLink := WalkParentAnchors(loc.parents, base);
    if foundLink != [] {
      return foundLink;
    }

    var first := FirstAnchor(s);
    if first.Some? {
      var href := Attr(first.value, "href");
      if href.Some? {
        foundLink := ResolveURL(base, href.value);
      }
    }
    assert foundLink == FirstNonEmpty(FirstAnchorLink(s, base));
    if foundLink != [] {
      return foundLink;
    }

    foundLink := WalkContainers(loc.parents, base);
    return foundLink;
  }

  // ---------------------------------------------------------------------------
  // findLinksForText: the discovery strategies

  /** Strategy 1 for one anchor: its `href` when its full text contains the phrase. */
  function AnchorFinding(loc: Loc, base: Url, phrase: string): seq<string>
  {
    if Contains(ToLower(FullText(loc.node)), phrase) then HrefLink(loc.node, base) else []
  }

  function AnchorScan(locs: seq<Loc>, base: Url, phrase: string): seq<string>
  {
    if locs == [] then []
    else AnchorScan(locs[..|locs| - 1], base, phrase) + AnchorFinding(locs[|locs| - 1], base, phrase)
  }

  /** Strategy 2 for one element: its closest link when its full text contains the phrase. */
  function ContainerFinding(loc: Loc, base: Url, phrase: string): seq<string>
  {
    if Contains(ToLower(FullText(loc.node)), phrase) then [ClosestLink(loc, base)] else []
  }

  function ContainerScan(locs: seq<Loc>, base: Url, phrase: string): seq<string>
  {
    if locs == [] then []
    else ContainerScan(locs[..|locs| - 1], base, phrase) + ContainerFinding(locs[|locs| - 1], base, phrase)
  }

  /** The selectors of strategy 2, in the order they are tried. */
  const ProductSelectors: seq<Selector> := [
    TagIs("h1"), TagIs("h2"), TagIs("h3"),
    AttrContains("class", "product"), AttrContains("class", "item"), AttrContains("id", "product")
  ]

  /**
   * The elements strategy 2 looks at: the `h1`, `h2` and `h3` elements, and those whose
   * `class` contains `product` or `item` or whose `id` contains `product`.
   */
  lemma ProductSelectorsMatch(n: Node)
    ensures (exists k :: 0 <= k < |ProductSelectors| && Matches(ProductSelectors[k], n)) <==>
      n.Element? &&
      (n.tag == "h1" || n.tag == "h2" || n.tag == "h3"
       || (exists i | 0 <= i < |n.attrs| :: n.attrs[i].key == "class" && Contains(n.attrs[i].val, "product"))
       || (exists i | 0 <= i < |n.attrs| :: n.attrs[i].key == "class" && Contains(n.attrs[i].val, "item"))
       || (exists i | 0 <= i < |n.attrs| :: n.attrs[i].key == "id" && Contains(n.attrs[i].val, "product")))
  {
    if n.Element? {
      if n.tag == "h1" { assert Matches(ProductSelectors[0], n); }
      if n.tag == "h2" { assert Matches(ProductSelectors[1], n); }
      if n.tag == "h3" { assert Matches(ProductSelectors[2], n); }
      if exists i | 0 <= i < |n.attrs| :: n.attrs[i].key == "class" && Contains(n.attrs[i].val, "product") {
        assert Matches(ProductSelectors[3], n);
      }
      if exists i | 0 <= i < |n.attrs| :: n.attrs[i].key == "class" && Contains(n.attrs[i].val, "item") {
        assert Matches(ProductSelectors[4], n);
      }
      if exists i | 0 <= i < |n.attrs| :: n.attrs[i].key == "id" && Contains(n.attrs[i].val, "product") {
        assert Matches(ProductSelectors[5], n);
      }
    }
  }

  /** Strategy 2: selector by selector, each over its matches in document order. */
  function SelectorScans(doc: Document, selectors: seq<Selector>, base: Url, phrase: string): seq<string>
  {
    if selectors == [] then []
    else
      SelectorScans(doc, selectors[..|selectors| - 1], base, phrase)
      + ContainerScan(Find(doc, selectors[|selectors| - 1]), base, phrase)
  }

  /** Strategy 3 for one element: its closest link when its direct text contains the phrase. */
  function DirectFinding(loc: Loc, base: Url, phrase: string): seq<string>
  {
    if Contains(ToLower(DirectText(loc.node)), phrase) then [ClosestLink(loc, base)] else []
  }

  function DirectScan(locs: seq<Loc>, base: Url, phrase: string): seq<string>
  {
    if locs == [] then []
    else DirectScan(locs[..|locs| - 1], base, phrase) + DirectFinding(locs[|locs| - 1], base, phrase)
  }

  /** Every link the three strategies offer the accumulator, in the order they offer them. */
  function Discoveries(doc: Document, base: Url, phrase: string): seq<string>
  {
    AnchorScan(Find(doc, TagIs("a")), base, phrase)
    + SelectorScans(doc, ProductSelectors, base, phrase)
    + DirectScan(AllElements(doc), base, phrase)
  }

  // ---------------------------------------------------------------------------
  // findLinksForText: the accumulator

  datatype Accumulator = Accumulator(linkMap: map<string, bool>, productLinks: seq<string>, otherLinks: seq<string>)

  /** A Go map lookup `linkMap[link]`, which is `false` for a missing key. */
  predicate Seen(linkMap: map<string, bool>, link: string)
  {
    link in linkMap && linkMap[link]
  }

  /** One offered link: kept, in its class, when it is non-empty and not seen before. */
  function Admit(acc: Accumulator, link: string): Accumulator
  {
    if link != [] && !Seen(acc.linkMap, link) then
      Accumulator(
        acc.linkMap[link := true],
        if IsProductLink(link) then acc.productLinks + [link] else acc.productLinks,
        if IsProductLink(link) then acc.otherLinks else acc.otherLinks + [link])
    else acc
  }

  /** The accumulator after the links `s` have been offered to `acc`, in order. */
  function AdmitSeq(acc: Accumulator, s: seq<string>): Accumulator
  {
    if s == [] then acc
    else Admit(AdmitSeq(acc, s[..|s| - 1]), s[|s| - 1])
  }

  /** The accumulator after the links `s` have been offered to an empty one. */
  function AdmitAll(s: seq<string>): Accumulator
  {
    AdmitSeq(Accumulator(map[], [], []), s)
  }

  /** Offering `a` and then `b` is offering `a + b`. */
  lemma {:induction false} AdmitSeqAppend(acc: Accumulator, a: seq<string>, b: seq<string>)
    ensures AdmitSeq(AdmitSeq(acc, a), b) == AdmitSeq(acc, a + b)
  {
    if b == [] {
      assert a + b == a;
    } else {
      var init := b[..|b| - 1];
      AdmitSeqAppend(acc, a, init);
      assert (a + b)[..|a + b| - 1] == a + init;
    }
  }

  /** Offering a single link is one step of `Admit`. */
  lemma AdmitSeqSingle(acc: Accumulator, x: string)
    ensures AdmitSeq(acc, [x]) == Admit(acc, x)
  {
    assert [x][..0] == [];
  }

  lemma AdmitAllSnoc(s: seq<string>, x: string)
    ensures AdmitAll(s + [x]) == Admit(AdmitAll(s), x)
  {
    assert (s + [x])[..|s|] == s;
  }

  /** The class returned: product links if there are any, otherwise the other links. */
  function Choose(acc: Accumulator): seq<string>
  {
    if |acc.productLinks| > 0 then acc.productLinks else acc.otherLinks
  }

  // ---------------------------------------------------------------------------
  // Properties of the accumulator

  /** The position of the first occurrence of `x` in `s`. */
  function FirstIndex(s: seq<string>, x: string): (k: nat)
    requires x in s
    ensures k < |s| && s[k] == x && x !in s[..k]
  {
    if s[0] == x then 0 else 1 + FirstIndex(s[1..], x)
  }

  lemma {:induction false} FirstIndexUnique(s: seq<string>, x: string, k: nat)
    requires k < |s| && s[k] == x && x !in s[..k]
    ensures FirstIndex(s, x) == k
  {
    if k > 0 {
      assert s[..k][0] == s[0];
      assert s[1..][..k - 1] == s[..k][1..];
      FirstIndexUnique(s[1..], x, k - 1);
    }
  }

  /** Appending to a sequence does not move the first occurrence of what it already holds. */
  lemma FirstIndexExtend(s: seq<string>, y: string, x: string)
    requires x in s
    ensures FirstIndex(s + [y], x) == FirstIndex(s, x)
  {
    var k := FirstIndex(s, x);
    assert (s + [y])[..k] == s[..k];
    FirstIndexUnique(s + [y], x, k);
  }

  predicate Distinct(s: seq<string>)
  {
    forall i, j :: 0 <= i < j < |s| ==> s[i] != s[j]
  }

  /** `r` lists links of `s` in the order of their first occurrence in `s`. */
  predicate InDiscoveryOrder(r: seq<string>, s: seq<string>)
  {
    (forall k :: 0 <= k < |r| ==> r[k] in s)
    && forall i, j :: 0 <= i < j < |r| ==> FirstIndex(s, r[i]) < FirstIndex(s, r[j])
  }

  /** The seen-map holds exactly the non-empty links offered, and each class holds exactly its own. */
  lemma {:induction false} AdmitAllMembers(s: seq<string>)
    ensures forall x :: Seen(AdmitAll(s).linkMap, x) <==> x != [] && x in s
    ensures forall x :: x in AdmitAll(s).linkMap ==> AdmitAll(s).linkMap[x]
    ensures forall x :: x in AdmitAll(s).productLinks <==> x != [] && x in s && IsProductLink(x)
    ensures forall x :: x in AdmitAll(s).otherLinks <==> x != [] && x in s && !IsProductLink(x)
  {
    if s != [] {
      var init, last := s[..|s| - 1], s[|s| - 1];
      AdmitAllMembers(init);
      assert s == init + [last];
      assert forall y :: y in s <==> y in init || y == last;
      assert AdmitAll(s) == Admit(AdmitAll(init), last);
      forall y
        ensures Seen(AdmitAll(s).linkMap, y) <==> y != [] && y in s
      {
        assert Seen(AdmitAll(init).linkMap, y) <==> y != [] && y in init;
      }
    }
  }

  /** Offering a link at the end keeps an ordered list ordered against the longer sequence. */
  lemma OrderExtend(r: seq<string>, s: seq<string>, x: string)
    requires InDiscoveryOrder(r, s)
    ensures InDiscoveryOrder(r, s + [x])
  {
    forall y | y in s
      ensures FirstIndex(s + [x], y) == FirstIndex(s, y)
    {
      FirstIndexExtend(s, x, y);
    }
  }

  /** A link offered for the first time goes after every link already listed. */
  lemma OrderAppend(r: seq<string>, s: seq<string>, x: string)
    requires InDiscoveryOrder(r, s) && x !in s
    ensures InDiscoveryOrder(r + [x], s + [x])
  {
    OrderExtend(r, s, x);
    FirstIndexUnique(s + [x], x, |s|);
    assert forall k :: 0 <= k < |r| ==> FirstIndex(s + [x], r[k]) < |s|;
  }

  /** Neither class holds a link twice. */
  lemma {:induction false} AdmitAllDistinct(s: seq<string>)
    ensures Distinct(AdmitAll(s).productLinks) && Distinct(AdmitAll(s).otherLinks)
  {
    if s != [] {
      var init, last := s[..|s| - 1], s[|s| - 1];
      AdmitAllDistinct(init);
      AdmitAllMembers(init);
      assert AdmitAll(s) == Admit(AdmitAll(init), last);
    }
  }

  /** Both classes list their links in first-discovery order. */
  lemma {:induction false} AdmitAllOrdered(s: seq<string>)
    ensures InDiscoveryOrder(AdmitAll(s).productLinks, s)
    ensures InDiscoveryOrder(AdmitAll(s).otherLinks, s)
  {
    if s != [] {
      var init, last := s[..|s| - 1], s[|s| - 1];
      assert s == init + [last];
      AdmitAllOrdered(init);
      AdmitAllMembers(init);
      var acc := AdmitAll(init);
      assert AdmitAll(s) == Admit(acc, last);
      if last != [] && !Seen(acc.linkMap, last) {
        if IsProductLink(last) {
          OrderAppend(acc.productLinks, init, last);
          OrderExtend(acc.otherLinks, init, last);
        } else {
          OrderExtend(acc.productLinks, init, last);
          OrderAppend(acc.otherLinks, init, last);
        }
      } else {
        OrderExtend(acc.productLinks, init, last);
        OrderExtend(acc.otherLinks, init, last);
      }
    }
  }

  // ---------------------------------------------------------------------------
  // findLinksForText: specification

  /** The self-page short-circuit: the base is a product page whose body mentions the phrase. */
  predicate SelfPage(doc: Document, baseURL: string, phrase: string)
  {
    Contains(baseURL, ProductSegment) && Contains(ToLower(BodyText(doc)), phrase)
  }

  /** Whether the strategies offer at least one product link. */
  predicate OffersProduct(s: seq<string>)
  {
    exists x :: x in s && IsProductLink(x)
  }

  /** The links `findLinksForText` returns; an unparsable base gives none. */
  function FindLinks(doc: Document, baseURL: string, phrase: string): (r: seq<string>)
    ensures [] !in r && Distinct(r)
    ensures (forall k :: 0 <= k < |r| ==> IsProductLink(r[k])) || (forall k :: 0 <= k < |r| ==> !IsProductLink(r[k]))
  {
    match Parse(baseURL)
    case None => []
    case Some(base) =>
      if SelfPage(doc, baseURL, phrase) then
        [baseURL]
      else
        var s := Discoveries(doc, base, phrase);
        AdmitAllMembers(s);
        AdmitAllDistinct(s);
        Choose(AdmitAll(s))
  }

  /** An unparsable base URL yields no links at all. */
  lemma FindLinksUnparsableBase(doc: Document, baseURL: string, phrase: string)
    requires Parse(baseURL).None?
    ensures FindLinks(doc, baseURL, phrase) == []
  {
  }

  /** On a product page that mentions the phrase the result is the page itself, whatever its anchors. */
  lemma FindLinksSelfPage(doc: Document, other: Document, baseURL: string, phrase: string)
    requires Parse(baseURL).Some? && SelfPage(doc, baseURL, phrase) && SelfPage(other, baseURL, phrase)
    ensures FindLinks(doc, baseURL, phrase) == [baseURL] == FindLinks(other, baseURL, phrase)
  {
  }

  /**
   * Otherwise a link is returned exactly when some strategy offered it, it is non-empty,
   * and it is of the class returned: product links if any was offered, other links if not.
   */
  lemma FindLinksMembers(doc: Document, baseURL: string, phrase: string, x: string)
    requires Parse(baseURL).Some? && !SelfPage(doc, baseURL, phrase)
    ensures var s := Discoveries(doc, Parse(baseURL).value, phrase);
      x in FindLinks(doc, baseURL, phrase) <==> x != [] && x in s && (IsProductLink(x) <==> OffersProduct(s))
  {
    var s := Discoveries(doc, Parse(baseURL).value, phrase);
    AdmitAllMembers(s);
    var products := AdmitAll(s).productLinks;
    assert !IsProductLink([]);
    assert |products| > 0 ==> products[0] in products;
    if OffersProduct(s) {
      var y :| y in s && IsProductLink(y);
      assert y in products;
    }
  }

  /** Otherwise the result lists its links in the order the strategies first offered them. */
  lemma FindLinksOrder(doc: Document, baseURL: string, phrase: string)
    requires Parse(baseURL).Some? && !SelfPage(doc, baseURL, phrase)
    ensures InDiscoveryOrder(FindLinks(doc, baseURL, phrase), Discoveries(doc, Parse(baseURL).value, phrase))
  {
    AdmitAllOrdered(Discoveries(doc, Parse(baseURL).value, phrase));
  }

  // ---------------------------------------------------------------------------
  // findLinksForText: the method

  /** Offers one link to the accumulator held in `linkMap`, `productLinks` and `otherLinks`. */
  method Record(linkMap: map<string, bool>, productLinks: seq<string>, otherLinks: seq<string>, link: string)
    returns (linkMap': map<string, bool>, productLinks': seq<string>, otherLinks': seq<string>)
    ensures Accumulator(linkMap', productLinks', otherLinks') == Admit(Accumulator(linkMap, productLinks, otherLinks), link)
  {
    linkMap', productLinks', otherLinks' := linkMap, productLinks, otherLinks;
    if link != [] && !Seen(linkMap, link) {
      linkMap' := linkMap[link := true];
      if IsProductLink(link) {
        productLinks' := productLinks + [link];
      } else {
        otherLinks' := otherLinks + [link];
      }
    }
  }

  /**
   * The callback of strategy 1 (the first `doc.Find("a").Each`) for one anchor: when its full
   * text contains the phrase, it offers the resolution of its `href`, if it has one.
   */
  method VisitAnchor(
    s: Loc, base: Url, searchTextLower: string,
    linkMap: map<string, bool>, productLinks: seq<string>, otherLinks: seq<string>)
    returns (linkMap': map<string, bool>, productLinks': seq<string>, otherLinks': seq<string>)
    ensures Accumulator(linkMap', productLinks', otherLinks')
            == AdmitSeq(Accumulator(linkMap, productLinks, otherLinks), AnchorFinding(s, base, searchTextLower))
  {
    linkMap', productLinks', otherLinks' := linkMap, productLinks, otherLinks;
    var text := ToLower(FullText(s.node));
    if Contains(text, searchTextLower) {
      var href := Attr(s.node, "href");
      if href.Some? {
        var resolved := ResolveURL(base, href.value);
        linkMap', productLinks', otherLinks' := Record(linkMap, productLinks, otherLinks, resolved);
        AdmitSeqSingle(Accumulator(linkMap, productLinks, otherLinks), resolved);
      }
    }
  }

  /** Strategy 1 over all anchors of the document, in document order. */
  method CollectAnchorLinks(
    anchors: seq<Loc>, base: Url, searchTextLower: string,
    linkMap: map<string, bool>, productLinks: seq<string>, otherLinks: seq<string>)
    returns (linkMap': map<string, bool>, productLinks': seq<string>, otherLinks': seq<string>)
    ensures Accumulator(linkMap', productLinks', otherLinks')
            == AdmitSeq(Accumulator(linkMap, productLinks, otherLinks), AnchorScan(anchors, base, searchTextLower))
  {
    ghost var start := Accumulator(linkMap, productLinks, otherLinks);
    linkMap', productLinks', otherLinks' := linkMap, productLinks, otherLinks;
    for i := 0 to |anchors|
      invariant Accumulator(linkMap', productLinks', otherLinks') == AdmitSeq(start, AnchorScan(anchors[..i], base, searchTextLower))
    {
      ghost var before := AnchorScan(anchors[..i], base, searchTextLower);
      linkMap', productLinks', otherLinks' :=
        VisitAnchor(anchors[i], base, searchTextLower, linkMap', productLinks', otherLinks');
      AdmitSeqAppend(start, before, AnchorFinding(anchors[i], base, searchTextLower));
      assert anchors[..i + 1][..i] == anchors[..i];
    }
    assert anchors[..|anchors|] == anchors;
  }

  /**
   * The callback of strategy 2 for one match: when its full text contains the phrase, it
   * offers the match's closest link.
   */
  method VisitMatch(
    s: Loc, base: Url, searchTextLower: string,
    linkMap: map<string, bool>, productLinks: seq<string>, otherLinks: seq<string>)
    returns (linkMap': map<string, bool>, productLinks': seq<string>, otherLinks': seq<string>)
    ensures Accumulator(linkMap', productLinks', otherLinks')
            == AdmitSeq(Accumulator(linkMap, productLinks, otherLinks), ContainerFinding(s, base, searchTextLower))
  {
    linkMap', productLinks', otherLinks' := linkMap, productLinks, otherLinks;
    var text := ToLower(FullText(s.node));
    if Contains(text, searchTextLower) {
      var link := FindClosestLink(s, base);
      linkMap', productLinks', otherLinks' := Record(linkMap, productLinks, otherLinks, link);
      AdmitSeqSingle(Accumulator(linkMap, productLinks, otherLinks), link);
    }
  }

  /** Strategy 2 for one selector, over its matches in document order. */
  method CollectContainerLinks(
    matches: seq<Loc>, base: Url, searchTextLower: string,
    linkMap: map<string, bool>, productLinks: seq<string>, otherLinks: seq<string>)
    returns (linkMap': map<string, bool>, productLinks': seq<string>, otherLinks': seq<string>)
    ensures Accumulator(linkMap', productLinks', otherLinks')
            == AdmitSeq(Accumulator(linkMap, productLinks, otherLinks), ContainerScan(matches, base, searchTextLower))
  {
    ghost var start := Accumulator(linkMap, productLinks, otherLinks);
    linkMap', productLinks', otherLinks' := linkMap, productLinks, otherLinks;
    for j := 0 to |matches|
      invariant Accumulator(linkMap', productLinks', otherLinks') == AdmitSeq(start, ContainerScan(matches[..j], base, searchTextLower))
    {
      ghost var before := ContainerScan(matches[..j], base, searchTextLower);
      linkMap', productLinks', otherLinks' :=
        VisitMatch(matches[j], base, searchTextLower, linkMap', productLinks', otherLinks');
      AdmitSeqAppend(start, before, ContainerFinding(matches[j], base, searchTextLower));
      assert matches[..j + 1][..j] == matches[..j];
    }
    assert matches[..|matches|] == matches;
  }

  /** Strategy 2: the selectors in order, each over its own matches. */
  method CollectSelectorLinks(
    doc: Document, productSelectors: seq<Selector>, base: Url, searchTextLower: string,
    linkMap: map<string, bool>, productLinks: seq<string>, otherLinks: seq<string>)
    returns (linkMap': map<string, bool>, productLinks': seq<string>, otherLinks': seq<string>)
    ensures Accumulator(linkMap', productLinks', otherLinks')
            == AdmitSeq(Accumulator(linkMap, productLinks, otherLinks), SelectorScans(doc, productSelectors, base, searchTextLower))
  {
    ghost var start := Accumulator(linkMap, productLinks, otherLinks);
    linkMap', productLinks', otherLinks' := linkMap, productLinks, otherLinks;
    for k := 0 to |productSelectors|
      invariant Accumulator(linkMap', productLinks', otherLinks')
                == AdmitSeq(start, SelectorScans(doc, productSelectors[..k], base, searchTextLower))
    {
      ghost var before := SelectorScans(doc, productSelectors[..k], base, searchTextLower);
      var matches := Find(doc, productSelectors[k]);
      linkMap', productLinks', otherLinks' :=
        CollectContainerLinks(matches, base, searchTextLower, linkMap', productLinks', otherLinks');
      AdmitSeqAppend(start, before, ContainerScan(matches, base, searchTextLower));
      assert productSelectors[..k + 1][..k] == productSelectors[..k];
    }
    assert productSelectors[..|productSelectors|] == productSelectors;
  }

  /**
   * The callback of strategy 3 (`doc.Find("*").Each`) for one element: when its direct text
   * contains the phrase, it offers the element's closest link.
   */
  method VisitElement(
    s: Loc, base: Url, searchTextLower: string,
    linkMap: map<string, bool>, productLinks: seq<string>, otherLinks: seq<string>)
    returns (linkMap': map<string, bool>, productLinks': seq<string>, otherLinks': seq<string>)
    ensures Accumulator(linkMap', productLinks', otherLinks')
            == AdmitSeq(Accumulator(linkMap, productLinks, otherLinks), DirectFinding(s, base, searchTextLower))
  {
    linkMap', productLinks', otherLinks' := linkMap, productLinks, otherLinks;
    var directText := ToLower(DirectText(s.node));
    if Contains(directText, searchTextLower) {
      var link := FindClosestLink(s, base);
      linkMap', productLinks', otherLinks' := Record(linkMap, productLinks, otherLinks, link);
      AdmitSeqSingle(Accumulator(linkMap, productLinks, otherLinks), link);
    }
  }

  /** Strategy 3 over every element of the document, in document order. */
  method CollectDirectTextLinks(
    elements: seq<Loc>, base: Url, searchTextLower: string,
    linkMap: map<string, bool>, productLinks: seq<string>, otherLinks: seq<string>)
    returns (linkMap': map<string, bool>, productLinks': seq<string>, otherLinks': seq<string>)
    ensures Accumulator(linkMap', productLinks', otherLinks')
            == AdmitSeq(Accumulator(linkMap, productLinks, otherLinks), DirectScan(elements, base, searchTextLower))
  {
    ghost var start := Accumulator(linkMap, productLinks, otherLinks);
    linkMap', productLinks', otherLinks' := linkMap, productLinks, otherLinks;
    for i := 0 to |elements|
      invariant Accumulator(linkMap', productLinks', otherLinks') == AdmitSeq(start, DirectScan(elements[..i], base, searchTextLower))
    {
      ghost var before := DirectScan(elements[..i], base, searchTextLower);
      linkMap', productLinks', otherLinks' :=
        VisitElement(elements[i], base, searchTextLower, linkMap', productLinks', otherLinks');
      AdmitSeqAppend(start, before, DirectFinding(elements[i], base, searchTextLower));
      assert elements[..i + 1][..i] == elements[..i];
    }
    assert elements[..|elements|] == elements;
  }

  /** The result once the base parsed and the short-circuit did not apply. */
  lemma FindLinksScanned(doc: Document, baseURL: string, phrase: string, base: Url)
    requires Parse(baseURL) == Some(base) && !SelfPage(doc, baseURL, phrase)
    ensures FindLinks(doc, baseURL, phrase) == Choose(AdmitAll(Discoveries(doc, base, phrase)))
  {
  }

  /** `findLinksForText`, with `nil` written as the empty sequence. */
  method FindLinksForText(doc: Document, baseURL: string, searchTextLower: string) returns (links: seq<string>)
    ensures links == FindLinks(doc, baseURL, searchTextLower)
  {
    var parsed := Parse(baseURL);
    if parsed.None? {
      return [];
    }
    var base := parsed.value;

    if Contains(baseURL, ProductSegment) {
      var bodyText := ToLower(BodyText(doc));
      if Contains(bodyText, searchTextLower) {
        return [baseURL];
      }
    }
    FindLinksScanned(doc, baseURL, searchTextLower, base);

    var linkMap: map<string, bool> := map[];
    var productLinks: seq<string> := [];
    var otherLinks: seq<string> := [];

    // Strategy 1: anchors whose full text contains the phrase.
    ghost var a := AnchorScan(Find(doc, TagIs("a")), base, searchTextLower);
    linkMap, productLinks, otherLinks :=
      CollectAnchorLinks(Find(doc, TagIs("a")), base, searchTextLower, linkMap, productLinks, otherLinks);

    // Strategy 2: the product-related selectors, in order.
    ghost var b := SelectorScans(doc, ProductSelectors, base, searchTextLower);
    linkMap, productLinks, otherLinks :=
      CollectSelectorLinks(doc, ProductSelectors, base, searchTextLower, linkMap, productLinks, otherLinks);
    AdmitSeqAppend(Accumulator(map[], [], []), a, b);

    // Strategy 3: every element whose direct text contains the phrase.
    ghost var c := DirectScan(AllElements(doc), base, searchTextLower);
    linkMap, productLinks, otherLinks :=
      CollectDirectTextLinks(AllElements(doc), base, searchTextLower, linkMap, productLinks, otherLinks);
    AdmitSeqAppend(Accumulator(map[], [], []), a + b, c);
    assert Accumulator(linkMap, productLinks, otherLinks) == AdmitAll(Discoveries(doc, base, searchTextLower));

    if |productLinks| > 0 {
      return productLinks;
    }
    return otherLinks;
  }
}
