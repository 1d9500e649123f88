# Web scraper link relevance, in Dafny

The scraper fetches one web page on a timer. It lower-cases the text of the page's `body`
and looks for a search phrase in it. On a match it posts a Discord message that lists the
links relevant to the phrase. This project models the logic that decides whether to notify
and which links to list (`web_scraper/main.go`):

- `findLinksForText` gathers candidate links from three discovery strategies:
  1. anchors whose text contains the phrase;
  2. elements matching six product-related selectors;
  3. every element whose own text contains the phrase.

  It first handles an unparsable base URL (no links) and a product page that matches
  itself (the page is the one link). The links go into one deduplicating accumulator:
  a seen-map plus a product class and an "other" class. It returns the product links if
  there are any, otherwise the other links.
- `findClosestLink` picks the link that belongs to one element through a fallback chain:
  1. the element's own `href`, when the element is an anchor that has one (even if it
     resolves to `""`);
  2. the nearest ancestor anchor whose `href` resolves to a non-empty string;
  3. the first descendant anchor, when it has an `href` that resolves to a non-empty string;
  4. the nearest ancestor whose *first* descendant anchor has an `href` that resolves to a
     non-empty string. An ancestor whose first anchor has no `href` is skipped, even when a
     later anchor inside it has one.
- `resolveURL` resolves an `href` against the page URL.
- `checkWebsite` makes the match decision and falls back to the website URL.
- `sendDiscordNotification` formats the numbered link list.

Files:

- `wrappers.dfy`: `Option`.
- `text.dfy` (module `Text`): ASCII lower-casing (`strings.ToLower`) and substring search
  (`strings.Contains`).
- `url.dfy` (module `NetUrl`): the part of Go's `net/url` package that `resolveURL` uses,
  on the fields of `url.URL`. The package is not among the repository's files; the model
  follows `net/url/url.go` of the Go 1.22 standard library. For a bracketed host,
  that release checks the `]` and the port, and unescapes the host, rejecting a bad `%`
  escape; later releases also check that it holds an IP address. Escapes are not modelled
  (see "## Left out").
  - `Parse` is `url.Parse`. It covers the scheme, the opaque form, the query, the
    fragment, the authority with user information, and the host and port checks. It also
    covers the errors: a leading `:`, a control character, a colon in the first segment of
    a relative path, a bad port, a missing `]`, and bad user information.
  - `ResolveReference` and `ResolvePath` are the `ResolveReference` method and its
    `resolvePath` helper.
  - `UrlString` is the `String` method.
  - `ResolveURL` is `resolveURL`.
- `dom.dfy` (module `Dom`): the parsed document as goquery presents it.
  - It is a tree of text, comment and element nodes.
  - An element found by a query is a `Loc`: the element plus its ancestors, nearest first.
  - It defines the two selector forms used (`tag` and `[attr*='value']`), `Text()`, the
    "direct text" idiom, and document-order queries.
- `links.dfy` (module `Links`): `findClosestLink` and `findLinksForText`.
  - Each is specified by a function: `ClosestLink` and `FindLinks`.
  - Each is implemented by an imperative method with the source's loops and mutable
    state: `FindClosestLink` and `FindLinksForText`.
  - The per-element callbacks of the three strategies and of the two parent walks are
    methods of their own (`Visit…`). The `Find("a").First().Each` of the own-descendant
    step is inlined in `FindClosestLink`, and the nested `Each` of the container walk is
    inlined in `VisitContainer`. The `Find("body").Each` of `checkWebsite` is the loop of
    `CheckWebsite`.
  - The accumulator's meaning is the fold `AdmitSeq` over the stream of links the
    strategies offer (`Discoveries`).
- `pipeline.dfy` (module `Pipeline`): the decision of `checkWebsite` (`Notified`,
  `CheckWebsite`) and the links section of the message (`LinksSection`, `BuildLinksText`,
  `Message`). The message title keeps the characters the source file holds:
  U+00F0 U+0178 U+201D U+201D, which are the UTF-8 bytes of a bell emoji read back as
  Windows-1252. The program sends those characters, so the model does too.

The main results:

- `FindLinks` never returns `""` or a duplicate, and always returns a single class.
- A link is returned exactly when some strategy offered it and its class is the one chosen
  (`FindLinksMembers`).
- The result keeps first-discovery order (`FindLinksOrder`).
- The method versions compute exactly the specification functions (`FindLinksForText`,
  `FindClosestLink`, `CheckWebsite`, `BuildLinksText`).
- The product preference in the container stage of `findClosestLink` cannot change the
  result. The callback only gets that far when `foundLink` is still empty, so both branches
  store the same value (`VisitContainer`).
- A notification is sent exactly when the body matches, and it always lists at least one
  link (`Notified`, `NotificationListsLinks`).
- Several links resolve to themselves or to the expected page:
  - on any page, an absolute link written out in full resolves to itself
    (`ResolveURLAbsoluteUnchanged`);
  - on any page, a root-relative link keeps the page's scheme and host
    (`ResolveURLRootRelative`);
  - on any page, a trailing `#` changes nothing (`ResolveURLTrailingHash`);
  - a same-page link `#f`, and `//` alone, name the page itself
    (`ResolveURLSamePage`, `ResolveURLEmptyAuthority`). This holds when the page is
    hierarchical (no opaque part, and `OmitHost` unset), has no bare `?`, and has a path
    that is empty, or absolute and free of `.` and `..` elements.

## Model

| member | source | states |
|---|---|---|
| NetUrl.ResolveURL | web_scraper/main.go:282-295 | an empty `href` or one that does not parse resolves to `""` |
| NetUrl.ResolveURLNonEmpty | web_scraper/main.go:282-295 | against a base with a scheme, a non-empty parsable `href` never resolves to `""` |
| NetUrl.ResolveURLAbsoluteUnchanged | web_scraper/main.go:287-294 | an absolute link written out in full, with a lower-case scheme, a valid authority and no `.` or `..` elements, resolves to itself whatever the base |
| NetUrl.ResolveURLRootRelative | web_scraper/main.go:287-294 | a root-relative link without `.` or `..` elements keeps the base's scheme, user and host and brings its own path, query and fragment |
| NetUrl.ResolveURLSamePage | web_scraper/main.go:287-294 | on a hierarchical base with a clean path and no bare `?`, `#f` resolves to the base with fragment `f`, and `#` alone keeps the base's own fragment |
| NetUrl.ResolveURLEmptyAuthority | web_scraper/main.go:287-294 | `//` has an empty authority; on a hierarchical base with a clean path and no bare `?` it resolves to the base itself |
| NetUrl.ResolveURLTrailingHash | web_scraper/main.go:287-294 | a trailing `#` with nothing after it changes neither the parse nor the resolution |
| NetUrl.Parse | web_scraper/main.go:287 | a leading `:` is an error; the scheme comes out lower-case; only a URL with a scheme can be opaque |
| NetUrl.ParseRest | web_scraper/main.go:287 | the scheme and fragment are kept as given; an opaque result needs a scheme |
| NetUrl.ParseAbsolute | web_scraper/main.go:287 | `scheme://authority/path?query#fragment` parses exactly when the authority passes the host, port and user checks, into the pieces as written with the scheme lower-cased |
| NetUrl.ParseRejectsControl | web_scraper/main.go:287 | a control character before the fragment makes parsing fail |
| NetUrl.ParseTripleSlash | web_scraper/main.go:287 | without a scheme, a `///` link has no host and no user, and is all path |
| NetUrl.ParseAuthority | web_scraper/main.go:287 | an accepted authority is its user information, an `@`, and its host |
| NetUrl.SplitScheme | web_scraper/main.go:287 | a leading `:` is exactly the missing-scheme error; a scheme that is found is valid and is followed by `:` |
| NetUrl.SplitSchemeFinds | web_scraper/main.go:287 | a valid scheme followed by `:` is always found, with the rest after the colon |
| NetUrl.SplitAuthority | web_scraper/main.go:287 | after `//` the authority runs up to the next `/` and holds none; the rest is empty or absolute |
| NetUrl.Cut | web_scraper/main.go:287 | the text before the first separator, and the rest when there is a separator; the pieces rebuild the input |
| NetUrl.CutJoin | web_scraper/main.go:287 | the text is cut at the first separator |
| NetUrl.LastIndex | web_scraper/main.go:287-293 | the position of the last occurrence of a character, or -1 when there is none |
| NetUrl.ResolveReference | web_scraper/main.go:293 | the resolved path is always empty or absolute |
| NetUrl.ResolveAbsolute | web_scraper/main.go:293 | a reference with a scheme, host or user keeps all its fields except two: its path is cleaned, and it takes the base's scheme when it has none. So one with a scheme resolves the same against every base, and a scheme-relative `//host/p` resolves the same up to the scheme |
| NetUrl.ResolveInherits | web_scraper/main.go:293 | the scheme comes from the reference when it has one. A relative reference takes the base's host and user, also for an empty `//`, unless it has no path and the base is opaque. It keeps its own query and fragment, unless it has neither a path nor a query: then it inherits the base's query, and for an empty fragment also the base's fragment |
| NetUrl.ResolvePath | web_scraper/main.go:293 | a merged path is empty or absolute |
| NetUrl.ResolvePathDotFree | web_scraper/main.go:293 | `resolvePath` leaves no `.` or `..` element in the merged path, whatever the base and reference |
| NetUrl.ParentUndoes | web_scraper/main.go:293 | in the `resolvePath` loop, a `..` right after an ordinary element undoes it: the builder and its `first` flag are back where they were |
| NetUrl.ResolvePathParent | web_scraper/main.go:293 | example: `a/b/../c` against an empty base path resolves to `/a/c`, so `..` removes only the element before it |
| NetUrl.CleanPathDotFree | web_scraper/main.go:293 | an absolute path without `.` or `..` elements comes out of `resolvePath` unchanged |
| NetUrl.Directory | web_scraper/main.go:293 | the merge keeps the base path up to and including its last `/` |
| NetUrl.UrlString | web_scraper/main.go:294 | the text is empty exactly when every field is empty |
| NetUrl.HierarchyPart | web_scraper/main.go:294 | the path is written as is, at the end of the part, after the authority and any `/` or `./` |
| NetUrl.StringOfAbsolute | web_scraper/main.go:294 | a URL with a scheme, an authority and an absolute path is written back as `scheme://authority/path?query#fragment` |
| Dom.AttrInSpec | web_scraper/main.go:164 | an attribute lookup fails exactly when no attribute has the name, and otherwise yields the first such attribute's value |
| Dom.SelectSpec | web_scraper/main.go:161 | a query returns exactly the located elements that match the selector |
| Dom.ForestLocsElements | web_scraper/main.go:201 | `Find("*")` enumerates only elements |
| Dom.FirstAnchorInSpec | web_scraper/main.go:251 | `Find("a").First()` is absent exactly when there is no anchor, and otherwise is the first anchor in document order |
| Dom.TextOfContains | web_scraper/main.go:113-121 | what the lower-cased text of one body contains, the lower-cased concatenated text of all bodies contains too |
| Dom.ForestTextAppend | web_scraper/main.go:115 | `Text()` of a sequence of nodes is the text of its parts, in document order |
| Dom.DirectTextRemovesChildren | web_scraper/main.go:203 | the direct text of an element is the text of its clone with every element child removed |
| Text.ToLowerAt | web_scraper/main.go:120-121 | lower-casing works character by character and keeps the length |
| Text.ToLowerIdempotent | web_scraper/main.go:120-121 | lower-casing a lower-cased phrase changes nothing |
| Text.MatchSelfIgnoringCase | web_scraper/main.go:121 | a text always matches itself ignoring case |
| Links.FirstNonEmptySpec | web_scraper/main.go:235-279 | the chain result is `""` exactly when every candidate is, and otherwise is the first non-empty candidate |
| Links.ClosestLinkSpec | web_scraper/main.go:226-280 | the link is the element's own resolved `href` when it is an anchor with one; otherwise it is the first non-empty candidate of the chain, and `""` exactly when every candidate is |
| Links.ClosestLinkStages | web_scraper/main.go:234-279 | the fallback chain is read in three stages: parent anchors, then the first descendant anchor, then containers |
| Links.VisitParentAnchor | web_scraper/main.go:236-245 | once `foundLink` is set the callback keeps it; otherwise it takes the resolution of an anchor parent's `href` |
| Links.WalkParentAnchors | web_scraper/main.go:234-245 | the first parent walk yields the first non-empty link among the anchor ancestors, nearest first |
| Links.VisitContainer | web_scraper/main.go:261-277 | the container callback yields the first non-empty link of the container's first anchor; the product preference has no effect |
| Links.WalkContainers | web_scraper/main.go:260-277 | the second parent walk yields the first non-empty first-anchor link among the ancestors, nearest first |
| Links.FindClosestLink | web_scraper/main.go:226-280 | the link equals `ClosestLink`: the element's own `href` when it is an anchor that has one, otherwise the first non-empty link of the chain |
| Links.FindLinks | web_scraper/main.go:139-224 | the returned links never include `""`, never repeat, and are all product links or all other links |
| Links.FindLinksUnparsableBase | web_scraper/main.go:140-144 | a base URL that does not parse yields no links |
| Links.FindLinksSelfPage | web_scraper/main.go:146-153 | on a product page whose body mentions the phrase, the result is the page itself, whatever the rest of the document |
| Links.FindLinksMembers | web_scraper/main.go:156-223 | otherwise a link is returned exactly when a strategy offered it, it is non-empty, and it is a product link exactly when some offered link was |
| Links.FindLinksOrder | web_scraper/main.go:156-223 | otherwise the result lists its links in the order the strategies first offered them |
| Links.FindLinksForText | web_scraper/main.go:139-224 | the method returns exactly `FindLinks`, so it has all the properties above |
| Links.Record | web_scraper/main.go:166-174 | offering a link adds it to the seen-map and to its class when it is non-empty and unseen, and otherwise changes nothing |
| Links.VisitAnchor | web_scraper/main.go:161-177 | the strategy-1 callback offers an anchor's resolved `href` when the anchor's text contains the phrase |
| Links.CollectAnchorLinks | web_scraper/main.go:161-177 | strategy 1 offers the anchors' findings in document order |
| Links.VisitMatch | web_scraper/main.go:184-197 | the strategy-2 callback offers a match's closest link when the match's text contains the phrase |
| Links.CollectContainerLinks | web_scraper/main.go:184-197 | strategy 2 offers one selector's findings in document order |
| Links.ProductSelectorsMatch | web_scraper/main.go:182 | strategy 2 looks at exactly the `h1`, `h2`, `h3` elements and those whose `class` contains `product` or `item` or whose `id` contains `product` |
| Links.CollectSelectorLinks | web_scraper/main.go:182-198 | strategy 2 offers the selectors' findings selector by selector, in the order h1, h2, h3, class product, class item, id product |
| Links.VisitElement | web_scraper/main.go:201-216 | the strategy-3 callback offers an element's closest link when its direct text contains the phrase |
| Links.CollectDirectTextLinks | web_scraper/main.go:201-217 | strategy 3 offers the findings of every element in document order |
| Links.AdmitSeqAppend | web_scraper/main.go:156-217 | feeding the accumulator one batch and then another is feeding it both in order |
| Links.AdmitAllMembers | web_scraper/main.go:156-217 | the seen-map holds exactly the non-empty links offered; each class holds exactly the offered links of that class |
| Links.AdmitAllDistinct | web_scraper/main.go:166-173 | neither class holds a link twice |
| Links.AdmitAllOrdered | web_scraper/main.go:166-173 | both classes list their links in first-discovery order |
| Links.FirstIndexExtend | web_scraper/main.go:170-172 | appending to the stream does not move the first occurrence of an earlier link |
| Pipeline.CheckWebsite | web_scraper/main.go:112-136 | the method returns exactly `Notified`: nothing when the body does not match, otherwise the extractor's links, or the website URL when there are none |
| Pipeline.BodyMatchesFromOneBody | web_scraper/main.go:113-121 | one body whose lower-cased text contains the lower-cased phrase is enough for a match |
| Pipeline.Notified | web_scraper/main.go:119-136 | a notification is sent exactly when the lower-cased body text contains the lower-cased phrase, and it never has an empty list |
| Pipeline.NotifiedFallback | web_scraper/main.go:129-136 | on a match the list is the extractor's result when that is non-empty, and the website URL alone otherwise |
| Pipeline.NotifiedDistinct | web_scraper/main.go:129-136 | a notified list never holds `""` or a duplicate, given the non-empty website URL that `loadConfig` insists on |
| Pipeline.NotifiedWebsiteOnly | web_scraper/main.go:129-153 | a matching page whose URL does not parse, or is a product page, is notified with the website URL alone |
| Pipeline.NatToStringRoundTrip | web_scraper/main.go:302 | `%d` writes digits that read back as the number, with a leading `0` only for zero |
| Pipeline.BuildLinksText | web_scraper/main.go:298-304 | the builder loop produces no section for no links, and otherwise the header followed by one numbered line per link |
| Pipeline.LinkLinesContains | web_scraper/main.go:301-303 | the numbered lines include the line of every link, under its 1-based position |
| Pipeline.MessageNamesMatch | web_scraper/main.go:306-307 | the message names the website, the search text and the time, and holds nothing more when there are no links |
| Pipeline.MessageListsLinks | web_scraper/main.go:298-307 | a message with links includes the header and the numbered line of every link |
| Pipeline.NotificationListsLinks | web_scraper/main.go:119-136 | every message that is sent includes the links header and the numbered line of every link |

## Left out

- The ticker, reading the configuration from the environment, `log.Fatal`, and `time.ParseDuration`: they only schedule and start the check. `CheckInterval` is not a field of `Config`.
- Fetching the page, its status test and the progress and error messages (`web_scraper/main.go:89-110`, and the `fmt.Printf` and `log.Printf` calls at lines 122, 126 and 142): the model starts from a parsed document, and printing is I/O.
- HTML parsing by goquery and the net/html tokenizer: the document arrives as a tree. Doctype and processing-instruction nodes are not modelled.
- The notification's time stamp: `time.Now().Format(...)` is a string parameter of `Message`.
- The JSON encoding of the webhook payload and the HTTP POST to the webhook: these are I/O.
- `Text.ToLower` lower-cases ASCII letters only; Go's `strings.ToLower` also folds non-ASCII letters.
- `NetUrl.Parse` does not model percent-encoding. Go decodes every `%` escape in the host, path, user information and fragment, and rejects a malformed one. The model keeps those pieces as written. So an `href` with a bad escape such as `/a%zz` resolves to `""` in Go and to a non-empty string here.
- `NetUrl.Parse` checks the host only as `parseHost` does for the port and the `]`. It does not check that a bracketed host is an IP literal, or which characters a host may hold.
- `NetUrl.UrlString` writes the path, the fragment, the user information and the host as stored. Go's `String` escapes them, for example `/a b` becomes `/a%20b` and non-ASCII text becomes `%XX` escapes. It also keeps a `RawPath` or `RawFragment` hint for an escaping that was valid but not canonical. Neither is modelled.
- `NetUrl.ResolveURL` agrees with Go only for links whose pieces need no escaping, because of the `NetUrl.Parse` percent-encoding line and the `NetUrl.UrlString` line above. For other links the resolved text, and so the deduplication in `findLinksForText`, compares unescaped text where Go compares escaped text.
- `nil` and an empty slice are both the empty sequence.
- `linkMap` is a `map<string, bool>` value, and the three collections are threaded through the methods as parameters and results: goquery's `Each` callbacks close over these locals and update them in place.
- The kustomize builder under `kustomize_builder/` is not part of this model.
