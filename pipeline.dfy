/**
 * The part of `checkWebsite` that decides whether to notify and with which links, and
 * the link list that `sendDiscordNotification` writes into the message.  Fetching the
 * page, parsing the HTML, the clock and posting the webhook stay outside: the page
 * arrives as a parsed document and the timestamp as a string.
 */
module Pipeline {
  import opened Wrappers
  import opened Text
  import opened Dom
  import opened NetUrl
  import opened Links

  /** The settings `checkWebsite` reads; the check interval only drives the ticker. */
  datatype Config = Config(websiteURL: string, searchText: string, discordWebhook: string)

  // ---------------------------------------------------------------------------
  // The match and fallback decision

  /** The quick check: the lower-cased text of every `body` contains the lower-cased phrase. */
  predicate BodyMatches(doc: Document, searchText: string)
  {
    Contains(ToLower(BodyText(doc)), ToLower(searchText))
  }

  /** One `body` whose lower-cased text contains the lower-cased phrase is enough for a match. */
  lemma BodyMatchesFromOneBody(doc: Document, searchText: string, k: nat)
    requires k < |Find(doc, TagIs("body"))|
    requires Contains(ToLower(FullText(Find(doc, TagIs("body"))[k].node)), ToLower(searchText))
    ensures BodyMatches(doc, searchText)
  {
    TextOfContains(Find(doc, TagIs("body")), k, ToLower(searchText));
  }

  /**
   * The links `checkWebsite` notifies about, or `None` when it sends nothing: the
   * extractor's links, or the website itself when the extractor found none.  A
   * notification is sent exactly when the body matches, and it always lists a link.
   */
  function Notified(doc: Document, config: Config): (r: Option<seq<string>>)
    ensures r.Some? <==> BodyMatches(doc, config.searchText)
    ensures r.Some? ==> |r.value| > 0
  {
    if !BodyMatches(doc, config.searchText) then None
    else
      var links := FindLinks(doc, config.websiteURL, ToLower(config.searchText));
      if |links| > 0 then Some(links) else Some([config.websiteURL])
  }

  /** On a match the list is the extractor's result when that is non-empty, and `[WebsiteURL]` otherwise. */
  lemma NotifiedFallback(doc: Document, config: Config)
    requires BodyMatches(doc, config.searchText)
    ensures var links := FindLinks(doc, config.websiteURL, ToLower(config.searchText));
            Notified(doc, config) == if links == [] then Some([config.websiteURL]) else Some(links)
  {
  }

  /** A notified list never holds `""` or a duplicate, as long as the website URL is not empty. */
  lemma NotifiedDistinct(doc: Document, config: Config)
    requires Notified(doc, config).Some? && config.websiteURL != []
    ensures [] !in Notified(doc, config).value && Distinct(Notified(doc, config).value)
  {
  }

  /**
   * An unparsable website URL gives the extractor nothing to resolve against, and a
   * product page that matches is its own link: either way the website is the one link.
   */
  lemma NotifiedWebsiteOnly(doc: Document, config: Config)
    requires BodyMatches(doc, config.searchText)
    requires Parse(config.websiteURL).None? || Contains(config.websiteURL, ProductSegment)
    ensures Notified(doc, config) == Some([config.websiteURL])
  {
  }

  /** `checkWebsite` once the page is fetched and parsed; the clock and the network stay outside. */
  method CheckWebsite(doc: Document, config: Config) returns (notification: Option<seq<string>>)
    ensures notification == Notified(doc, config)
  {
    // The text of every `body`, gathered into one builder.
    var textContent: string := [];
    var bodies := Find(doc, TagIs("body"));
    for i := 0 to |bodies|
      invariant textContent == TextOf(bodies[..i])
    {
      assert bodies[..i + 1][..i] == bodies[..i];
      textContent := textContent + FullText(bodies[i].node);
    }
    assert bodies[..|bodies|] == bodies;

    var pageText := textContent;
    var searchTextLower := ToLower(config.searchText);
    if !Contains(ToLower(pageText), searchTextLower) {
      return None;
    }

    var links := FindLinksForText(doc, config.websiteURL, searchTextLower);
    if |links| > 0 {
      return Some(links);
    }
    return Some([config.websiteURL]);
  }

  // ---------------------------------------------------------------------------
  // The link list of the notification

  function DigitChar(d: int): (c: char)
    requires 0 <= d < 10
    ensures IsDigit(c) && c as int - '0' as int == d
  {
    ('0' as int + d) as char
  }

  /** `%d` of a natural number: its decimal digits, without leading zeros. */
  function NatToString(n: nat): (s: string)
    ensures |s| > 0 && forall i :: 0 <= i < |s| ==> IsDigit(s[i])
  {
    if n < 10 then [DigitChar(n)] else NatToString(n / 10) + [DigitChar(n % 10)]
  }

  /** The number a string of decimal digits denotes. */
  function DecimalValue(s: string): int
    requires forall i :: 0 <= i < |s| ==> IsDigit(s[i])
  {
    if s == [] then 0 else 10 * DecimalValue(s[..|s| - 1]) + (s[|s| - 1] as int - '0' as int)
  }

  /** Reading back the digits gives the number, and only zero is written with a leading `0`. */
  lemma {:induction false} NatToStringRoundTrip(n: nat)
    ensures DecimalValue(NatToString(n)) == n
    ensures NatToString(n)[0] == '0' <==> n == 0
  {
    if n >= 10 {
      NatToStringRoundTrip(n / 10);
      var s := NatToString(n);
      assert s[..|s| - 1] == NatToString(n / 10);
    }
  }

  /** One line of the list, numbered from 1: `fmt.Sprintf("%d. %s\n", i+1, link)`. */
  function LinkLine(number: nat, link: string): string
  {
    NatToString(number) + ". " + link + "\n"
  }

  /** The numbered lines of `links`, in order. */
  function LinkLines(links: seq<string>): string
  {
    if links == [] then []
    else LinkLines(links[..|links| - 1]) + LinkLine(|links|, links[|links| - 1])
  }

  const LinksHeader: string := "\n\n**Links:**\n"

  /** The links section of the message: nothing for no links, else the header and the numbered lines. */
  function LinksSection(links: seq<string>): string
  {
    if |links| > 0 then LinksHeader + LinkLines(links) else []
  }

  /**
   * The title as the source file holds it: the four characters U+00F0 U+0178 U+201D
   * U+201D, which are the UTF-8 bytes of a bell emoji read back as Windows-1252.
   */
  const MessageTitle: string := "\U{F0}\U{178}\U{201D}\U{201D} **Match Found!**\n\nWebsite: "
  const SearchLabel: string := "\nSearch text: "
  const TimeLabel: string := "\nTime: "

  /** The message text, with the formatted time passed in. */
  function Message(config: Config, matchText: string, time: string, links: seq<string>): string
  {
    MessageTitle + config.websiteURL + SearchLabel + matchText + TimeLabel + time + LinksSection(links)
  }

  /** Each of the three inserted pieces of a seven-part text is part of it. */
  lemma ContainsInserted(a: string, x: string, b: string, y: string, c: string, z: string, d: string)
    ensures Contains(a + x + b + y + c + z + d, x)
    ensures Contains(a + x + b + y + c + z + d, y)
    ensures Contains(a + x + b + y + c + z + d, z)
  {
    ContainsSelf(x);
    ContainsSelf(y);
    ContainsSelf(z);
    ContainsInContext(a, x, b + y + c + z + d, x);
    assert a + x + b + y + c + z + d == a + x + (b + y + c + z + d);
    ContainsInContext(a + x + b, y, c + z + d, y);
    assert a + x + b + y + c + z + d == (a + x + b) + y + (c + z + d);
    ContainsInContext(a + x + b + y + c, z, d, z);
  }

  /** The message names the website, the search text and the time; with no links it holds nothing else. */
  lemma MessageNamesMatch(config: Config, matchText: string, time: string, links: seq<string>)
    ensures Contains(Message(config, matchText, time, links), config.websiteURL)
    ensures Contains(Message(config, matchText, time, links), matchText)
    ensures Contains(Message(config, matchText, time, links), time)
    ensures links == [] ==>
      Message(config, matchText, time, links) == MessageTitle + config.websiteURL + SearchLabel + matchText + TimeLabel + time
  {
    ContainsInserted(MessageTitle, config.websiteURL, SearchLabel, matchText, TimeLabel, time, LinksSection(links));
    if links == [] {
      assert LinksSection(links) == [];
    }
  }

  /** The list-building loop of `sendDiscordNotification`. */
  method BuildLinksText(links: seq<string>) returns (linksText: string)
    ensures linksText == LinksSection(links)
  {
    linksText := [];
    if |links| > 0 {
      linksText := linksText + LinksHeader;
      for i := 0 to |links|
        invariant linksText == LinksHeader + LinkLines(links[..i])
      {
        assert links[..i + 1][..i] == links[..i];
        linksText := linksText + LinkLine(i + 1, links[i]);
      }
      assert links[..|links|] == links;
    }
  }

  /** The numbered lines hold the line of every link, under its 1-based position. */
  lemma {:induction false} LinkLinesContains(links: seq<string>, k: nat)
    requires k < |links|
    ensures Contains(LinkLines(links), LinkLine(k + 1, links[k]))
  {
    var last := |links| - 1;
    var init := links[..last];
    if k == last {
      ContainsSelf(LinkLine(k + 1, links[k]));
      ContainsInContext(LinkLines(init), LinkLine(k + 1, links[k]), [], LinkLine(k + 1, links[k]));
      assert LinkLines(links) == LinkLines(init) + LinkLine(k + 1, links[k]) + [];
    } else {
      assert init[k] == links[k];
      LinkLinesContains(init, k);
      ContainsInContext([], LinkLines(init), LinkLine(|links|, links[last]), LinkLine(k + 1, links[k]));
      assert LinkLines(links) == [] + LinkLines(init) + LinkLine(|links|, links[last]);
    }
  }

  /** A message with links carries the header and the numbered line of every link. */
  lemma MessageListsLinks(config: Config, matchText: string, time: string, links: seq<string>, k: nat)
    requires k < |links|
    ensures Contains(Message(config, matchText, time, links), LinksHeader)
    ensures Contains(Message(config, matchText, time, links), LinkLine(k + 1, links[k]))
  {
    var prefix := MessageTitle + config.websiteURL + SearchLabel + matchText + TimeLabel + time;
    assert Message(config, matchText, time, links) == prefix + LinksHeader + LinkLines(links);
    ContainsSelf(LinksHeader);
    ContainsInContext(prefix, LinksHeader, LinkLines(links), LinksHeader);
    LinkLinesContains(links, k);
    ContainsInContext(prefix + LinksHeader, LinkLines(links), [], LinkLine(k + 1, links[k]));
    assert Message(config, matchText, time, links) == prefix + LinksHeader + LinkLines(links) + [];
  }

  /** Every notification that is sent lists its links: the section is never left out. */
  lemma NotificationListsLinks(doc: Document, config: Config, time: string)
    requires Notified(doc, config).Some?
    ensures var links := Notified(doc, config).value;
            Contains(Message(config, config.searchText, time, links), LinksHeader)
            && forall k :: 0 <= k < |links| ==>
                 Contains(Message(config, config.searchText, time, links), LinkLine(k + 1, links[k]))
  {
    var links := Notified(doc, config).value;
    MessageListsLinks(config, config.searchText, time, links, 0);
    forall k | 0 <= k < |links|
      ensures Contains(Message(config, config.searchText, time, links), LinkLine(k + 1, links[k]))
    {
      MessageListsLinks(config, config.searchText, time, links, k);
    }
  }
}
