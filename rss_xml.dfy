/** Feed assembly: the mapping from a show record to the RSS 2.0 element tree
    (`build_rss_xml` and its helpers in rss_xml.py). The byte-length resolver and the
    RFC 2822 date formatter are parameters; the assembler also reports, in order, the
    URLs it handed to the resolver. */
module RssXml {
  import opened Wrappers
  import opened Strings
  import opened ElementTree
  import opened ShowJson

  const AtomNs := "http://www.w3.org/2005/Atom"
  const MediaNs := "http://search.yahoo.com/mrss/"
  const ItunesNs := "http://www.itunes.com/dtds/podcast-1.0.dtd"
  const SiteBase := "https://www.ardaudiothek.de"
  const WidthToken := "{width}"
  const DefaultWidth := "448"
  const AudioMpeg := "audio/mpeg"

  /** The length reported for an enclosure whose size was not looked up. */
  const UnknownLength := -1

  /** The namespace declarations and version on the root `rss` element, in insertion order. */
  const RootAttributes: seq<(string, string)> :=
    [("xmlns:atom", AtomNs), ("xmlns:media", MediaNs), ("xmlns:itunes", ItunesNs), ("version", "2.0")]

  const ChannelTags: seq<QName> :=
    [Plain("title"), Plain("link"), Plain("image"), Plain("description"), QName(AtomNs, "link")]

  /** How an item's description is chosen: rss_xml.py falls back from summary to synopsis;
      the single-file ardaudiothek_rss.py takes the synopsis alone. */
  datatype DescriptionRule = SummaryThenSynopsis | SynopsisOnly

  /** `_replace_width`: every `{width}` in the URL template becomes `width`. */
  function ReplaceWidth(urlTemplate: string, width: string): (r: string)
    ensures !Contains(urlTemplate, WidthToken) ==> r == urlTemplate
    ensures width == DefaultWidth ==> !Contains(r, WidthToken)
  {
    ReplaceAllAbsent(urlTemplate, WidthToken, width);
    if width == DefaultWidth then
      ReplaceAllRemoves(urlTemplate, WidthToken, width);
      ReplaceAll(urlTemplate, WidthToken, width)
    else
      ReplaceAll(urlTemplate, WidthToken, width)
  }

  /** A `{width}` token is replaced in place by `width` when no earlier token begins in
      the text before it, and the scan goes on after it. */
  lemma ReplaceWidthSplices(a: string, b: string, width: string)
    requires forall i :: 0 <= i < |a| ==> !StartsWith((a + WidthToken)[i..], WidthToken)
    ensures ReplaceWidth(a + WidthToken + b, width) == a + width + ReplaceWidth(b, width)
  {
    var t := WidthToken + b;
    var s := a + t;
    assert a + WidthToken + b == s;
    forall i | 0 <= i < |a|
      ensures !StartsWith(s[i..], WidthToken)
    {
      assert s[i..][..|WidthToken|] == (a + WidthToken)[i..][..|WidthToken|];
    }
    ReplaceAllSkipsPrefix(a, t, WidthToken, width);
    assert t[..|WidthToken|] == WidthToken && t[|WidthToken|..] == b;
  }

  /** For instance `{x}/{width}.jpg` becomes `{x}/448.jpg`: a brace that does not begin the
      token is kept. */
  lemma ReplaceWidthExample()
    ensures ReplaceWidth("{x}/" + WidthToken + ".jpg", DefaultWidth) == "{x}/448.jpg"
  {
    var a := "{x}/";
    forall i | 0 <= i < |a|
      ensures !StartsWith((a + WidthToken)[i..], WidthToken)
    {
      assert (a + WidthToken)[i..][1] == (a + WidthToken)[i + 1];
    }
    ReplaceWidthSplices(a, ".jpg", DefaultWidth);
    ReplaceAllAbsent(".jpg", WidthToken, DefaultWidth);
    assert !Contains(".jpg", WidthToken) by {
      ShortNotContains(".jpg", WidthToken);
    }
  }

  /** `_episode_description`: `summary or synopsis or ""`. */
  function EpisodeDescription(ep: Episode): (r: string)
    ensures Truthy(ep.summary) ==> r == ep.summary.value
    ensures !Truthy(ep.summary) && Truthy(ep.synopsis) ==> r == ep.synopsis.value
    ensures r == "" <==> !Truthy(ep.summary) && !Truthy(ep.synopsis)
  {
    if Truthy(ep.summary) then ep.summary.value
    else if Truthy(ep.synopsis) then ep.synopsis.value
    else ""
  }

  function Description(rule: DescriptionRule, ep: Episode): string {
    match rule
    case SummaryThenSynopsis => EpisodeDescription(ep)
    case SynopsisOnly => ep.synopsis.GetOr("")
  }

  /** `audios = node.get("audios") or []`, then the first element if any. */
  function PrimaryAudio(ep: Episode): Option<Audio> {
    var audios := ep.audios.GetOr([]);
    if |audios| > 0 then Some(audios[0]) else None
  }

  function AudioUrl(ep: Episode): string {
    match PrimaryAudio(ep)
    case None => ""
    case Some(a) => a.url.GetOr("")
  }

  function DownloadUrl(ep: Episode): string {
    match PrimaryAudio(ep)
    case None => ""
    case Some(a) => a.downloadUrl.GetOr("")
  }

  /** `int(node.get("duration") or 0)`. */
  function Duration(ep: Episode): int {
    ep.duration.GetOr(0)
  }

  /** The enclosure length: the resolver's answer for the first audio's URL, or the
      unknown sentinel when there is no first audio or its URL is absent or empty. */
  function EnclosureLength(ep: Episode, getFileLength: string -> int): (n: int)
    ensures ep.audios.None? || ep.audios.value == [] || !Truthy(ep.audios.value[0].url)
      ==> n == UnknownLength
    ensures ep.audios.Some? && ep.audios.value != [] && Truthy(ep.audios.value[0].url)
      ==> n == getFileLength(ep.audios.value[0].url.value)
  {
    var url := AudioUrl(ep);
    if url != "" then getFileLength(url) else UnknownLength
  }

  /** The tags of an item's children: `pubDate` sits between `media:content` and
      `itunes:duration` exactly when the episode has a publication date. */
  function ItemTags(hasPubDate: bool): seq<QName> {
    [Plain("title"), Plain("description"), Plain("guid"), Plain("link"), Plain("enclosure"), QName(MediaNs, "content")]
    + (if hasPubDate then [Plain("pubDate")] else [])
    + [QName(ItunesNs, "duration"), Plain("image"), QName(ItunesNs, "image")]
  }

  /** The five channel children that precede the items. */
  function ChannelHeader(show: Show, selfLink: string): seq<Element> {
    var title := show.title.GetOr("");
    [ TextElement(Plain("title"), title),
      TextElement(Plain("link"), show.sharingUrl.GetOr("")),
      Element(Plain("image"), [], None,
              [ TextElement(Plain("url"), ReplaceWidth(Url1X1(show.image), DefaultWidth)),
                TextElement(Plain("title"), title),
                TextElement(Plain("link"), SiteBase + show.path.GetOr("")) ]),
      TextElement(Plain("description"), show.synopsis.GetOr("")),
      EmptyElement(QName(AtomNs, "link"), [("href", selfLink), ("rel", "self"), ("type", "application/rss+xml")]) ]
  }

  /** Channel children, in order: title, link, image (url, title, link), description and the
      Atom self link; the image repeats the show title and links to the show's page. */
  lemma ChannelHeaderShape(show: Show, selfLink: string)
    ensures var r := ChannelHeader(show, selfLink);
      && Tags(r) == ChannelTags
      && r[0].text == Some(show.title.GetOr(""))
      && r[1].text == Some(show.sharingUrl.GetOr(""))
      && Tags(r[2].children) == [Plain("url"), Plain("title"), Plain("link")]
      && r[2].children[0].text == Some(ReplaceWidth(Url1X1(show.image), DefaultWidth))
      && r[2].children[1].text == r[0].text
      && r[2].children[2].text == Some(SiteBase + show.path.GetOr(""))
      && r[3].text == Some(show.synopsis.GetOr(""))
      && r[4].attrs == [("href", selfLink), ("rel", "self"), ("type", "application/rss+xml")]
  {
  }

  /** The six item children that precede the optional `pubDate`. */
  function ItemHead(ep: Episode, getFileLength: string -> int, rule: DescriptionRule): seq<Element> {
    [ TextElement(Plain("title"), ep.title.GetOr("")),
      TextElement(Plain("description"), Description(rule, ep)),
      TextElement(Plain("guid"), ep.sharingUrl.GetOr("")),
      TextElement(Plain("link"), ep.sharingUrl.GetOr("")),
      EmptyElement(Plain("enclosure"),
        [("url", AudioUrl(ep)), ("length", IntToString(EnclosureLength(ep, getFileLength))), ("type", AudioMpeg)]),
      EmptyElement(QName(MediaNs, "content"),
        [("url", DownloadUrl(ep)), ("medium", "audio"), ("duration", IntToString(Duration(ep))), ("type", AudioMpeg)]) ]
  }

  /** `pubDate`, present only when the episode's publication date is truthy. */
  function PubDate(ep: Episode, formatPubDate: string -> string): seq<Element> {
    if Truthy(ep.publicationStartDateAndTime)
    then [TextElement(Plain("pubDate"), formatPubDate(ep.publicationStartDateAndTime.value))]
    else []
  }

  /** The three item children that follow the optional `pubDate`. */
  function ItemTail(ep: Episode, channelTitle: string): seq<Element> {
    var imageUrl := ReplaceWidth(Url1X1(ep.image), DefaultWidth);
    [ TextElement(QName(ItunesNs, "duration"), IntToString(Duration(ep))),
      Element(Plain("image"), [], None, [TextElement(Plain("url"), imageUrl), TextElement(Plain("title"), channelTitle)]),
      EmptyElement(QName(ItunesNs, "image"), [("href", imageUrl)]) ]
  }

  /** The `item` element for one episode. */
  function ItemElement(ep: Episode, channelTitle: string, getFileLength: string -> int,
                       formatPubDate: string -> string, rule: DescriptionRule): Element
  {
    Element(Plain("item"), [], None,
            ItemHead(ep, getFileLength, rule) + PubDate(ep, formatPubDate) + ItemTail(ep, channelTitle))
  }

  /** Item children, in order: title, description, guid, link, enclosure, media:content,
      `pubDate` only for a dated episode, itunes:duration, image and itunes:image. */
  lemma ItemChildOrder(ep: Episode, channelTitle: string, getFileLength: string -> int,
                       formatPubDate: string -> string, rule: DescriptionRule)
    ensures var r := ItemElement(ep, channelTitle, getFileLength, formatPubDate, rule);
      && r.tag == Plain("item") && r.attrs == [] && r.text == None
      && Tags(r.children) == ItemTags(Truthy(ep.publicationStartDateAndTime))
  {
  }

  /** Item texts: the title, the description chosen by the rule, the sharing URL as both
      guid and link, and the formatted date for a dated episode. */
  lemma ItemTexts(ep: Episode, channelTitle: string, getFileLength: string -> int,
                  formatPubDate: string -> string, rule: DescriptionRule)
    ensures var c := ItemElement(ep, channelTitle, getFileLength, formatPubDate, rule).children;
      && |c| >= 9
      && c[0].text == Some(ep.title.GetOr(""))
      && c[1].text == Some(Description(rule, ep))
      && c[2].text == c[3].text == Some(ep.sharingUrl.GetOr(""))
      && (Truthy(ep.publicationStartDateAndTime) ==>
           c[6].text == Some(formatPubDate(ep.publicationStartDateAndTime.value)))
  {
  }

  /** The enclosure carries exactly the first audio's URL, the resolved length as a decimal
      string and the MPEG audio type; media:content carries exactly the download URL, the
      `audio` medium, the duration and the MPEG audio type. */
  lemma ItemEnclosure(ep: Episode, channelTitle: string, getFileLength: string -> int,
                      formatPubDate: string -> string, rule: DescriptionRule)
    ensures var c := ItemElement(ep, channelTitle, getFileLength, formatPubDate, rule).children;
      && |c| >= 9
      && Attr(c[4].attrs, "url") == Some(AudioUrl(ep))
      && Attr(c[4].attrs, "length") == Some(IntToString(EnclosureLength(ep, getFileLength)))
      && Attr(c[4].attrs, "type") == Some(AudioMpeg)
      && Attr(c[5].attrs, "url") == Some(DownloadUrl(ep))
      && c[4].attrs == [("url", AudioUrl(ep)), ("length", IntToString(EnclosureLength(ep, getFileLength))), ("type", AudioMpeg)]
      && c[5].attrs == [("url", DownloadUrl(ep)), ("medium", "audio"), ("duration", IntToString(Duration(ep))), ("type", AudioMpeg)]
  {
    var head := ItemHead(ep, getFileLength, rule);
    var c := head + PubDate(ep, formatPubDate) + ItemTail(ep, channelTitle);
    assert c[4] == head[4] && c[5] == head[5];
    var attrs := head[4].attrs;
    assert attrs[1..][1..] == [("type", AudioMpeg)];
    assert Attr(attrs[1..], "type") == Attr(attrs[1..][1..], "type") == Some(AudioMpeg);
  }

  /** media:content's duration attribute and the itunes:duration text are the same value. */
  lemma ItemDurationAgrees(ep: Episode, channelTitle: string, getFileLength: string -> int,
                           formatPubDate: string -> string, rule: DescriptionRule)
    ensures var c := ItemElement(ep, channelTitle, getFileLength, formatPubDate, rule).children;
      && |c| >= 9
      && Attr(c[5].attrs, "duration") == c[|c| - 3].text == Some(IntToString(Duration(ep)))
  {
    var head := ItemHead(ep, getFileLength, rule);
    var tail := ItemTail(ep, channelTitle);
    var c := head + PubDate(ep, formatPubDate) + tail;
    assert c[5] == head[5] && c[|c| - 3] == tail[0];
    var attrs := head[5].attrs;
    assert attrs[1..][1..] == [("duration", IntToString(Duration(ep))), ("type", AudioMpeg)];
    assert Attr(attrs[1..], "duration") == Attr(attrs[1..][1..], "duration") == Some(IntToString(Duration(ep)));
  }

  /** The item image holds the width-substituted episode image URL and the channel title,
      and itunes:image has that URL as its only attribute. */
  lemma ItemImage(ep: Episode, channelTitle: string, getFileLength: string -> int,
                  formatPubDate: string -> string, rule: DescriptionRule)
    ensures var c := ItemElement(ep, channelTitle, getFileLength, formatPubDate, rule).children;
      && |c| >= 9
      && Tags(c[|c| - 2].children) == [Plain("url"), Plain("title")]
      && c[|c| - 2].children[0].text == Some(ReplaceWidth(Url1X1(ep.image), DefaultWidth))
      && c[|c| - 2].children[1].text == Some(channelTitle)
      && Attr(c[|c| - 1].attrs, "href") == c[|c| - 2].children[0].text
      && c[|c| - 1].attrs == [("href", ReplaceWidth(Url1X1(ep.image), DefaultWidth))]
  {
  }

  /** One `item` per episode, in the order of `nodes`. */
  function ItemElements(nodes: seq<Episode>, channelTitle: string, getFileLength: string -> int,
                        formatPubDate: string -> string, rule: DescriptionRule): seq<Element>
  {
    seq(|nodes|, k requires 0 <= k < |nodes| => ItemElement(nodes[k], channelTitle, getFileLength, formatPubDate, rule))
  }

  lemma ItemElementsSnoc(nodes: seq<Episode>, i: nat, channelTitle: string, getFileLength: string -> int,
                         formatPubDate: string -> string, rule: DescriptionRule)
    requires i < |nodes|
    ensures ItemElements(nodes[..i + 1], channelTitle, getFileLength, formatPubDate, rule)
         == ItemElements(nodes[..i], channelTitle, getFileLength, formatPubDate, rule)
            + [ItemElement(nodes[i], channelTitle, getFileLength, formatPubDate, rule)]
  {
  }

  /** The URLs handed to the resolver, in call order: the first audio's URL of every
      episode that has a non-empty one. */
  function Probes(nodes: seq<Episode>): seq<string>
    decreases |nodes|
  {
    if nodes == [] then []
    else
      var init := nodes[..|nodes| - 1];
      var url := AudioUrl(nodes[|nodes| - 1]);
      Probes(init) + (if url != "" then [url] else [])
  }

  /** The resolver is called at most once per episode and never with an empty URL; it is
      not called at all when no episode has an audio URL, and once per episode, in order,
      when all have one. */
  lemma {:induction false} ProbesShape(nodes: seq<Episode>)
    ensures var r := Probes(nodes);
      && |r| <= |nodes|
      && (forall j :: 0 <= j < |r| ==> r[j] != "")
      && ((forall k :: 0 <= k < |nodes| ==> AudioUrl(nodes[k]) == "") ==> r == [])
      && ((forall k :: 0 <= k < |nodes| ==> AudioUrl(nodes[k]) != "") ==>
           |r| == |nodes| && forall k :: 0 <= k < |nodes| ==> r[k] == AudioUrl(nodes[k]))
    decreases |nodes|
  {
    if nodes != [] {
      var init := nodes[..|nodes| - 1];
      ProbesShape(init);
      assert forall k :: 0 <= k < |init| ==> init[k] == nodes[k];
    }
  }

  lemma ProbesSnoc(nodes: seq<Episode>, i: nat)
    requires i < |nodes|
    ensures Probes(nodes[..i + 1]) == Probes(nodes[..i]) + (if AudioUrl(nodes[i]) != "" then [AudioUrl(nodes[i])] else [])
  {
    assert nodes[..i + 1][..i] == nodes[..i];
  }

  /** The whole document: an `rss` root with one `channel`, its header, then the items. */
  function Rss(show: Show, selfLink: string, getFileLength: string -> int,
               formatPubDate: string -> string, rule: DescriptionRule): (r: Element)
    ensures r.tag == Plain("rss") && r.attrs == RootAttributes && r.text == None
    ensures |r.children| == 1 && r.children[0].tag == Plain("channel")
    ensures var ch := r.children[0].children;
      |ch| == |ChannelTags| + |Nodes(show)| &&
      ch[..|ChannelTags|] == ChannelHeader(show, selfLink) &&
      forall k :: 0 <= k < |Nodes(show)| ==>
        ch[|ChannelTags| + k] == ItemElement(Nodes(show)[k], show.title.GetOr(""), getFileLength, formatPubDate, rule)
  {
    var items := ItemElements(Nodes(show), show.title.GetOr(""), getFileLength, formatPubDate, rule);
    var header := ChannelHeader(show, selfLink);
    var ch := header + items;
    assert |header| == |ChannelTags| == 5;
    assert ch[..|ChannelTags|] == header;
    assert forall k :: 0 <= k < |items| ==> ch[5 + k] == items[k];
    Element(Plain("rss"), RootAttributes, None, [Element(Plain("channel"), [], None, ch)])
  }

  /** The body of the item loop: one `item` and the resolver call it makes, if any. */
  method BuildItem(node: Episode, title: string, getFileLength: string -> int,
                   formatPubDate: string -> string, rule: DescriptionRule)
    returns (item: Element, probe: seq<string>)
    ensures item == ItemElement(node, title, getFileLength, formatPubDate, rule)
    ensures probe == if AudioUrl(node) != "" then [AudioUrl(node)] else []
  {
    probe := [];
    var audios := node.audios.GetOr([]);
    var audioUrl := "";
    var downloadUrl := "";
    if |audios| > 0 {
      audioUrl := audios[0].url.GetOr("");
      downloadUrl := audios[0].downloadUrl.GetOr("");
    }
    var duration := node.duration.GetOr(0);
    var length := UnknownLength;
    if audioUrl != "" {
      length := getFileLength(audioUrl);
      probe := [audioUrl];
    }
    assert audioUrl == AudioUrl(node) && downloadUrl == DownloadUrl(node);
    assert length == EnclosureLength(node, getFileLength);

    var children: seq<Element> := [];
    ghost var head := ItemHead(node, getFileLength, rule);
    children := children + [TextElement(Plain("title"), node.title.GetOr(""))];
    children := children + [TextElement(Plain("description"), Description(rule, node))];
    children := children + [TextElement(Plain("guid"), node.sharingUrl.GetOr(""))];
    children := children + [TextElement(Plain("link"), node.sharingUrl.GetOr(""))];
    children := children + [EmptyElement(Plain("enclosure"), [("url", audioUrl), ("length", IntToString(length)), ("type", AudioMpeg)])];
    children := children + [EmptyElement(QName(MediaNs, "content"),
                      [("url", downloadUrl), ("medium", "audio"), ("duration", IntToString(duration)), ("type", AudioMpeg)])];
    assert children == head;
    var publishDate := node.publicationStartDateAndTime;
    if Truthy(publishDate) {
      children := children + [TextElement(Plain("pubDate"), formatPubDate(publishDate.value))];
    }
    assert children == head + PubDate(node, formatPubDate);
    children := children + [TextElement(QName(ItunesNs, "duration"), IntToString(duration))];
    var itemImageUrl := ReplaceWidth(Url1X1(node.image), DefaultWidth);
    var itemImage: seq<Element> := [];
    itemImage := itemImage + [TextElement(Plain("url"), itemImageUrl)];
    itemImage := itemImage + [TextElement(Plain("title"), title)];
    assert itemImage == [TextElement(Plain("url"), itemImageUrl), TextElement(Plain("title"), title)];
    children := children + [Element(Plain("image"), [], None, itemImage)];
    children := children + [EmptyElement(QName(ItunesNs, "image"), [("href", itemImageUrl)])];

    assert children == head + PubDate(node, formatPubDate) + ItemTail(node, title);
    item := Element(Plain("item"), [], None, children);
  }

  /** The channel children that precede the items, appended one by one. */
  method BuildChannelHeader(show: Show, selfLink: string) returns (channel: seq<Element>)
    ensures channel == ChannelHeader(show, selfLink)
  {
    var title := show.title.GetOr("");
    channel := [];
    channel := channel + [TextElement(Plain("title"), title)];
    channel := channel + [TextElement(Plain("link"), show.sharingUrl.GetOr(""))];
    var image: seq<Element> := [];
    image := image + [TextElement(Plain("url"), ReplaceWidth(Url1X1(show.image), DefaultWidth))];
    image := image + [TextElement(Plain("title"), title)];
    image := image + [TextElement(Plain("link"), SiteBase + show.path.GetOr(""))];
    assert image == ChannelHeader(show, selfLink)[2].children;
    channel := channel + [Element(Plain("image"), [], None, image)];
    channel := channel + [TextElement(Plain("description"), show.synopsis.GetOr(""))];
    channel := channel + [EmptyElement(QName(AtomNs, "link"), [("href", selfLink), ("rel", "self"), ("type", "application/rss+xml")])];
  }

  /** One round of the item loop: the `item` for `nodes[i]` goes after the items of the
      episodes before it, and its resolver call, if any, after theirs. */
  method AppendItem(channel: seq<Element>, probes: seq<string>, ghost header: seq<Element>,
                    nodes: seq<Episode>, i: nat, title: string, getFileLength: string -> int,
                    formatPubDate: string -> string, rule: DescriptionRule)
    returns (channel': seq<Element>, probes': seq<string>)
    requires i < |nodes|
    requires channel == header + ItemElements(nodes[..i], title, getFileLength, formatPubDate, rule)
    requires probes == Probes(nodes[..i])
    ensures channel' == header + ItemElements(nodes[..i + 1], title, getFileLength, formatPubDate, rule)
    ensures probes' == Probes(nodes[..i + 1])
  {
    var item, probe := BuildItem(nodes[i], title, getFileLength, formatPubDate, rule);
    probes' := probes + probe;
    channel' := channel + [item];
    ItemElementsSnoc(nodes, i, title, getFileLength, formatPubDate, rule);
    ProbesSnoc(nodes, i);
  }

  /** The item loop: one `item` appended to `channel` per episode, in order, together with
      the resolver calls made on the way. */
  method AppendItems(channel: seq<Element>, nodes: seq<Episode>, title: string, getFileLength: string -> int,
                     formatPubDate: string -> string, rule: DescriptionRule)
    returns (channel': seq<Element>, probes: seq<string>)
    ensures channel' == channel + ItemElements(nodes, title, getFileLength, formatPubDate, rule)
    ensures probes == Probes(nodes)
  {
    channel' := channel;
    probes := [];
    var i := 0;
    while i < |nodes|
      invariant 0 <= i <= |nodes|
      invariant channel' == channel + ItemElements(nodes[..i], title, getFileLength, formatPubDate, rule)
      invariant probes == Probes(nodes[..i])
    {
      channel', probes := AppendItem(channel', probes, channel, nodes, i, title, getFileLength, formatPubDate, rule);
      i := i + 1;
    }
    assert nodes[..i] == nodes;
  }

  /** `build_rss_xml`, parameterised by the description rule: builds the channel by
      appending children one by one, one `item` per episode, as the source does with
      `ET.SubElement`. */
  method BuildFeed(show: Show, selfLink: string, getFileLength: string -> int,
                   formatPubDate: string -> string, rule: DescriptionRule)
    returns (rss: Element, probes: seq<string>)
    ensures rss == Rss(show, selfLink, getFileLength, formatPubDate, rule)
    ensures probes == Probes(Nodes(show))
  {
    var title := show.title.GetOr("");
    var channel := BuildChannelHeader(show, selfLink);
    var channelWithItems;
    channelWithItems, probes := AppendItems(channel, Nodes(show), title, getFileLength, formatPubDate, rule);
    rss := Element(Plain("rss"), RootAttributes, None, [Element(Plain("channel"), [], None, channelWithItems)]);
  }

  /** `build_rss_xml` of rss_xml.py: item descriptions fall back from summary to synopsis. */
  method BuildRssXml(show: Show, selfLink: string, getFileLength: string -> int, formatPubDate: string -> string)
    returns (rss: Element, probes: seq<string>)
    ensures rss == Rss(show, selfLink, getFileLength, formatPubDate, SummaryThenSynopsis)
    ensures probes == Probes(Nodes(show))
  {
    rss, probes := BuildFeed(show, selfLink, getFileLength, formatPubDate, SummaryThenSynopsis);
  }
}
