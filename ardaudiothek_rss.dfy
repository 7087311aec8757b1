/** The single-file variant ardaudiothek_rss.py: `escape_string`, and the assembler whose
    item description is the synopsis alone. Its `_replace_width` and `parse_and_validate`
    are the ones of RssXml and FeedService. */
module ArdAudiothekRss {
  import opened Wrappers
  import opened Strings
  import opened ElementTree
  import opened ShowJson
  import opened RssXml

  /** `escape_string`, i.e. `html.escape(s, quote=True)`: five replacements, ampersand first. */
  function EscapeString(s: string): string {
    var amp := ReplaceAll(s, "&", "&amp;");
    var lt := ReplaceAll(amp, "<", "&lt;");
    var gt := ReplaceAll(lt, ">", "&gt;");
    var quot := ReplaceAll(gt, "\"", "&quot;");
    ReplaceAll(quot, "'", "&#x27;")
  }

  /** The characters that may not appear raw in escaped text. */
  predicate IsMarkup(c: char) {
    c == '<' || c == '>' || c == '"' || c == '\''
  }

  predicate IsSpecial(c: char) {
    c == '&' || IsMarkup(c)
  }

  /** The reference escaping of one character: its entity, or the character itself. */
  function EscapeChar(c: char): (r: string)
    ensures !IsSpecial(c) ==> r == [c]
    ensures IsSpecial(c) ==> |r| >= 4 && r[0] == '&' && r[|r| - 1] == ';'
  {
    if c == '&' then "&amp;"
    else if c == '<' then "&lt;"
    else if c == '>' then "&gt;"
    else if c == '"' then "&quot;"
    else if c == '\'' then "&#x27;"
    else [c]
  }

  /** The reference escaping of a string, character by character. */
  function EscapeChars(s: string): string
    decreases |s|
  {
    if s == [] then [] else EscapeChar(s[0]) + EscapeChars(s[1..])
  }

  /** Reads the five entities back; every other character is copied. */
  function Unescape(t: string): string
    decreases |t|
  {
    if t == [] then []
    else if StartsWith(t, "&amp;") then "&" + Unescape(t[5..])
    else if StartsWith(t, "&lt;") then "<" + Unescape(t[4..])
    else if StartsWith(t, "&gt;") then ">" + Unescape(t[4..])
    else if StartsWith(t, "&quot;") then "\"" + Unescape(t[6..])
    else if StartsWith(t, "&#x27;") then "'" + Unescape(t[6..])
    else [t[0]] + Unescape(t[1..])
  }

  /** Position `i` of `t` begins one of the five entities. */
  predicate EntityAt(t: string, i: nat)
    requires i <= |t|
  {
    var u := t[i..];
    StartsWith(u, "&amp;") || StartsWith(u, "&lt;") || StartsWith(u, "&gt;")
    || StartsWith(u, "&quot;") || StartsWith(u, "&#x27;")
  }

  /** Every ampersand of `t` begins an entity. */
  predicate AmpersandsBeginEntities(t: string) {
    forall i :: 0 <= i < |t| && t[i] == '&' ==> EntityAt(t, i)
  }

  /** Each of the five replacements distributes over concatenation, so escaping does. */
  lemma EscapeStringConcat(a: string, b: string)
    ensures EscapeString(a + b) == EscapeString(a) + EscapeString(b)
  {
    var a1, b1 := ReplaceAll(a, "&", "&amp;"), ReplaceAll(b, "&", "&amp;");
    ReplaceCharConcat(a, b, '&', "&amp;");
    var a2, b2 := ReplaceAll(a1, "<", "&lt;"), ReplaceAll(b1, "<", "&lt;");
    ReplaceCharConcat(a1, b1, '<', "&lt;");
    var a3, b3 := ReplaceAll(a2, ">", "&gt;"), ReplaceAll(b2, ">", "&gt;");
    ReplaceCharConcat(a2, b2, '>', "&gt;");
    var a4, b4 := ReplaceAll(a3, "\"", "&quot;"), ReplaceAll(b3, "\"", "&quot;");
    ReplaceCharConcat(a3, b3, '"', "&quot;");
    ReplaceCharConcat(a4, b4, '\'', "&#x27;");
  }

  /** On one character the replacement chain yields that character's entity: an entity
      produced by an earlier step holds none of the characters later steps replace. */
  lemma EscapeStringSingle(x: char)
    ensures EscapeString([x]) == EscapeChar(x)
  {
    if x == '&' {
      EscapeAmpersand();
    } else if x == '<' {
      EscapeLessThan();
    } else if x == '>' {
      EscapeGreaterThan();
    } else if x == '"' {
      EscapeQuote();
    } else if x == '\'' {
      EscapeApostrophe();
    } else {
      EscapeOther(x);
    }
  }

  lemma EscapeAmpersand()
    ensures EscapeString("&") == "&amp;"
  {
    ReplaceCharSingle('&', '&', "&amp;");
    ReplaceCharAbsent("&amp;", '<', "&lt;");
    ReplaceCharAbsent("&amp;", '>', "&gt;");
    ReplaceCharAbsent("&amp;", '"', "&quot;");
    ReplaceCharAbsent("&amp;", '\'', "&#x27;");
  }

  lemma EscapeLessThan()
    ensures EscapeString("<") == "&lt;"
  {
    ReplaceCharSingle('<', '&', "&amp;");
    ReplaceCharSingle('<', '<', "&lt;");
    ReplaceCharAbsent("&lt;", '>', "&gt;");
    ReplaceCharAbsent("&lt;", '"', "&quot;");
    ReplaceCharAbsent("&lt;", '\'', "&#x27;");
  }

  lemma EscapeGreaterThan()
    ensures EscapeString(">") == "&gt;"
  {
    ReplaceCharSingle('>', '&', "&amp;");
    ReplaceCharSingle('>', '<', "&lt;");
    ReplaceCharSingle('>', '>', "&gt;");
    ReplaceCharAbsent("&gt;", '"', "&quot;");
    ReplaceCharAbsent("&gt;", '\'', "&#x27;");
  }

  lemma EscapeQuote()
    ensures EscapeString("\"") == "&quot;"
  {
    ReplaceCharSingle('"', '&', "&amp;");
    ReplaceCharSingle('"', '<', "&lt;");
    ReplaceCharSingle('"', '>', "&gt;");
    ReplaceCharSingle('"', '"', "&quot;");
    ReplaceCharAbsent("&quot;", '\'', "&#x27;");
  }

  lemma EscapeApostrophe()
    ensures EscapeString("'") == "&#x27;"
  {
    ReplaceCharSingle('\'', '&', "&amp;");
    ReplaceCharSingle('\'', '<', "&lt;");
    ReplaceCharSingle('\'', '>', "&gt;");
    ReplaceCharSingle('\'', '"', "&quot;");
    ReplaceCharSingle('\'', '\'', "&#x27;");
  }

  /** Every other character passes through the five replacements unchanged. */
  lemma EscapeOther(x: char)
    requires !IsSpecial(x)
    ensures EscapeString([x]) == [x]
  {
    ReplaceCharSingle(x, '&', "&amp;");
    ReplaceCharSingle(x, '<', "&lt;");
    ReplaceCharSingle(x, '>', "&gt;");
    ReplaceCharSingle(x, '"', "&quot;");
    ReplaceCharSingle(x, '\'', "&#x27;");
  }

  /** `escape_string` agrees with the character-by-character reference. */
  lemma {:induction false} EscapeStringIsPerChar(s: string)
    ensures EscapeString(s) == EscapeChars(s)
    decreases |s|
  {
    if s != [] {
      assert s == [s[0]] + s[1..];
      EscapeStringConcat([s[0]], s[1..]);
      EscapeStringSingle(s[0]);
      EscapeStringIsPerChar(s[1..]);
    } else {
      ReplaceCharAbsent(s, '&', "&amp;");
      ReplaceCharAbsent(s, '<', "&lt;");
      ReplaceCharAbsent(s, '>', "&gt;");
      ReplaceCharAbsent(s, '"', "&quot;");
      ReplaceCharAbsent(s, '\'', "&#x27;");
    }
  }

  lemma {:induction false} EscapeCharsNoMarkup(s: string)
    ensures forall i :: 0 <= i < |EscapeChars(s)| ==> !IsMarkup(EscapeChars(s)[i])
    decreases |s|
  {
    if s != [] {
      EscapeCharsNoMarkup(s[1..]);
      var e, rest := EscapeChar(s[0]), EscapeChars(s[1..]);
      assert forall j :: 0 <= j < |e| ==> !IsMarkup(e[j]);
      forall i | 0 <= i < |e + rest|
        ensures !IsMarkup((e + rest)[i])
      {
        if i >= |e| {
          assert (e + rest)[i] == rest[i - |e|];
        }
      }
    }
  }

  /** Escaped text holds no `<`, `>`, `"` or `'`. */
  lemma EscapeStringNoMarkup(s: string)
    ensures forall i :: 0 <= i < |EscapeString(s)| ==> !IsMarkup(EscapeString(s)[i])
  {
    EscapeStringIsPerChar(s);
    EscapeCharsNoMarkup(s);
  }

  /** `Unescape` reads an entity at the front of `t` back as its character. */
  lemma UnescapeEntity(e: string, c: char, rest: string)
    requires IsSpecial(c) && e == EscapeChar(c)
    ensures Unescape(e + rest) == [c] + Unescape(rest)
  {
    var t := e + rest;
    assert t[..|e|] == e && t[|e|..] == rest;
    assert t[..4] == e[..4];
    if |t| >= 5 {
      assert t[..5][1] == e[1];
    }
    if |t| >= 6 {
      assert t[..6][1] == e[1];
    }
  }

  lemma UnescapeEscapeChar(c: char, rest: string)
    ensures Unescape(EscapeChar(c) + rest) == [c] + Unescape(rest)
  {
    if IsSpecial(c) {
      UnescapeEntity(EscapeChar(c), c, rest);
    } else {
      UnescapePlain(c, rest);
    }
  }

  /** A character other than `&` starts no entity and is copied. */
  lemma UnescapePlain(c: char, rest: string)
    requires c != '&'
    ensures Unescape([c] + rest) == [c] + Unescape(rest)
  {
    var t := [c] + rest;
    assert t[1..] == rest;
    assert forall n :: 0 < n <= |t| ==> t[..n][0] == c;
  }

  lemma {:induction false} UnescapeEscapeChars(s: string)
    ensures Unescape(EscapeChars(s)) == s
    decreases |s|
  {
    if s != [] {
      UnescapeEscapeChar(s[0], EscapeChars(s[1..]));
      UnescapeEscapeChars(s[1..]);
      assert [s[0]] + s[1..] == s;
    }
  }

  /** Un-escaping recovers the input of `escape_string`. */
  lemma EscapeStringRoundTrip(s: string)
    ensures Unescape(EscapeString(s)) == s
  {
    EscapeStringIsPerChar(s);
    UnescapeEscapeChars(s);
  }

  lemma {:induction false} EscapeCharsEntities(s: string)
    ensures AmpersandsBeginEntities(EscapeChars(s))
    decreases |s|
  {
    if s != [] {
      EscapeCharsEntities(s[1..]);
      var e, rest := EscapeChar(s[0]), EscapeChars(s[1..]);
      var t := e + rest;
      assert forall j :: 0 < j < |e| ==> e[j] != '&';
      forall i | 0 <= i < |t| && t[i] == '&'
        ensures EntityAt(t, i)
      {
        if i >= |e| {
          assert t[i] == rest[i - |e|];
          assert t[i..] == rest[i - |e|..];
        } else {
          assert i == 0 && t[..|e|] == e;
        }
      }
    }
  }

  /** Every `&` in escaped text begins one of the five entities. */
  lemma EscapeStringEntities(s: string)
    ensures AmpersandsBeginEntities(EscapeString(s))
  {
    EscapeStringIsPerChar(s);
    EscapeCharsEntities(s);
  }

  /** In this variant an item never depends on the episode summary: its description is
      the synopsis, or `""` when there is none. */
  lemma SynopsisOnlyIgnoresSummary(ep: Episode, summary: Option<string>, channelTitle: string,
                                   getFileLength: string -> int, formatPubDate: string -> string)
    ensures var item := ItemElement(ep, channelTitle, getFileLength, formatPubDate, SynopsisOnly);
      && |item.children| >= 9
      && item.children[1].text == Some(ep.synopsis.GetOr(""))
      && item == ItemElement(ep.(summary := summary), channelTitle, getFileLength, formatPubDate, SynopsisOnly)
  {
    ItemTexts(ep, channelTitle, getFileLength, formatPubDate, SynopsisOnly);
  }

  /** The two assemblers build the same document exactly when every episode's
      summary-then-synopsis description equals its synopsis. */
  lemma VariantsAgree(show: Show, selfLink: string, getFileLength: string -> int,
                      formatPubDate: string -> string)
    ensures Rss(show, selfLink, getFileLength, formatPubDate, SummaryThenSynopsis)
         == Rss(show, selfLink, getFileLength, formatPubDate, SynopsisOnly)
        <==> forall k :: 0 <= k < |Nodes(show)| ==>
               EpisodeDescription(Nodes(show)[k]) == Nodes(show)[k].synopsis.GetOr("")
  {
    if forall k :: 0 <= k < |Nodes(show)| ==> EpisodeDescription(Nodes(show)[k]) == Nodes(show)[k].synopsis.GetOr("") {
      SameDescriptionsSameDocument(show, selfLink, getFileLength, formatPubDate);
    }
    if Rss(show, selfLink, getFileLength, formatPubDate, SummaryThenSynopsis)
       == Rss(show, selfLink, getFileLength, formatPubDate, SynopsisOnly) {
      SameDocumentSameDescriptions(show, selfLink, getFileLength, formatPubDate);
    }
  }

  lemma SameDescriptionsSameDocument(show: Show, selfLink: string, getFileLength: string -> int,
                                     formatPubDate: string -> string)
    requires forall k :: 0 <= k < |Nodes(show)| ==>
               EpisodeDescription(Nodes(show)[k]) == Nodes(show)[k].synopsis.GetOr("")
    ensures Rss(show, selfLink, getFileLength, formatPubDate, SummaryThenSynopsis)
         == Rss(show, selfLink, getFileLength, formatPubDate, SynopsisOnly)
  {
    var nodes, title := Nodes(show), show.title.GetOr("");
    var a := ItemElements(nodes, title, getFileLength, formatPubDate, SummaryThenSynopsis);
    var b := ItemElements(nodes, title, getFileLength, formatPubDate, SynopsisOnly);
    forall k | 0 <= k < |nodes|
      ensures a[k] == b[k]
    {
      assert Description(SummaryThenSynopsis, nodes[k]) == Description(SynopsisOnly, nodes[k]);
    }
    assert a == b;
  }

  lemma SameDocumentSameDescriptions(show: Show, selfLink: string, getFileLength: string -> int,
                                     formatPubDate: string -> string)
    requires Rss(show, selfLink, getFileLength, formatPubDate, SummaryThenSynopsis)
          == Rss(show, selfLink, getFileLength, formatPubDate, SynopsisOnly)
    ensures forall k :: 0 <= k < |Nodes(show)| ==>
              EpisodeDescription(Nodes(show)[k]) == Nodes(show)[k].synopsis.GetOr("")
  {
    var nodes, title := Nodes(show), show.title.GetOr("");
    var ra := Rss(show, selfLink, getFileLength, formatPubDate, SummaryThenSynopsis);
    var rb := Rss(show, selfLink, getFileLength, formatPubDate, SynopsisOnly);
    forall k | 0 <= k < |nodes|
      ensures EpisodeDescription(nodes[k]) == nodes[k].synopsis.GetOr("")
    {
      assert ra.children[0].children[|ChannelTags| + k] == rb.children[0].children[|ChannelTags| + k];
      ItemTexts(nodes[k], title, getFileLength, formatPubDate, SummaryThenSynopsis);
      ItemTexts(nodes[k], title, getFileLength, formatPubDate, SynopsisOnly);
    }
  }

  /** Without a non-empty summary anywhere, the two variants produce the same document. */
  lemma VariantsAgreeWithoutSummaries(show: Show, selfLink: string, getFileLength: string -> int,
                                      formatPubDate: string -> string)
    requires forall k :: 0 <= k < |Nodes(show)| ==> !Truthy(Nodes(show)[k].summary)
    ensures Rss(show, selfLink, getFileLength, formatPubDate, SummaryThenSynopsis)
         == Rss(show, selfLink, getFileLength, formatPubDate, SynopsisOnly)
  {
    VariantsAgree(show, selfLink, getFileLength, formatPubDate);
  }

  /** `build_rss_xml` of ardaudiothek_rss.py: the same tree as rss_xml.py's, except that
      an item's description is the synopsis alone. */
  method BuildRssXml(show: Show, selfLink: string, getFileLength: string -> int, formatPubDate: string -> string)
    returns (rss: Element, probes: seq<string>)
    ensures rss == Rss(show, selfLink, getFileLength, formatPubDate, SynopsisOnly)
    ensures probes == Probes(Nodes(show))
  {
    rss, probes := BuildFeed(show, selfLink, getFileLength, formatPubDate, SynopsisOnly);
  }

  /** `generate_feed` of ardaudiothek_rss.py: fetch, then the synopsis-only assembler. */
  method GenerateFeed(showId: int, latest: int, selfLink: string,
                      fetch: (int, int) -> Result<Show, string>,
                      getFileLength: string -> int, formatPubDate: string -> string)
    returns (feed: Result<Element, string>, probes: seq<string>)
    ensures fetch(showId, latest).Failure? ==> feed == Failure(fetch(showId, latest).error) && probes == []
    ensures fetch(showId, latest).Success? ==>
      var show := fetch(showId, latest).value;
      feed == Success(Rss(show, selfLink, getFileLength, formatPubDate, SynopsisOnly))
      && probes == Probes(Nodes(show))
  {
    var fetched := fetch(showId, latest);
    if fetched.Failure? {
      return Failure(fetched.error), [];
    }
    var rss;
    rss, probes := BuildRssXml(fetched.value, selfLink, getFileLength, formatPubDate);
    feed := Success(rss);
  }
}
