# podcast_feed, modelled in Dafny

A model of the feed engine of podcast_feed, which turns an ARD Audiothek show into an
RSS 2.0 podcast feed. It covers three parts:

- **Request validation.** `parse_and_validate` turns the `show` and `latest` query parameters
  into a pair of integers, or into one of two `ValueError`s.
- **Feed assembly.** `build_rss_xml` maps the show record returned by the GraphQL API to an
  element tree: an `rss` root, one `channel`, five header children, then one `item` per episode.
- **String helpers.** `_replace_width`, `_episode_description` and `escape_string`.

The modules follow the source files:

| module | file | contents |
|---|---|---|
| `Wrappers` | (none) | `Option` (a JSON field that may be missing) and `Result` (an exception) |
| `Strings` | (none) | the Python string built-ins the code relies on: `str.isdigit`, `int(s)`, `str(n)`, `str.replace` |
| `ElementTree` | (none) | the part of an ElementTree document the code builds: Clark-notation tags, attributes in insertion order, optional text, ordered children |
| `ShowJson` | (none) | the show record; every field is an `Option`, so each "absent gives a default" is an explicit branch |
| `RssXml` | rss_xml.py | the assembler |
| `FeedService` | feed_service.py | validation, and `generate_feed` as a fetch followed by the assembler |
| `ArdAudiothekRss` | ardaudiothek_rss.py | `escape_string`, and the older single-file assembler |

The assembler is imperative, like the source. `RssXml.BuildFeed` appends the channel
children one at a time, then runs the item loop (`AppendItems`, one `AppendItem` per
episode). Each method is proved equal to its part of the function `RssXml.Rss`. The lemmas
about `Rss` and `ItemElement` state the document's shape.

The two source assemblers differ in one respect: how an item's description is chosen.
A single method covers both, parameterised by `DescriptionRule`:

- `SummaryThenSynopsis` is rss_xml.py:66.
- `SynopsisOnly` is ardaudiothek_rss.py:138.

`ArdAudiothekRss.VariantsAgree` proves exactly when the two variants build the same document.

Outside services are modelled as function parameters:

- The byte-length resolver `get_file_length` is a parameter `getFileLength: string -> int`.
  The assembler also returns `probes`, the URLs it passed to the resolver, in call order.
  This is what states "the resolver is not called".
- The date formatter `_format_rss_pubdate` is a parameter `formatPubDate: string -> string`.
- The GraphQL fetch is a parameter `fetch: (int, int) -> Result<Show, string>`.

ardaudiothek_rss.py repeats, line for line, two of the modelled functions of the other files:

- `_replace_width` (ardaudiothek_rss.py:96-97) is modelled once, as `RssXml.ReplaceWidth`.
- `parse_and_validate` (ardaudiothek_rss.py:176-184) is modelled once, as
  `FeedService.ParseAndValidate`.

Three facts about validation that follow from the code and are easy to miss:

- `"0"` is accepted for both `show` and `latest` (feed_service.py:11,15). The code checks
  only "all digits" and then `latest < 0`.
- An empty `latest` (`""`) gets the latest error, because `"".isdigit()` is false
  (feed_service.py:14-16). The HTTP handler never passes one: `parse_qs` drops blank values
  (ardaudiothek_rss.py:195), so `?latest=` arrives as an absent `latest`.
- An absent `latest` becomes 2147483647 (feed_service.py:7,14).

## Model

| member | source | states |
|---|---|---|
| FeedService.ParseAndValidate | feed_service.py:10-18 | fails with the show error iff `show` is absent or not all digits; fails with the latest error iff `show` is valid and `latest` is present and not all digits; otherwise succeeds, with `int(show)` and `int(latest)` (2147483647 when `latest` is absent), both non-negative; the copy at ardaudiothek_rss.py:176-184 is identical |
| FeedService.WellFormed | feed_service.py:11 | a `show` that passes the test at feed_service.py:11: present and all ASCII digits; stated in `FeedService.ParseAndValidate` |
| FeedService.ValidationError.Message | feed_service.py:12-16 | the texts of the two `ValueError`s, `Invalid "show" parameter` and `Invalid "latest" parameter` |
| FeedService.ParseAndValidatePrinted | feed_service.py:14-18 | numbers printed with `str` come back unchanged, including `"0"`; an absent `latest` gives 2147483647 |
| FeedService.ParseAndValidateRejectsNegative | feed_service.py:11-16 | a printed negative number is rejected: the show error as `show`, the latest error as `latest` |
| FeedService.ParseAndValidateShowFirst | feed_service.py:11-16 | an invalid `show` gives the show error whatever `latest` is |
| FeedService.ParseAndValidateEdgeCases | feed_service.py:11-18 | `"0"` and `"007"` are accepted; a `latest` of `""`, `"+5"` or `" 5"`, and a `show` that is absent or `""`, are rejected with the matching error |
| FeedService.GenerateFeed | feed_service.py:21-23 | fetches with the same `(show_id, latest)`; a failed fetch is passed on and the resolver is not called; otherwise the result is the assembler's document for the fetched show |
| Strings.IsDigits | feed_service.py:11 | `str.isdigit` on ASCII: a non-empty string of the characters `0`-`9` only |
| Strings.ParseDecimal | feed_service.py:18 | `int(s)` on a string of ASCII digits, leading zeros allowed; its round trip with `str` is `Strings.NatToStringRoundTrip` |
| Strings.NatToString | rss_xml.py:72 | `str(n)` for `n >= 0`: the shortest decimal rendering; properties in `Strings.NatToStringRoundTrip` |
| Strings.IntToString | rss_xml.py:72 | `str(n)` for any integer, with a minus sign for a negative one; properties in `Strings.IntToStringRoundTrip` |
| Strings.ReplaceAll | rss_xml.py:17 | `str.replace`: a left-to-right scan replacing non-overlapping occurrences; properties in the `Strings.ReplaceAll*` and `Strings.ReplaceChar*` lemmas |
| Strings.NatToStringRoundTrip | feed_service.py:18 | `int(str(n)) == n`: the rendering is all digits, reads back as `n`, and has no leading zero; a single digit renders as itself, so `str(0)` is `"0"` |
| Strings.IntToStringRoundTrip | rss_xml.py:72 | `str(n)` reads back as `n` for `n >= 0`; a negative `n` is a minus sign followed by the digits of `-n` |
| Strings.ReplaceAllAbsent | rss_xml.py:17 | `str.replace` leaves a string without the pattern unchanged |
| Strings.ReplaceAllRemoves | rss_xml.py:17 | when the pattern's first character is not in the replacement, and the replacement's first character is not in the pattern, no occurrence of the pattern survives |
| Strings.ReplaceAllKeepsPrefix | rss_xml.py:17 | text without the pattern's first character is copied through, and replacement continues after it; derived from `Strings.ReplaceAllSkipsPrefix` |
| Strings.ReplaceCharConcat | ardaudiothek_rss.py:86 | replacing a one-character pattern distributes over concatenation |
| RssXml.ReplaceWidth | rss_xml.py:16-17 | a template without `{width}` comes back unchanged; with the default width `448` the result contains no `{width}`; the copy at ardaudiothek_rss.py:96-97 is identical |
| RssXml.ReplaceWidthSplices | rss_xml.py:16-17 | a `{width}` token is replaced in place by the width, and the scan continues after it, whenever no earlier `{width}` begins in the text before it (other braces may occur there) |
| RssXml.ReplaceWidthExample | rss_xml.py:16-17 | `{x}/{width}.jpg` becomes `{x}/448.jpg`: a brace that does not begin the token is kept |
| ShowJson.Nodes | rss_xml.py:55 | `show.get("items", {}).get("nodes", [])`: the episodes, none when `items` or `nodes` is missing; stated in `RssXml.Rss` and `RssXml.ProbesShape` |
| ShowJson.Url1X1 | rss_xml.py:44 | `.get("image", {}).get("url1X1", "")`, here and again at rss_xml.py:90: the image template, `""` when `image` or `url1X1` is missing; stated in `RssXml.ChannelHeaderShape` and `RssXml.ItemImage` |
| RssXml.PrimaryAudio | rss_xml.py:57-58 | the first element of `audios`, none when `audios` is missing or empty; stated in `RssXml.EnclosureLength` and `RssXml.ItemEnclosure` |
| RssXml.AudioUrl | rss_xml.py:60 | the first audio's `url`, `""` when there is no first audio or no `url`; stated in `RssXml.ItemEnclosure` and `RssXml.ProbesShape` |
| RssXml.DownloadUrl | rss_xml.py:61 | the first audio's `downloadUrl`, `""` when there is no first audio or no `downloadUrl`; stated in `RssXml.ItemEnclosure` |
| RssXml.Duration | rss_xml.py:62 | `int(node.get("duration") or 0)`: the duration, 0 when missing; stated in `RssXml.ItemDurationAgrees` |
| RssXml.ItemElements | rss_xml.py:55-56 | one item per episode, in order, as the loop appends them; stated in `RssXml.Rss` and `RssXml.AppendItems` |
| RssXml.EpisodeDescription | rss_xml.py:20-21 | the summary if it is present and non-empty, otherwise the synopsis if non-empty, otherwise `""`; the result is `""` exactly when neither is non-empty |
| RssXml.EnclosureLength | rss_xml.py:57-63 | -1 when `audios` is absent or empty or its first element has no non-empty `url`; otherwise the resolver's answer for `audios[0].url` |
| RssXml.Description | rss_xml.py:66 | the item description of each rule: `_episode_description` for rss_xml.py, the synopsis alone (ardaudiothek_rss.py:138); stated in `RssXml.ItemTexts` |
| RssXml.ChannelHeader | rss_xml.py:40-53 | the five channel children before the items; stated in `RssXml.ChannelHeaderShape` |
| RssXml.PubDate | rss_xml.py:85-87 | the `pubDate` child, present only for a truthy publication date, holding the formatted date; stated in `RssXml.ItemChildOrder` and `RssXml.ItemTexts` |
| RssXml.ItemElement | rss_xml.py:56-98 | the `item` of one episode; stated in `RssXml.ItemChildOrder`, `ItemTexts`, `ItemEnclosure`, `ItemDurationAgrees` and `ItemImage` |
| RssXml.Probes | rss_xml.py:60-63 | the URLs passed to the resolver, in call order; stated in `RssXml.ProbesShape` |
| RssXml.Rss | rss_xml.py:29-56 | root `rss` with exactly the four namespace and version attributes, no text, and a single `channel`; the channel holds the five header children, then one item per episode of `items.nodes`, in order (none when `items` or `nodes` is missing) |
| RssXml.ChannelHeaderShape | rss_xml.py:40-53 | channel children in order: title, link, image (url, title, link), description, Atom link with `href` set to the self link, `rel="self"` and `type="application/rss+xml"`; the image url is the width-substituted `url1X1`, its title is the show title, its link is the site base followed by `path` |
| RssXml.ItemChildOrder | rss_xml.py:56-98 | item children in order: title, description, guid, link, enclosure, media:content, then `pubDate` only when the publication date is truthy, then itunes:duration, image, itunes:image |
| RssXml.ItemTexts | rss_xml.py:65-87 | the item title, the rule's description, the sharing URL as both guid and link, and the formatted date for a dated episode |
| RssXml.ItemEnclosure | rss_xml.py:60-83 | the enclosure's attributes are exactly `url` (the first audio's URL), `length` (the decimal resolved length) and `type="audio/mpeg"`, in that order; media:content's are exactly `url` (the download URL), `medium="audio"`, `duration` and `type="audio/mpeg"` |
| RssXml.ItemDurationAgrees | rss_xml.py:62-88 | `media:content@duration` and the `itunes:duration` text are the same `str(int(duration or 0))` |
| RssXml.ItemImage | rss_xml.py:90-98 | the item image has the width-substituted episode image URL and the channel title; `itunes:image` has that URL as its only attribute, `href` |
| RssXml.ProbesShape | rss_xml.py:63 | the resolver is called at most once per episode and never with an empty URL; it is never called when no episode has an audio URL, and once per episode, in order, when all of them have one |
| RssXml.BuildItem | rss_xml.py:56-98 | the loop body builds the item of `Rss`, and calls the resolver with the first audio URL exactly when that URL is non-empty |
| RssXml.BuildChannelHeader | rss_xml.py:38-53 | the appended header children are the channel header of `Rss` |
| RssXml.AppendItem | rss_xml.py:55-98 | one round of the item loop extends the items and resolver calls from the first `i` episodes to the first `i + 1` |
| RssXml.AppendItems | rss_xml.py:55-98 | the item loop appends exactly the items of all episodes, in order, with the resolver calls of `Probes` |
| RssXml.BuildFeed | rss_xml.py:24-101 | the built document is `Rss` for the chosen description rule; the resolver calls are `Probes` of the episodes |
| RssXml.BuildRssXml | rss_xml.py:24-101 | the document and resolver calls of rss_xml.py, whose descriptions fall back from summary to synopsis |
| ArdAudiothekRss.EscapeString | ardaudiothek_rss.py:84-86 | `html.escape(s, quote=True)`: the five replacements in the order `&`, `<`, `>`, `"`, `'`; stated in the `ArdAudiothekRss.EscapeString*` lemmas |
| ArdAudiothekRss.EscapeStringIsPerChar | ardaudiothek_rss.py:84-86 | the five chained replacements agree with escaping each character on its own: `&`, `<`, `>`, `"`, `'` become `&amp;`, `&lt;`, `&gt;`, `&quot;`, `&#x27;`, and every other character is kept |
| ArdAudiothekRss.EscapeStringConcat | ardaudiothek_rss.py:84-86 | escaping distributes over concatenation |
| ArdAudiothekRss.EscapeStringSingle | ardaudiothek_rss.py:84-86 | on one character, the replacement chain yields that character's entity, or the character itself |
| ArdAudiothekRss.EscapeStringNoMarkup | ardaudiothek_rss.py:84-86 | escaped text contains no `<`, `>`, `"` or `'` |
| ArdAudiothekRss.EscapeStringEntities | ardaudiothek_rss.py:84-86 | every `&` in escaped text begins one of the five entities |
| ArdAudiothekRss.EscapeStringRoundTrip | ardaudiothek_rss.py:84-86 | un-escaping the five entities recovers the input |
| ArdAudiothekRss.SynopsisOnlyIgnoresSummary | ardaudiothek_rss.py:138 | in the single-file variant an item's description is the synopsis (`""` if absent), and the item does not depend on the summary |
| ArdAudiothekRss.VariantsAgree | ardaudiothek_rss.py:138 | the two assemblers build the same document iff every episode's summary-then-synopsis description equals its synopsis |
| ArdAudiothekRss.VariantsAgreeWithoutSummaries | ardaudiothek_rss.py:138 | without a non-empty summary anywhere, both assemblers build the same document |
| ArdAudiothekRss.BuildRssXml | ardaudiothek_rss.py:100-173 | the document and resolver calls of the single-file variant, whose descriptions are the synopsis alone |
| ArdAudiothekRss.GenerateFeed | ardaudiothek_rss.py:187-189 | fetches with the same `(show_id, latest)`; a failed fetch is passed on; otherwise the result is the synopsis-only document for the fetched show |

## Left out

- Network I/O is not modelled. The HEAD request behind `get_file_length` (ardaudiothek_rss.py:34-46, and ardaudiothek_api.py) is the parameter `getFileLength`. The GraphQL and REST fetches (ardaudiothek_rss.py:49-81) are the parameter `fetch`, whose failure stands for any exception the fetch raises.
- RssXml.EnclosureLength: the resolver is assumed never to raise and to be a function of its URL alone. In the source nothing guards the call (rss_xml.py:63, ardaudiothek_rss.py:135). The real resolver catches only `HTTPError`, `URLError` and `ValueError` (ardaudiothek_api.py:18, ardaudiothek_rss.py:40), so any other exception, such as a read time-out, aborts the whole `build_rss_xml`. A real probe may also answer differently for the same URL twice.
- `_format_rss_pubdate` (rss_xml.py:9-13) is the parameter `formatPubDate`. That a malformed date makes `datetime.fromisoformat` raise is not modelled.
- RssXml.BuildRssXml: returns the element tree, not the string. `ET.tostring` serialisation, its `ns0:`-style prefixes for Clark-notation tags and its text and attribute escaping are not modelled.
- ArdAudiothekRss.BuildRssXml: returns the element tree, not the string, for the same reason.
- The HTTP handler `RSSHandler`, the CLI `main`, the self-link construction and rss_server.py are transport and user-interface code, and are not modelled.
- FeedService.ParseAndValidate: `str.isdigit` is restricted to ASCII `0`-`9`. Python also accepts other Unicode digits, on which `int` may then raise.
- FeedService.ParseAndValidate: `int` is assumed to accept digit strings of any length. Since Python 3.11 (and the 3.7-3.10 security releases that added the limit), `int` raises a `ValueError` for more than 4300 digits. So a `show` or `latest` of 4301 digits makes the source raise that error (feed_service.py:14 or :18), where the model returns `Success`. The HTTP handler answers such a request with 400, as it does for the validation errors.
- JSON `null`: a field the API returns as `null` is modelled like a missing field, which gets the `.get` default. GraphQL reports missing data as `null`, so this is the usual case, and Python treats it differently in the following ways:
  - A `null` `duration`, `audios`, `summary` or `publicationStartDateAndTime` meets an `or` or a truthiness test and behaves exactly as modelled (rss_xml.py:57,62,66,86).
  - A `null` `title`, `synopsis` or `sharingUrl` sets the element's text to `None`, which serialises as an empty element, as `""` does.
  - A `null` `path` gives the image link `"https://www.ardaudiothek.deNone"` (rss_xml.py:46, ardaudiothek_rss.py:118). The model gives the bare site base.
  - A `null` audio `url` or `downloadUrl` puts `None` into an attribute, and `ET.tostring` then raises (rss_xml.py:100), so the whole feed fails. The model gives `""`.
  - A `null` `image`, `url1X1`, `items` or `nodes` makes `.get`, `.replace` or the `for` loop raise (rss_xml.py:44,55,90), so the whole feed fails. The model gives the default.
  - A `null` `programSet` is modelled as a `Failure` of `fetch`. In the source the fetch returns `None` without raising (ardaudiothek_api.py:49, ardaudiothek_rss.py:81), and `build_rss_xml` then raises at `show.get` (rss_xml.py:40, ardaudiothek_rss.py:112), so `generate_feed` fails.
- `escape_string` applies `str(value)` to a non-string argument. Only string arguments are modelled.
- A non-integer `duration` (a JSON float that `int` truncates) is not modelled: `duration` is an integer.
