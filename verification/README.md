# OEmbedParse in Dafny

A model of the message handler of the OEmbedParse Limnoria plugin
(`plugin.py`). The handler works in these steps:

- It watches channel messages and pulls URLs out of them with a regular
  expression.
- It works out each URL's domain (the `urlparse` network location,
  lower-cased).
- For a monitored domain, it looks for an oEmbed `<link>` on the page and
  fetches the JSON it points to. From the JSON's `html` fragment it takes the
  first paragraph's text and the timestamp in the last anchor's `href`, and
  answers with `text -- author (YYYY-MM-DD HH:MM UTC)`.
- When that gives nothing, and for every unmonitored URL, it answers with
  `Title: ` and the page's stripped title, cut to 200 characters.

Modules follow the plugin's helpers:

| module | file | models |
|---|---|---|
| `Wrappers` | wrappers.dfy | `None`, and exceptions as values (`Option`, `Result`) |
| `PyStr` | pystr.dfy | the `str` methods the plugin uses: `isspace`, `strip`, `split()`, `' '.join`, ASCII `lower`, substring search |
| `UrlScan` | urlscan.dfy | `_extract_urls`: `re.findall` of the URL pattern |
| `Domains` | domains.dfy | `_get_domain` (`urlsplit` netloc, `lower`) and `_is_monitored_domain` |
| `Timestamps` | timestamps.dfy | the timestamp `re.search` and `_parse_timestamp` with an explicit Gregorian calendar |
| `Documents` | documents.dfy | parsed HTML and decoded JSON, reduced to the parts the plugin reads |
| `Content` | content.dfy | `_parse_html_content` |
| `Discovery` | discovery.dfy | the link selection of `_fetch_oembed_data` and `_get_page_title` |
| `Formatter` | formatter.dfy | `_format_oembed_response` |
| `UrlLoop` | loop.dfy | the `for` loop of `doPrivmsg`, for any loop body |
| `Plugin` | plugin.dfy | `doPrivmsg` |
| `Scenarios` | scenarios.dfy | whole-message walk-throughs on a concrete post link |

Network results, `html.unescape` and exceptions raised while replying are
parameters (`Env`, `Web`). Configuration is a snapshot (`Config`). Replies
are returned in order instead of being sent.

Behaviour of `plugin.py` that the model keeps as written:

- There is one reply format: the text, `-- author` and `(timestamp)`, joined
  by single spaces (plugin.py:178-195).
- The title fallback runs for every URL without an oEmbed reply, monitored or
  not (plugin.py:237-241). Titles are cut at the constant 200
  (plugin.py:12, 146-147).
- A fragment with no anchors makes `find_all('a')[-1]` raise, and so does a
  last anchor without `href`. The error is caught and the whole extraction is
  `None` (plugin.py:77-91). So a payload whose `html` has no anchor never gives
  an oEmbed reply.
- A payload that formats to the empty string falls through to the title,
  because the reply's truthiness is tested (plugin.py:232).
- The domain is computed outside the per-URL `try` (plugin.py:223). A
  `ValueError` from an unbalanced `[` or `]` therefore ends the handling of
  the whole message. URLs before it keep their replies, and no later URL is
  handled.
- Whitespace-only text after `html.unescape` still counts as a part
  (plugin.py:181-185): the reply then starts with a space
  (`Formatter.BlankTextKeepsSeparator`).

## Model

| member | source | states |
|---|---|---|
| UrlScan.PatternClassSimplifies | plugin.py:35 | the pattern's character class (letters, digits, the range `$` to `_`, `@.&+`, `!*\(),`) is exactly `!`, 0x24 to 0x5F and `a` to `z`; the `%XX` alternative adds no character |
| UrlScan.MatchAt | plugin.py:35 | a match starting at a position is found exactly when one exists; the one found is `http://` or `https://` plus a non-empty run of URL characters that cannot be extended |
| UrlScan.MatchEndDetermined | plugin.py:35 | greedy matching: at a given start, a match has exactly one possible end, the end of the run of URL characters after the scheme |
| UrlScan.ScanFrom | plugin.py:36 | every span is a full match, spans are disjoint and left to right, and every position where a match could start lies inside some span |
| UrlScan.ExtractUrls | plugin.py:33-38 | one URL per span, each exactly the text of its span and of URL shape; repeated URLs are kept |
| UrlScan.ScanIsFindAll | plugin.py:36 | the scan meets the findall description: matches in order, disjoint, nothing skipped |
| UrlScan.FindAllUnique | plugin.py:36 | two span lists that both meet the findall description are equal |
| UrlScan.FindAllIsScan | plugin.py:36 | any span list that meets the findall description is the scan's result |
| Domains.AfterScheme | plugin.py:42 | a suffix of the URL; when shorter, what was removed is a scheme (an ASCII letter, then scheme characters) and its `:`; and conversely, when a valid scheme stands before the first `:` and something follows it, the result is exactly the text after that `:` |
| Domains.SchemeRemoved | plugin.py:42 | whenever the text before some `:` is a valid scheme, the rest after the scheme is everything after that `:` |
| Domains.NetLoc | plugin.py:42 | empty unless the text after the scheme starts with `//`; then the text after `//` up to the first `/`, `?` or `#`, or to the end |
| Domains.GetDomain | plugin.py:40-45 | raises exactly when the network location has one square bracket without the other; otherwise it is the network location lower-cased: same length, no upper-case letter, no delimiter |
| Domains.IsMonitored | plugin.py:47-52 | true exactly when some configured entry is equal to the domain |
| Domains.ScannedUrlDomain | plugin.py:40-45 | for a URL the scanner returns, the domain is the lower-cased text after `//` up to the first `/` or `?`, including user information and port, or the bracket error |
| Domains.ScannedNetLoc | plugin.py:42 | the network location of a URL the scanner returns is the text after its `//` up to the end of the host part |
| Domains.DomainOfParts | plugin.py:42-43 | for a URL of scheme, host and path, the domain is the lower-cased host, or the bracket error |
| Domains.UpperCaseEntryNeverMatches | plugin.py:43-50 | a configured entry with an upper-case letter never equals a computed domain |
| Domains.SubdomainDoesNotMatch | plugin.py:47-52 | `https://sub.bsky.app/x` has domain `sub.bsky.app`, which is not monitored under `bsky.app` |
| Domains.PortDoesNotMatch | plugin.py:47-52 | `https://bsky.app:443/x` has domain `bsky.app:443`, which is not monitored under `bsky.app` |
| Domains.UpperCaseHostMatches | plugin.py:42-50 | `https://BSKY.app/x` is lower-cased to `bsky.app`, which is monitored under `bsky.app` |
| Domains.UnbalancedBracketRaises | plugin.py:42 | `http://[abc/x` makes `urlparse` raise |
| Timestamps.PadDigitsValue | plugin.py:58 | printing a digit string's value, zero-padded to its width, gives the string back |
| Timestamps.DigitsValuePad | plugin.py:58 | reading back a zero-padded number gives the number |
| Timestamps.ParseTimestamp | plugin.py:54-61 | a valid date-time becomes the input's date, a space, its `hh:mm` and ` UTC`, in display shape; anything else comes back unchanged; the result equals the input exactly when the date-time is invalid |
| Timestamps.FindTimestampFrom | plugin.py:80 | the leftmost position at or after the start where the pattern matches, or none when it matches nowhere there |
| Timestamps.SearchTimestamp | plugin.py:80 | a match exists exactly when the pattern occurs somewhere; the match has the pattern's shape |
| Timestamps.SearchIsLeftmost | plugin.py:80 | the match found is the 24 characters at a matching position before which no match starts |
| Timestamps.InvalidDateKept | plugin.py:56-61 | `2023-02-29T10:00:00.000Z` (no 29 February in 2023) is returned unchanged |
| Timestamps.ValidDateReformatted | plugin.py:57-58 | `2024-01-01T12:00:00.000Z` becomes `2024-01-01 12:00 UTC` |
| Documents.Truthy | plugin.py:164 | the empty object is the only false object |
| Documents.HtmlOf | plugin.py:170 | the `html` member's fragment, or the empty fragment when there is none |
| Documents.HasAuthor | plugin.py:188 | the payload is an object whose `author_name`, read with a missing member as empty, is non-empty |
| Content.LastHref | plugin.py:77-80 | there is no href exactly when there is no anchor or the last anchor has no `href`; otherwise it is the last anchor's `href` |
| Content.PostText | plugin.py:70-73 | the first paragraph's text stripped of whitespace at both ends, or empty without a paragraph |
| Content.TimestampOf | plugin.py:78-83 | non-empty exactly when the pattern occurs in the href; in display shape or the raw match |
| Content.ParseHtmlContent | plugin.py:63-91 | `None` exactly when there is no anchor or the last one has no `href`; otherwise the stripped first paragraph (empty without one) and the timestamp read from the last anchor's `href`, present exactly when that href holds the pattern |
| Content.TimestampIsLeftmostMatch | plugin.py:77-82 | the timestamp is `_parse_timestamp` of the leftmost match in the last anchor's href |
| Content.OnlyLastAnchorMatters | plugin.py:77 | anchors before the last one change nothing |
| Content.LastAnchorWithoutHrefFails | plugin.py:77-91 | a last anchor without `href` makes the extraction `None`, whatever comes before it |
| Content.EmptyFragmentFails | plugin.py:77-91 | an empty fragment gives `None` |
| PyStr.Strip | plugin.py:73 | no whitespace at either end; the result is the input's middle, with only whitespace removed before and after it |
| PyStr.Split | plugin.py:184 | every piece is a non-empty run without whitespace; `SplitEmpty`, `SplitSpaceCons` and `SplitWordCons` together fix the split of every text |
| PyStr.SplitCases | plugin.py:184 | the split character by character: nothing for empty text, a leading whitespace character is dropped, otherwise the leading non-whitespace run is the first piece |
| PyStr.SplitSpaceCons | plugin.py:184 | any whitespace character in front of a text leaves its split unchanged |
| PyStr.SplitWordCons | plugin.py:184 | a word followed by nothing or by whitespace is the first piece of the split, followed by the split of the rest |
| PyStr.Normalize | plugin.py:184 | single spaces between words, none at either end, and the same words as the input |
| PyStr.JoinWords | plugin.py:184 | joining words with single spaces gives well-spaced text that starts with the first word and ends with the last |
| PyStr.SplitJoin | plugin.py:184 | splitting words joined by single spaces gives the words back |
| PyStr.JoinSplit | plugin.py:184 | joining the words of well-spaced text gives the text back |
| PyStr.NormalizeIdempotent | plugin.py:184 | normalising twice is normalising once |
| PyStr.NormalizeFixedPoints | plugin.py:184 | text is left unchanged by normalising exactly when it is well spaced |
| PyStr.Lower | plugin.py:43 | same length, ASCII upper-case letters moved to lower case, every other character kept |
| PyStr.Contains | plugin.py:108 | true exactly when the pattern occurs at some position |
| Discovery.IsOEmbedType | plugin.py:108 | the `type` attribute is present and `application/`, then `json` or `xml`, then `+oembed` occurs somewhere in it |
| Discovery.OEmbedTypeByParts | plugin.py:108 | searching for either spelled-out alternative finds a match exactly when the pattern matches somewhere |
| Discovery.SelectOEmbedLink | plugin.py:108 | the first link whose `type` names JSON or XML oEmbed, or none when no link does |
| Discovery.OEmbedHref | plugin.py:108-117 | the `href` of the first oEmbed link; none when no link is an oEmbed link |
| Discovery.OEmbedHrefAppend | plugin.py:108 | links after the first oEmbed link are never consulted; without one in front, the choice is made in the rest |
| Discovery.FetchOEmbed | plugin.py:93-130 | `None` when the page cannot be fetched or has no usable oEmbed link; otherwise exactly the JSON fetched from that link's `href` |
| Discovery.Truncate | plugin.py:146-147 | at most 200 characters; a title of 200 or fewer unchanged; a longer one is its first 197 characters and `...` |
| Discovery.TruncateIdempotent | plugin.py:146-147 | truncating twice is truncating once |
| Discovery.TruncateKeepsPrefix | plugin.py:146-147 | a truncated title is the original, or 197 of its characters and `...` |
| Discovery.GetPageTitle | plugin.py:132-158 | present exactly when the page is fetched and has a title string; at most 200 characters with no edge whitespace; empty exactly when the title strips to nothing |
| Discovery.ShortTitleUnchanged | plugin.py:142-146 | a stripped title of at most 200 characters comes back exactly |
| Discovery.LongTitleTruncated | plugin.py:142-148 | a longer stripped title comes back as its first 197 characters and `...` |
| Formatter.TextPart | plugin.py:183-184 | well spaced, with the same words as the unescaped text |
| Formatter.Parts | plugin.py:178-193 | there are no parts exactly when text, author and timestamp are all absent |
| Formatter.JoinLayout | plugin.py:195 | joining the present parts with spaces is the case-by-case layout |
| Formatter.FormatOEmbedResponse | plugin.py:160-201 | `None` for a falsy or non-object payload and for a failed extraction; a reply exactly when the payload is a truthy object whose extraction succeeds with a text, author or timestamp |
| Formatter.ReplyLayout | plugin.py:178-197 | the reply is the present parts in the order text, `-- author`, `(timestamp)`, each separated from the next by one space |
| Formatter.NoHtmlNoReply | plugin.py:170-175 | a payload without `html` never gives a reply, whatever its author |
| Formatter.BlankTextKeepsSeparator | plugin.py:181-185 | text that unescapes to whitespace gives a reply that is empty or starts with a space |
| UrlLoop.RepliesFor | plugin.py:222-244 | at most one reply per URL |
| UrlLoop.RunLoop | plugin.py:222-244 | the loop collects the replies, in URL order, up to the first URL whose step raises |
| UrlLoop.RepliesAppend | plugin.py:222 | the replies to two URL lists in a row are those of the first followed by those of the second, when nothing in the first raises |
| UrlLoop.AbortAt | plugin.py:223 | a URL whose step raises ends the message: only the URLs before it are answered |
| UrlLoop.SilentUrlSkipped | plugin.py:222-244 | a URL without a reply loses only its own reply |
| Plugin.OEmbedReply | plugin.py:228-235 | a reply only for a monitored domain, and then a non-empty formatted payload; every such payload gives one |
| Plugin.TitleReply | plugin.py:238-241 | a reply exactly when the page title is non-empty; it is `Title: ` followed by that title, at most 207 characters |
| Plugin.ReplyFor | plugin.py:224-244 | no reply when handling raises; otherwise the oEmbed reply if there is one, else the title fallback |
| Plugin.StepOf | plugin.py:222-244 | an iteration raises exactly when the domain cannot be parsed; otherwise it gives that URL's reply |
| Plugin.IsChannel | plugin.py:206 | the target starts with `#` |
| Plugin.DoPrivmsg | plugin.py:203-244 | no replies for a non-channel target or a disabled channel; never more replies than URLs |
| Plugin.HandleMessage | plugin.py:203-244 | the handler as written computes the replies of the per-message model |
| Plugin.RaisingUrlSkipped | plugin.py:243-244 | an exception while handling one URL loses only that URL's reply; the URLs after it are still answered |
| Plugin.UnmonitoredUsesTitle | plugin.py:227-241 | an unmonitored URL is answered from its title only; the oEmbed endpoints make no difference |
| Plugin.OEmbedReplyIgnoresTitle | plugin.py:228-238 | when the oEmbed reply exists, the page title is never used |
| Scenarios.MessageUrls | plugin.py:33-38 | `check this https://bsky.app/profile/x/post/1` yields exactly that one URL |
| Scenarios.PostDomain | plugin.py:40-45 | the post link's domain is `bsky.app` |
| Scenarios.PostTimestamp | plugin.py:78-82 | the href `x/2024-01-01T12:00:00.000Z` gives `2024-01-01 12:00 UTC` |
| Scenarios.PostContent | plugin.py:63-88 | the example fragment gives the text `Hello world` and that timestamp |
| Scenarios.PostReply | plugin.py:160-197 | the example payload formats to `Hello world -- Alice (2024-01-01 12:00 UTC)` |
| Scenarios.PostDiscovery | plugin.py:107-126 | a page whose one link has the JSON oEmbed type leads to that link's JSON |
| Scenarios.PostScenario | plugin.py:203-235 | the post link on a monitored domain in an enabled channel gets exactly the formatted oEmbed reply |
| Scenarios.TitleScenario | plugin.py:237-241 | the same link on an unmonitored domain, with page title `Example`, gets exactly `Title: Example` |
| Scenarios.UnreachableScenario | plugin.py:228-241 | when the page cannot be fetched, the link gets no reply at all |

## Left out

- Network I/O (`requests.get`, `raise_for_status`, `.json()`, the 10-second timeouts) is an oracle. `Web.fetchPage` and `Web.fetchJson` give the parsed page or decoded JSON, or `None` for any failure.
- One page oracle serves both the oEmbed discovery and the title lookup, so the two fetches of the same URL always see the same page.
- BeautifulSoup is not modelled. A parsed fragment is its first paragraph's text and its anchors; a page is its `<link>` elements and its title string.
- `html.unescape` is an uninterpreted function parameter.
- JSON values are reduced to what the formatter reads: `html` (already parsed), a string `author_name`, whether other members exist, and truthiness for non-objects. Non-string `author_name` values are not modelled.
- Exceptions raised inside the per-URL `try` other than by the helpers (for example by `irc.reply`) are an oracle, `Env.raises`.
- Logging (`log.debug`, `log.error`) is a side channel and is left out.
- Supybot plumbing (`registryValue`, `irc.reply`, `threaded = True`) becomes a configuration snapshot and a returned reply list. Concurrency is not modelled.
- Channel-name case handling by the registry is not modelled. A channel is enabled when its name is in the snapshot's set.
- `config.py` only registers the registry values, and `__init__.py` only holds metadata. Neither is part of this model. The `enableTitleFallback` and `maxTitleLength` options mentioned there do not exist in the handler.
- Timestamps: `\d` is taken to be the ASCII digits. Python also matches other Unicode decimal digits, which `fromisoformat` may accept.
- Timestamps.ParseTimestamp: years 1 to 999 are written with the input's four digits. The platform's `strftime('%Y')` may print them without leading zeros.
- `_parse_timestamp` is modelled only on the texts its one caller passes, those of the search pattern's shape.
- `lower()` is modelled for ASCII letters only. Non-ASCII upper-case letters, which Python also lowers, are kept as they are.
- `urlsplit`: only the bracket-balance `ValueError` is modelled. Newer Pythons' validation of bracketed IPv6 hosts, and the removal of control characters and surrounding whitespace, are not. The scanner never returns URLs containing whitespace or control characters.
