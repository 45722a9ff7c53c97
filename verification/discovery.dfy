/** Fetching for one URL: oEmbed discovery through the page's `<link>`
    elements (`_fetch_oembed_data`) and the page-title fallback
    (`_get_page_title`). The network is a pair of oracles. */
module Discovery {
  import opened Wrappers
  import opened PyStr
  import opened Documents

  /** What the network returns. `fetchPage(url)` is the parsed page, or `None`
      when the request fails, times out or has an error status.
      `fetchJson(url)` is the decoded body, or `None` when the request fails
      or the body is not JSON. */
  datatype Web = Web(fetchPage: string -> Option<Page>, fetchJson: string -> Option<Payload>)

  /** The pattern `application/(json|xml)+oembed` matches `t` at `i`:
      `application/`, then `json` or `xml`, then `+oembed`. */
  predicate OEmbedPatternAt(t: string, i: nat) {
    && OccursAt(t, "application/", i)
    && (|| (OccursAt(t, "json", i + 12) && OccursAt(t, "+oembed", i + 16))
        || (OccursAt(t, "xml", i + 12) && OccursAt(t, "+oembed", i + 15)))
  }

  /** The `type` attribute is present and the pattern matches somewhere in it
      (`re.search`, case-sensitive). */
  function IsOEmbedType(mediaType: Option<string>): (b: bool)
    ensures b <==> mediaType.Some? && exists i: nat :: OEmbedPatternAt(mediaType.value, i)
  {
    if mediaType.None? then false
    else
      var t := mediaType.value;
      OEmbedTypeByParts(t);
      Contains(t, "application/json+oembed") || Contains(t, "application/xml+oembed")
  }

  /** Searching for either spelled-out alternative is searching for the
      pattern. */
  lemma OEmbedTypeByParts(t: string)
    ensures (|| (exists i: nat :: OccursAt(t, "application/json+oembed", i))
             || (exists i: nat :: OccursAt(t, "application/xml+oembed", i)))
            <==> exists i: nat :: OEmbedPatternAt(t, i)
  {
    forall i: nat
      ensures (OccursAt(t, "application/json+oembed", i) || OccursAt(t, "application/xml+oembed", i))
              <==> OEmbedPatternAt(t, i)
    {
      JsonAlternative(t, i);
      XmlAlternative(t, i);
    }
  }

  /** The `json` alternative spelled out. */
  lemma JsonAlternative(t: string, i: nat)
    ensures OccursAt(t, "application/json+oembed", i) <==>
      OccursAt(t, "application/", i) && OccursAt(t, "json", i + 12) && OccursAt(t, "+oembed", i + 16)
  {
    assert "application/json+oembed" == "application/" + "json" + "+oembed";
    OccursSplit3(t, "application/", "json", "+oembed", i);
  }

  /** The `xml` alternative spelled out. */
  lemma XmlAlternative(t: string, i: nat)
    ensures OccursAt(t, "application/xml+oembed", i) <==>
      OccursAt(t, "application/", i) && OccursAt(t, "xml", i + 12) && OccursAt(t, "+oembed", i + 15)
  {
    assert "application/xml+oembed" == "application/" + "xml" + "+oembed";
    OccursSplit3(t, "application/", "xml", "+oembed", i);
  }

  /** Index of the first oEmbed `<link>`: `soup.find('link', type=...)`. */
  function SelectOEmbedLink(links: seq<Link>): (i: Option<nat>)
    ensures i.Some? ==> i.value < |links| && IsOEmbedType(links[i.value].mediaType)
    ensures i.Some? ==> forall k :: 0 <= k < i.value ==> !IsOEmbedType(links[k].mediaType)
    ensures i.None? ==> forall k :: 0 <= k < |links| ==> !IsOEmbedType(links[k].mediaType)
  {
    if links == [] then None
    else if IsOEmbedType(links[0].mediaType) then Some(0)
    else match SelectOEmbedLink(links[1..])
      case Some(j) => Some(j + 1)
      case None => None
  }

  /** The `href` of the first oEmbed link. `None` when there is no such link,
      and also when it has no `href`, since fetching `None` raises and the
      error is caught. */
  function OEmbedHref(links: seq<Link>): (h: Option<string>)
    ensures h.Some? ==> exists i :: 0 <= i < |links| && IsOEmbedType(links[i].mediaType) && links[i].href == h
    ensures (forall k :: 0 <= k < |links| ==> !IsOEmbedType(links[k].mediaType)) ==> h.None?
    ensures SelectOEmbedLink(links).Some? ==> h == links[SelectOEmbedLink(links).value].href
  {
    match SelectOEmbedLink(links)
    case Some(i) => links[i].href
    case None => None
  }

  /** Links placed after an oEmbed link are never consulted; when the front
      part has no oEmbed link, the choice is made in the rest. */
  lemma {:induction false} OEmbedHrefAppend(front: seq<Link>, back: seq<Link>)
    ensures SelectOEmbedLink(front).Some? ==> OEmbedHref(front + back) == OEmbedHref(front)
    ensures SelectOEmbedLink(front).None? ==> OEmbedHref(front + back) == OEmbedHref(back)
  {
    SelectAppend(front, back);
    if SelectOEmbedLink(front).Some? {
      var i := SelectOEmbedLink(front).value;
      assert (front + back)[i] == front[i];
    } else if SelectOEmbedLink(back).Some? {
      var j := SelectOEmbedLink(back).value;
      assert (front + back)[|front| + j] == back[j];
    }
  }

  /** How the first-match search distributes over concatenation. */
  lemma {:induction false} SelectAppend(front: seq<Link>, back: seq<Link>)
    ensures SelectOEmbedLink(front).Some? ==> SelectOEmbedLink(front + back) == SelectOEmbedLink(front)
    ensures SelectOEmbedLink(front).None? ==>
      SelectOEmbedLink(front + back) == (match SelectOEmbedLink(back)
                                         case Some(j) => Some(|front| + j)
                                         case None => None)
  {
    if front != [] {
      assert (front + back)[0] == front[0];
      assert (front + back)[1..] == front[1..] + back;
      SelectAppend(front[1..], back);
    } else {
      assert front + back == back;
    }
  }

  /** `_fetch_oembed_data`: fetch the page, pick its first oEmbed link and
      fetch the JSON it points to; every failure on the way gives `None`. */
  function FetchOEmbed(url: string, web: Web): (r: Option<Payload>)
    ensures web.fetchPage(url).None? ==> r.None?
    ensures web.fetchPage(url).Some? && OEmbedHref(web.fetchPage(url).value.links).None? ==> r.None?
    ensures r.Some? ==> exists h :: OEmbedHref(web.fetchPage(url).value.links) == Some(h) && web.fetchJson(h) == r
    ensures web.fetchPage(url).Some? && OEmbedHref(web.fetchPage(url).value.links).Some? ==>
      r == web.fetchJson(OEmbedHref(web.fetchPage(url).value.links).value)
  {
    match web.fetchPage(url)
    case None => None
    case Some(page) =>
      match OEmbedHref(page.links)
      case None => None
      case Some(h) => web.fetchJson(h)
  }

  /** The longest title the fallback prints. */
  const MaxTitleLength: nat := 200

  /** Cut a title longer than the maximum to its first 197 characters
      followed by `...`. */
  function Truncate(t: string): (r: string)
    ensures |r| <= MaxTitleLength
    ensures |t| <= MaxTitleLength ==> r == t
    ensures |t| > MaxTitleLength ==> |r| == MaxTitleLength && r[..MaxTitleLength - 3] == t[..MaxTitleLength - 3]
    ensures |t| > MaxTitleLength ==> r[MaxTitleLength - 3..] == "..."
  {
    if |t| > MaxTitleLength then t[..MaxTitleLength - 3] + "..." else t
  }

  /** Truncating twice is truncating once. */
  lemma TruncateIdempotent(t: string)
    ensures Truncate(Truncate(t)) == Truncate(t)
  {
  }

  /** A truncated title is the beginning of the original, or is marked by a
      trailing `...` after 197 characters of it. */
  lemma TruncateKeepsPrefix(t: string)
    ensures var r := Truncate(t);
      || r == t
      || (|r| == MaxTitleLength && r == t[..|r| - 3] + "...")
  {
  }

  /** `_get_page_title`: the stripped and truncated title string, `None` when
      the page cannot be fetched or has no title string. An empty title is
      returned as it is, and so is one that strips to nothing. */
  function GetPageTitle(url: string, web: Web): (r: Option<string>)
    ensures r.Some? <==> web.fetchPage(url).Some? && web.fetchPage(url).value.title.Some?
    ensures r.Some? ==> |r.value| <= MaxTitleLength && NoEdgeSpace(r.value)
    ensures r.Some? ==> (r.value == "" <==> Strip(web.fetchPage(url).value.title.value) == "")
  {
    match web.fetchPage(url)
    case None => None
    case Some(page) =>
      match page.title
      case None => None
      case Some(t) => if t == "" then Some(t) else Some(Truncate(Strip(t)))
  }

  /** A stripped title of at most 200 characters comes back exactly. */
  lemma ShortTitleUnchanged(url: string, web: Web)
    requires web.fetchPage(url).Some? && web.fetchPage(url).value.title.Some?
    requires |Strip(web.fetchPage(url).value.title.value)| <= MaxTitleLength
    ensures GetPageTitle(url, web) == Some(Strip(web.fetchPage(url).value.title.value))
  {
  }

  /** A stripped title longer than 200 characters comes back as exactly 200:
      its first 197 characters and `...`. */
  lemma LongTitleTruncated(url: string, web: Web)
    requires web.fetchPage(url).Some? && web.fetchPage(url).value.title.Some?
    requires |Strip(web.fetchPage(url).value.title.value)| > MaxTitleLength
    ensures var s := Strip(web.fetchPage(url).value.title.value);
      GetPageTitle(url, web) == Some(s[..197] + "...")
  {
  }
}
