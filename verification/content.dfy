/** `_parse_html_content`: the post text and the display timestamp pulled out
    of an oEmbed `html` fragment. */
module Content {
  import opened Wrappers
  import opened PyStr
  import opened Timestamps
  import opened Documents

  /** The two values the extractor returns: `text` and `timestamp`. */
  datatype Extracted = Extracted(text: string, timestamp: string)

  /** The href of the last anchor, or `None` when indexing `[-1]` on an empty
      anchor list or reading a missing `href` would raise. */
  function LastHref(f: Fragment): (h: Option<string>)
    ensures h.None? <==> f.anchors == [] || f.anchors[|f.anchors| - 1].href.None?
    ensures h.Some? ==> h == f.anchors[|f.anchors| - 1].href
  {
    if f.anchors == [] then None else f.anchors[|f.anchors| - 1].href
  }

  /** The text of the first paragraph with surrounding whitespace removed, or
      the empty string when there is no paragraph. */
  function PostText(f: Fragment): (t: string)
    ensures NoEdgeSpace(t)
    ensures f.firstParagraph.None? ==> t == ""
    ensures f.firstParagraph.Some? ==> t == Strip(f.firstParagraph.value)
  {
    match f.firstParagraph
    case Some(p) => Strip(p)
    case None => ""
  }

  /** The display form of the leftmost timestamp in `href`, or the empty
      string when the pattern does not occur. */
  function TimestampOf(href: string): (ts: string)
    ensures ts != "" <==> exists p :: TimestampAt(href, p)
    ensures ts == "" || IsDisplayText(ts) || IsTimestampText(ts)
  {
    match SearchTimestamp(href)
    case Some(m) => ParseTimestamp(m)
    case None => ""
  }

  /** `_parse_html_content`. The caught `IndexError` (no anchor) and
      `KeyError` (last anchor without `href`) both give `None`. */
  function ParseHtmlContent(f: Fragment): (r: Option<Extracted>)
    ensures r.None? <==> f.anchors == [] || f.anchors[|f.anchors| - 1].href.None?
    ensures r.Some? ==> NoEdgeSpace(r.value.text) && r.value.text == PostText(f)
    ensures r.Some? ==> r.value.timestamp == TimestampOf(LastHref(f).value)
    ensures r.Some? && f.firstParagraph.None? ==> r.value.text == ""
    ensures r.Some? ==> (r.value.timestamp != "" <==> exists p :: TimestampAt(LastHref(f).value, p))
  {
    match LastHref(f)
    case None => None
    case Some(h) => Some(Extracted(PostText(f), TimestampOf(h)))
  }

  /** The timestamp is the reformatted leftmost match of the pattern in the
      last anchor's href: there is a first match position, no match starts
      before it, and the timestamp is `_parse_timestamp` of the 24 characters
      there. */
  lemma TimestampIsLeftmostMatch(f: Fragment)
    requires ParseHtmlContent(f).Some? && ParseHtmlContent(f).value.timestamp != ""
    ensures var h := LastHref(f).value;
      exists p: nat :: && TimestampAt(h, p)
                  && (forall q: nat :: q < p ==> !TimestampAt(h, q))
                  && ParseHtmlContent(f).value.timestamp == ParseTimestamp(h[p..p + 24])
  {
    var h := LastHref(f).value;
    SearchIsLeftmost(h);
    var p: nat :| && TimestampAt(h, p)
                  && (forall q: nat :: q < p ==> !TimestampAt(h, q))
                  && SearchTimestamp(h).value == h[p..p + 24];
    assert ParseHtmlContent(f).value.timestamp == ParseTimestamp(h[p..p + 24]);
  }

  /** Only the first paragraph and the last anchor matter: anchors before the
      last one, however many and whatever their hrefs, change nothing. */
  lemma OnlyLastAnchorMatters(f: Fragment, earlier: seq<Anchor>)
    ensures f.anchors != [] ==>
      ParseHtmlContent(Fragment(f.firstParagraph, earlier + f.anchors)) == ParseHtmlContent(f)
  {
    if f.anchors != [] {
      var g := earlier + f.anchors;
      assert g[|g| - 1] == f.anchors[|f.anchors| - 1];
    }
  }

  /** Adding a last anchor without an `href` makes the whole extraction fail,
      whatever came before. */
  lemma LastAnchorWithoutHrefFails(f: Fragment)
    ensures ParseHtmlContent(Fragment(f.firstParagraph, f.anchors + [Anchor(None)])).None?
  {
  }

  /** The empty fragment (a payload without `html`) yields nothing. */
  lemma EmptyFragmentFails()
    ensures ParseHtmlContent(EmptyFragment).None?
  {
  }
}
