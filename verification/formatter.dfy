/** `_format_oembed_response`: the one-line IRC reply built from an oEmbed
    payload. `html.unescape` is a parameter. */
module Formatter {
  import opened Wrappers
  import opened PyStr
  import opened Documents
  import opened Content

  /** The text part: entities decoded, whitespace runs collapsed. */
  function TextPart(text: string, unescape: string -> string): (p: string)
    ensures WellSpaced(p)
    ensures Split(p) == Split(unescape(text))
  {
    Normalize(unescape(text))
  }

  /** The one-element list `[part]` when `present`, else the empty list. */
  function PartIf(present: bool, part: string): (ps: seq<string>)
    ensures |ps| == (if present then 1 else 0)
    ensures present ==> ps[0] == part
  {
    if present then [part] else []
  }

  /** The reply parts in their fixed order: the post text when the extracted
      text is non-empty, `-- author` when there is an author, and
      `(timestamp)` when there is a timestamp. */
  function Parts(c: Extracted, data: Payload, unescape: string -> string): (parts: seq<string>)
    requires data.JsonObject?
    ensures parts == [] <==> c.text == "" && !HasAuthor(data) && c.timestamp == ""
  {
    PartIf(c.text != "", TextPart(c.text, unescape))
    + PartIf(HasAuthor(data), "-- " + data.authorName.GetOr(""))
    + PartIf(c.timestamp != "", "(" + c.timestamp + ")")
  }

  /** The reply written out case by case: the present parts, in order, each
      separated from the next by one space. */
  function Layout(hasT: bool, t: string, hasA: bool, a: string, hasS: bool, s: string): string {
    if hasT then
      if hasA then (if hasS then t + " " + a + " " + s else t + " " + a)
      else (if hasS then t + " " + s else t)
    else
      if hasA then (if hasS then a + " " + s else a)
      else (if hasS then s else "")
  }

  /** Joining the present parts with single spaces gives the case-by-case
      layout. */
  lemma JoinLayout(hasT: bool, t: string, hasA: bool, a: string, hasS: bool, s: string)
    ensures Join(PartIf(hasT, t) + PartIf(hasA, a) + PartIf(hasS, s), " ") == Layout(hasT, t, hasA, a, hasS, s)
  {
    var ps := PartIf(hasT, t) + PartIf(hasA, a) + PartIf(hasS, s);
    if |ps| == 3 {
      assert ps == [t, a, s];
      assert ps[1..] == [a, s];
      assert ps[1..][1..] == [s];
      assert Join(ps[1..][1..], " ") == s;
      assert Join(ps[1..], " ") == a + " " + s;
    } else if |ps| == 2 {
      assert ps[1..] == [ps[1]];
    }
  }

  /** `_format_oembed_response`. A falsy payload gives `None`; so does a
      payload that is not an object (reading a member raises and the error is
      caught), a fragment the extractor gives up on, and a reply with no
      parts. */
  function FormatOEmbedResponse(data: Payload, unescape: string -> string): (r: Option<string>)
    ensures !Truthy(data) || data.NonObject? ==> r.None?
    ensures data.JsonObject? && ParseHtmlContent(HtmlOf(data)).None? ==> r.None?
    ensures r.Some? <==>
      && Truthy(data) && data.JsonObject?
      && ParseHtmlContent(HtmlOf(data)).Some?
      && (|| ParseHtmlContent(HtmlOf(data)).value.text != ""
          || HasAuthor(data)
          || ParseHtmlContent(HtmlOf(data)).value.timestamp != "")
  {
    if !Truthy(data) then None
    else match data
      case NonObject(_) => None
      case JsonObject(_, _, _) =>
        match ParseHtmlContent(HtmlOf(data))
        case None => None
        case Some(c) =>
          var parts := Parts(c, data, unescape);
          if parts == [] then None else Some(Join(parts, " "))
  }

  /** The reply, case by case: the present parts in the order text, author,
      timestamp, each separated from the next by one space; no reply when
      none is present. */
  lemma ReplyLayout(data: Payload, unescape: string -> string)
    requires Truthy(data) && data.JsonObject? && ParseHtmlContent(HtmlOf(data)).Some?
    ensures var c := ParseHtmlContent(HtmlOf(data)).value;
      var hasT, hasA, hasS := c.text != "", HasAuthor(data), c.timestamp != "";
      var r := FormatOEmbedResponse(data, unescape);
      && (!hasT && !hasA && !hasS ==> r == None)
      && (hasT || hasA || hasS ==>
            r == Some(Layout(hasT, TextPart(c.text, unescape), hasA, "-- " + data.authorName.GetOr(""),
                             hasS, "(" + c.timestamp + ")")))
  {
    var c := ParseHtmlContent(HtmlOf(data)).value;
    var parts := Parts(c, data, unescape);
    JoinLayout(c.text != "", TextPart(c.text, unescape),
               HasAuthor(data), "-- " + data.authorName.GetOr(""),
               c.timestamp != "", "(" + c.timestamp + ")");
    assert FormatOEmbedResponse(data, unescape) == if parts == [] then None else Some(Join(parts, " "));
  }

  /** A payload without an `html` member never yields a reply, whatever its
      author: the empty fragment has no anchor. */
  lemma NoHtmlNoReply(data: Payload, unescape: string -> string)
    requires data.JsonObject? && data.html.None?
    ensures FormatOEmbedResponse(data, unescape).None?
  {
    EmptyFragmentFails();
  }

  /** Text whose decoded form is only whitespace still makes a part: the
      reply is then empty, or starts with the space that joins it to the
      author or timestamp part. */
  lemma BlankTextKeepsSeparator(data: Payload, unescape: string -> string)
    requires Truthy(data) && data.JsonObject? && ParseHtmlContent(HtmlOf(data)).Some?
    requires ParseHtmlContent(HtmlOf(data)).value.text != ""
    requires Split(unescape(ParseHtmlContent(HtmlOf(data)).value.text)) == []
    ensures var r := FormatOEmbedResponse(data, unescape);
      r.Some? && (r.value == "" || r.value[0] == ' ')
  {
    var c := ParseHtmlContent(HtmlOf(data)).value;
    assert TextPart(c.text, unescape) == "";
    ReplyLayout(data, unescape);
    LayoutBlankText(HasAuthor(data), "-- " + data.authorName.GetOr(""), c.timestamp != "", "(" + c.timestamp + ")");
  }

  /** With an empty text part the layout is empty or starts with a space. */
  lemma LayoutBlankText(hasA: bool, a: string, hasS: bool, s: string)
    ensures var l := Layout(true, "", hasA, a, hasS, s);
      l == "" || l[0] == ' '
  {
    if hasA || hasS {
      assert Layout(true, "", hasA, a, hasS, s)[0] == ' ';
    }
  }
}
