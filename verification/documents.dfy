/** What the plugin reads out of parsed HTML and decoded JSON. The parser and
    the JSON decoder themselves are not modelled: a parsed document is given
    by exactly the parts the plugin looks at. */
module Documents {
  import opened Wrappers

  /** An `<a>` element: its `href` attribute, when it has one. */
  datatype Anchor = Anchor(href: Option<string>)

  /** A parsed oEmbed `html` fragment: the text of its first `<p>` element (if
      any) and all of its `<a>` elements in document order. */
  datatype Fragment = Fragment(firstParagraph: Option<string>, anchors: seq<Anchor>)

  /** What an empty string parses to: no paragraph and no anchors. */
  const EmptyFragment: Fragment := Fragment(None, [])

  /** A `<link>` element of a web page: its `type` and `href` attributes. */
  datatype Link = Link(mediaType: Option<string>, href: Option<string>)

  /** A fetched web page: its `<link>` elements in document order and the
      single string inside its `<title>` (absent when there is no title
      element or it does not hold exactly one string). */
  datatype Page = Page(links: seq<Link>, title: Option<string>)

  /** A decoded oEmbed response. An object is described by its `html` member
      (already parsed), its `author_name` member and whether it has any other
      member; any other JSON value only by its truthiness. */
  datatype Payload =
    | JsonObject(html: Option<Fragment>, authorName: Option<string>, otherKeys: bool)
    | NonObject(truthy: bool)

  /** Python truthiness of the decoded value: the empty object `{}` is the
      only false object. */
  function Truthy(data: Payload): (b: bool)
    ensures data.JsonObject? ==> (b <==> data != JsonObject(None, None, false))
  {
    match data
    case JsonObject(html, author, other) => html.Some? || author.Some? || other
    case NonObject(t) => t
  }

  /** `data.get('html', '')` parsed: a missing member reads as the empty
      string, which parses to the empty fragment. */
  function HtmlOf(data: Payload): (f: Fragment)
    requires data.JsonObject?
    ensures data.html.None? ==> f == EmptyFragment && f.anchors == [] && f.firstParagraph.None?
    ensures data.html.Some? ==> f == data.html.value
  {
    data.html.GetOr(EmptyFragment)
  }

  /** `data.get('author_name')` is truthy: present and non-empty. */
  function HasAuthor(data: Payload): (b: bool)
    ensures b <==> data.JsonObject? && data.authorName.GetOr("") != ""
  {
    data.JsonObject? && data.authorName.Some? && data.authorName.value != ""
  }
}
