/** The inline-span value type of src/textnode.py and its mapping from span
    kind to an HTML leaf. */
module TextNodes {
  import opened Wrappers
  import opened Attributes
  import opened HtmlNode

  /** The six span kinds of the `TextType` enum. */
  datatype TextType = Text | Bold | Italic | Code | Link | Image

  /** The value each enum member carries (`TextType.TEXT.value == "normal"`). */
  function EnumValue(t: TextType): string
  {
    match t
    case Text => "normal"
    case Bold => "bold"
    case Italic => "italic"
    case Code => "code"
    case Link => "link"
    case Image => "image"
  }

  /** Enum lookup by value (`TextType("bold")`); `None` where Python raises. */
  function FromValue(s: string): (r: Option<TextType>)
    ensures r.Some? <==> exists t :: EnumValue(t) == s
    ensures r.Some? ==> EnumValue(r.value) == s
  {
    if s == EnumValue(Text) then Some(Text)
    else if s == EnumValue(Bold) then Some(Bold)
    else if s == EnumValue(Italic) then Some(Italic)
    else if s == EnumValue(Code) then Some(Code)
    else if s == EnumValue(Link) then Some(Link)
    else if s == EnumValue(Image) then Some(Image)
    else None
  }

  /** The six values are distinct, so no member is an alias of another and
      lookup by value recovers the member. */
  lemma EnumValuesDistinct(s: TextType, t: TextType)
    ensures EnumValue(s) == EnumValue(t) ==> s == t
    ensures FromValue(EnumValue(t)) == Some(t)
  {
  }

  /** A span of text with its kind and, for links and images, a URL. */
  datatype TextNode = TextNode(text: string, textType: TextType, url: Option<string> := None)

  /** `__eq__`: text, kind and URL all equal. */
  function Equals(a: TextNode, b: TextNode): (r: bool)
    ensures r <==> a == b
  {
    a.text == b.text && a.textType == b.textType && a.url == b.url
  }

  /** `text_node_to_html_node`: a placeholder leaf for each span kind, built
      with `LeafNode(...)`, which never raises here. */
  function TextNodeToHtmlNode(t: TextType): (r: Result<Node, HtmlError>)
    ensures r.Success? && r.value.Leaf? && WellFormed(r.value)
    ensures Present(r.value.tag) <==> t != Text
    ensures HasProps(r.value.props) <==> t == Link || t == Image
  {
    match t
    case Text => MakeLeaf(Some("testing"))
    case Bold => MakeLeaf(Some("testing"), tag := Some("b"))
    case Italic => MakeLeaf(Some("testing"), tag := Some("i"))
    case Code => MakeLeaf(Some("testing"), tag := Some("code"))
    case Link => MakeLeaf(Some("testing"), tag := Some("a"), props := Some([("href", "https://www.google.com")]))
    case Image =>
      MakeLeaf(Some(" "), tag := Some("img"), props := Some([("src", "url/image"), ("alt", "brief description")]))
  }

  /** The HTML element each span kind maps to; plain text has none. */
  function ElementOf(t: TextType): Option<string>
  {
    match t
    case Text => None
    case Bold => Some("b")
    case Italic => Some("i")
    case Code => Some("code")
    case Link => Some("a")
    case Image => Some("img")
  }

  /** The mapping picks the element of `ElementOf`, and distinct kinds give
      distinct elements, so the leaf's tag determines the span kind. */
  lemma MappingTags(s: TextType, t: TextType)
    ensures TextNodeToHtmlNode(t).value.tag == ElementOf(t)
    ensures s != t ==> TextNodeToHtmlNode(s).value.tag != TextNodeToHtmlNode(t).value.tag
  {
  }

  /** The attributes the leaves carry: a link's `href`, an image's `src` and
      `alt` in that order; every other kind has none. */
  lemma MappingAttributes(t: TextType)
    ensures t == Link ==> TextNodeToHtmlNode(t).value.props == Some([("href", "https://www.google.com")])
    ensures t == Image ==>
      TextNodeToHtmlNode(t).value.props == Some([("src", "url/image"), ("alt", "brief description")])
    ensures t != Link && t != Image ==> TextNodeToHtmlNode(t).value.props == None
    ensures TextNodeToHtmlNode(t).value.value == (if t == Image then " " else "testing")
  {
  }

  /** What the leaves without attributes render to. */
  lemma MappingRenderings()
    ensures Render(TextNodeToHtmlNode(Text).value) == "testing"
    ensures Render(TextNodeToHtmlNode(Bold).value) == "<b>testing</b>"
    ensures Render(TextNodeToHtmlNode(Italic).value) == "<i>testing</i>"
    ensures Render(TextNodeToHtmlNode(Code).value) == "<code>testing</code>"
  {
  }

  /** The attribute sections of the link and image leaves. */
  lemma MappingAttributeText()
    ensures PropsToHtml(TextNodeToHtmlNode(Link).value.props.value) == "href=\"https://www.google.com\""
    ensures PropsToHtml(TextNodeToHtmlNode(Image).value.props.value) == "src=\"url/image\" alt=\"brief description\""
  {
    var image := TextNodeToHtmlNode(Image).value.props.value;
    PropsToHtmlCons(image);
  }

  /** What the link leaf renders to. */
  lemma LinkRendering()
    ensures Render(TextNodeToHtmlNode(Link).value) == "<a " + "href=\"https://www.google.com\"" + ">testing</a>"
  {
    MappingAttributeText();
  }

  /** What the image leaf renders to: its attributes in insertion order and a
      single space as its value. */
  lemma ImageRendering()
    ensures Render(TextNodeToHtmlNode(Image).value) == "<img " + "src=\"url/image\" alt=\"brief description\"" + "> </img>"
  {
    MappingAttributeText();
  }
}
