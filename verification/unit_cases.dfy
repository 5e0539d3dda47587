/** The concrete cases of src/test_hmtlnode.py and src/test_textnode.py that
    concern the modelled code, stated over the model. */
module UnitCases {
  import opened Wrappers
  import opened Attributes
  import opened HtmlNode
  import opened TextNodes

  /** Two attributes render in insertion order, separated by one space. */
  lemma PropsToHtmlCase()
    ensures PropsToHtml([("href", "https://www.google.com"), ("target", "_blank")])
      == "href=\"https://www.google.com\" target=\"_blank\""
  {
    var p := [("href", "https://www.google.com"), ("target", "_blank")];
    PropsToHtmlCons(p);
    assert p[1..] == [("target", "_blank")];
    SpellHref();
    SpellTwoAttributes();
  }

  // Joins the string literals of one expected output; used by the case above.
  lemma SpellHref()
    ensures Format(("href", "https://www.google.com")) == "href=\"https://www.google.com\""
  {
  }

  // Joins the string literals of one expected output; used by the case above.
  lemma SpellTwoAttributes()
    ensures "href=\"https://www.google.com\"" + " " + "target=\"_blank\""
      == "href=\"https://www.google.com\" target=\"_blank\""
  {
  }

  /** Equal fields make equal nodes; a different value and missing props make
      unequal ones. */
  lemma NodeEqualityCases()
    ensures NodeEq(Leaf(Some("p"), "pharagraph", None), Leaf(Some("p"), "pharagraph", None))
    ensures !NodeEq(Leaf(Some("a"), "link", Some([("href", "https://www.google.com")])),
                    Leaf(Some("a"), "new link", None))
  {
  }

  /** A leaf without a value raises. */
  lemma LeafConstructionFailureCase()
    ensures MakeLeaf(None, Some("a"), Some([("href", "https://www.google.com")])).Failure?
  {
  }

  /** A parent without children, or without a tag, raises. */
  lemma ParentConstructionFailureCases()
    ensures MakeParent(Some("a"), None).Failure?
    ensures MakeParent(None, Some([Leaf(Some("b"), "Bold text", None)])).Failure?
  {
  }

  /** A tagged leaf without attributes. */
  lemma LeafRenderCase()
    ensures Render(MakeLeaf(Some("Click me!"), Some("p")).value) == "<p>Click me!</p>"
  {
    SpellParagraph();
  }

  /** A parent over a tagged and an untagged leaf. */
  lemma ParentRenderCase()
    ensures Render(MakeParent(Some("p"), Some([Leaf(Some("b"), "Bold text", None), Leaf(None, "Normal text", None)])).value)
      == "<p><b>Bold text</b>Normal text</p>"
  {
    var bold := Leaf(Some("b"), "Bold text", None);
    var plain := Leaf(None, "Normal text", None);
    assert [bold, plain][1..] == [plain];
    SpellBold();
    SpellParent();
  }

  // Joins the string literals of one expected output; used by the case above.
  lemma SpellParagraph()
    ensures "<" + "p" + ">" + "Click me!" + "</" + "p" + ">" == "<p>Click me!</p>"
  {
  }

  // Joins the string literals of one expected output; used by the case above.
  lemma SpellBold()
    ensures "<" + "b" + ">" + "Bold text" + "</" + "b" + ">" == "<b>Bold text</b>"
  {
  }

  // Joins the string literals of one expected output; used by the case above.
  lemma SpellParent()
    ensures "<" + "p" + ">" + ("<b>Bold text</b>" + ("Normal text" + "")) + "</" + "p" + ">"
      == "<p><b>Bold text</b>Normal text</p>"
  {
  }

  /** Leaves with one and with two attributes. */
  lemma AttributeRenderCases()
    ensures Render(Leaf(Some("a"), "Click me!", Some([("href", "https://www.google.com")])))
      == "<a href=\"https://www.google.com\">Click me!</a>"
    ensures Render(Leaf(Some("a"), "Click me!", Some([("href", "https://www.google.com"), ("target", "_blank")])))
      == "<a href=\"https://www.google.com\" target=\"_blank\">Click me!</a>"
  {
    var one: Props := [("href", "https://www.google.com")];
    var two: Props := [("href", "https://www.google.com"), ("target", "_blank")];
    TaggedLeafRendering("a", "Click me!", Some(one));
    TaggedLeafRendering("a", "Click me!", Some(two));
    SpellHref();
    PropsToHtmlCase();
    SpellLink("href=\"https://www.google.com\"");
    SpellLink("href=\"https://www.google.com\" target=\"_blank\"");
    SpellOneLinkLiteral();
    SpellTwoLinkLiteral();
  }

  // Joins the string literals of one expected output; used by the case above.
  lemma SpellOneLinkLiteral()
    ensures "<a " + "href=\"https://www.google.com\"" + ">Click me!</a>"
      == "<a href=\"https://www.google.com\">Click me!</a>"
  {
  }

  // Joins the string literals of one expected output; used by the case above.
  lemma SpellTwoLinkLiteral()
    ensures "<a " + "href=\"https://www.google.com\" target=\"_blank\"" + ">Click me!</a>"
      == "<a href=\"https://www.google.com\" target=\"_blank\">Click me!</a>"
  {
    SpellTargetHead();
    SpellTargetAttribute();
    SpellTargetOutput();
    SpellTargetTail();
    var h, t, c := "href=\"https://www.google.com\"", " target=\"_blank\"", ">Click me!</a>";
    assert "<a " + (h + t) + c == ("<a " + h) + (t + c);
  }

  // Joins the start of the two-attribute output; used above.
  lemma SpellTargetHead()
    ensures "<a " + "href=\"https://www.google.com\"" == "<a href=\"https://www.google.com\""
  {
  }

  // Splits the two-attribute section at the second attribute; used above.
  lemma SpellTargetAttribute()
    ensures "href=\"https://www.google.com\" target=\"_blank\""
      == "href=\"https://www.google.com\"" + " target=\"_blank\""
  {
  }

  // Splits the two-attribute output at the second attribute; used above.
  lemma SpellTargetOutput()
    ensures "<a href=\"https://www.google.com\" target=\"_blank\">Click me!</a>"
      == "<a href=\"https://www.google.com\"" + " target=\"_blank\">Click me!</a>"
  {
  }

  // Splits the end of the two-attribute output; used above.
  lemma SpellTargetTail()
    ensures " target=\"_blank\">Click me!</a>" == " target=\"_blank\"" + ">Click me!</a>"
  {
  }

  // Joins the string literals of one expected output; used by the case above.
  lemma SpellLink(attrs: string)
    ensures "<" + "a" + " " + attrs + ">" + "Click me!" + "</" + "a" + ">" == "<a " + attrs + ">Click me!</a>"
  {
  }

  /** Text nodes compare by text, kind and URL. */
  lemma TextNodeEqualityCases()
    ensures Equals(TextNode("This is a text node", Bold), TextNode("This is a text node", Bold))
    ensures !Equals(TextNode("This is a text node", Bold), TextNode("This is a different node", Bold))
  {
  }

  /** The mapping returns leaves; the link's `href` and the image's `src` and
      `alt` are the fixed placeholders. */
  lemma MappingCases()
    ensures TextNodeToHtmlNode(Text).value.Leaf?
    ensures Get(TextNodeToHtmlNode(Link).value.props.value, "href") == Some("https://www.google.com")
    ensures Get(TextNodeToHtmlNode(Image).value.props.value, "src") == Some("url/image")
    ensures Get(TextNodeToHtmlNode(Image).value.props.value, "alt") == Some("brief description")
  {
  }
}
