/** The HTML node tree of src/htmlnode.py: leaf and parent nodes, their
    constructors' validity conditions, field-wise equality and rendering. */
module HtmlNode {
  import opened Wrappers
  import opened Attributes
  import Markup

  /** The exception the constructors raise. */
  datatype HtmlError = ValueError(message: string)

  /** A node keeps the fields of the Python object. A leaf has no children and a
      parent has no value; the constructors are the only way the program makes
      nodes, so `Valid` holds of every node it builds. */
  datatype Node =
    | Leaf(tag: Option<string>, value: string, props: Option<Props>)
    | Parent(tag: Option<string>, children: seq<Node>, props: Option<Props>)

  /** Python truthiness of an optional string: `None` and `""` are both false. */
  predicate Present(s: Option<string>) {
    s.Some? && s.value != ""
  }

  /** Python truthiness of an optional dict: `None` and `{}` are both false. */
  predicate HasProps(p: Option<Props>) {
    p.Some? && |p.value| > 0
  }

  /** How an f-string shows a tag field; `None` shows as `None`. */
  function TagText(tag: Option<string>): string {
    match tag
    case Some(t) => t
    case None => "None"
  }

  // ---------------------------------------------------------------------------
  // Construction
  // ---------------------------------------------------------------------------

  /** The condition a constructor checks before it builds a node. */
  predicate Valid(n: Node) {
    match n
    case Leaf(_, value, _) => value != ""
    case Parent(tag, children, _) => Present(tag) && |children| > 0
  }

  /** A node and all of its descendants are valid. */
  predicate WellFormed(n: Node)
    decreases n
  {
    match n
    case Leaf(_, _, _) => Valid(n)
    case Parent(_, children, _) =>
      Valid(n) && forall i :: 0 <= i < |children| ==> WellFormed(children[i])
  }

  /** `LeafNode(value, tag=None, props=None)`: raises unless the value is a
      non-empty string. */
  function MakeLeaf(value: Option<string>, tag: Option<string> := None, props: Option<Props> := None)
    : (r: Result<Node, HtmlError>)
    ensures r.Success? <==> Present(value)
    ensures r.Success? ==> Valid(r.value) && r.value.Leaf?
    ensures r.Success? ==> r.value.tag == tag && r.value.value == value.value && r.value.props == props
    ensures r.Failure? ==> r.error == ValueError("value is required")
  {
    if !Present(value) then Failure(ValueError("value is required"))
    else Success(Leaf(tag, value.value, props))
  }

  /** `ParentNode(tag, children, props=None)`: raises unless the tag is a
      non-empty string and the children a non-empty list. */
  function MakeParent(tag: Option<string>, children: Option<seq<Node>>, props: Option<Props> := None)
    : (r: Result<Node, HtmlError>)
    ensures r.Success? <==> Present(tag) && children.Some? && |children.value| > 0
    ensures r.Success? ==> Valid(r.value) && r.value.Parent?
    ensures r.Success? ==> r.value.tag == tag && r.value.children == children.value && r.value.props == props
    ensures r.Failure? ==> r.error == ValueError("tag and children are required")
  {
    if !Present(tag) || children.None? || |children.value| == 0 then
      Failure(ValueError("tag and children are required"))
    else Success(Parent(tag, children.value, props))
  }

  /** Every valid node is what its constructor builds from its own fields, so
      the constructors reach exactly the valid nodes. */
  lemma ConstructorsReachValidNodes(n: Node)
    ensures n.Leaf? ==> (Valid(n) <==> MakeLeaf(Some(n.value), n.tag, n.props) == Success(n))
    ensures n.Parent? ==> (Valid(n) <==> MakeParent(n.tag, Some(n.children), n.props) == Success(n))
  {
  }

  /** A parent built over well-formed children is well-formed. */
  lemma MakeParentWellFormed(tag: Option<string>, children: seq<Node>, props: Option<Props>)
    requires forall i :: 0 <= i < |children| ==> WellFormed(children[i])
    ensures MakeParent(tag, Some(children), props).Success? ==>
      WellFormed(MakeParent(tag, Some(children), props).value)
  {
  }

  // ---------------------------------------------------------------------------
  // Rendering
  // ---------------------------------------------------------------------------

  /** `to_html` of a leaf or a parent. */
  function Render(n: Node): string
    decreases n, 1
  {
    match n
    case Leaf(tag, value, props) =>
      if !Present(tag) then value
      else if !HasProps(props) then "<" + tag.value + ">" + value + "</" + tag.value + ">"
      else "<" + tag.value + " " + PropsToHtml(props.value) + ">" + value + "</" + tag.value + ">"
    case Parent(tag, children, _) =>
      "<" + TagText(tag) + ">" + RenderAll(children) + "</" + TagText(tag) + ">"
  }

  /** The renderings of `nodes` concatenated in order (`"".join(...)`). */
  function RenderAll(nodes: seq<Node>): string
    decreases nodes, 0
  {
    if |nodes| == 0 then "" else Render(nodes[0]) + RenderAll(nodes[1..])
  }

  /** The children's renderings appear in the children's order: rendering a
      concatenated list renders each part in turn. */
  lemma {:induction false} RenderAllAppend(a: seq<Node>, b: seq<Node>)
    ensures RenderAll(a + b) == RenderAll(a) + RenderAll(b)
    decreases |a|
  {
    if |a| == 0 {
      assert a + b == b;
    } else {
      assert (a + b)[1..] == a[1..] + b;
      RenderAllAppend(a[1..], b);
    }
  }

  /** A parent renders as its children's renderings between `<tag>` and
      `</tag>`. */
  lemma ParentRendering(tag: string, children: seq<Node>, props: Option<Props>)
    ensures Render(Parent(Some(tag), children, props)) == "<" + tag + ">" + RenderAll(children) + "</" + tag + ">"
  {
  }

  /** Each child's rendering stands between its predecessors' and its
      successors' renderings. */
  lemma ChildRenderingInPlace(children: seq<Node>, i: nat)
    requires i < |children|
    ensures RenderAll(children) == RenderAll(children[..i]) + Render(children[i]) + RenderAll(children[i + 1..])
  {
    var before, rest := children[..i], children[i..];
    assert before + rest == children;
    RenderAllAppend(before, rest);
    assert rest[0] == children[i];
    assert rest[1..] == children[i + 1..];
    assert RenderAll(rest) == Render(rest[0]) + RenderAll(rest[1..]);
  }

  /** A parent's attributes never reach its rendering. */
  lemma ParentIgnoresProps(tag: Option<string>, children: seq<Node>, p: Option<Props>, q: Option<Props>)
    ensures Render(Parent(tag, children, p)) == Render(Parent(tag, children, q))
  {
  }

  /** A leaf without a tag (`None` or `""`) renders as its bare value,
      whatever its attributes. */
  lemma UntaggedLeafIsBareValue(tag: Option<string>, value: string, props: Option<Props>)
    requires !Present(tag)
    ensures Render(Leaf(tag, value, props)) == value
  {
  }

  /** A tagged leaf renders as its value between an opening and a closing
      tag; the attributes follow the tag name after one space, and with no
      attributes nothing stands between the tag name and `>`. */
  lemma TaggedLeafRendering(tag: string, value: string, props: Option<Props>)
    requires tag != ""
    ensures HasProps(props) ==>
      Render(Leaf(Some(tag), value, props)) == "<" + tag + " " + PropsToHtml(props.value) + ">" + value + "</" + tag + ">"
    ensures !HasProps(props) ==>
      Render(Leaf(Some(tag), value, props)) == "<" + tag + ">" + value + "</" + tag + ">"
  {
  }

  /** `None` and an empty dict render alike: neither adds an attribute
      section nor a space. */
  lemma NoPropsRenderAlike(tag: Option<string>, value: string)
    ensures Render(Leaf(tag, value, None)) == Render(Leaf(tag, value, Some([])))
    ensures Present(tag) ==> Render(Leaf(tag, value, None)) == "<" + tag.value + ">" + value + "</" + tag.value + ">"
  {
  }

  // ---------------------------------------------------------------------------
  // Rendering shows exactly the leaves' text
  // ---------------------------------------------------------------------------

  /** The text a node displays: its leaves' values in document order. */
  function TextContent(n: Node): string
    decreases n, 1
  {
    match n
    case Leaf(_, value, _) => value
    case Parent(_, children, _) => TextContentAll(children)
  }

  function TextContentAll(nodes: seq<Node>): string
    decreases nodes, 0
  {
    if |nodes| == 0 then "" else TextContent(nodes[0]) + TextContentAll(nodes[1..])
  }

  /** No attribute key or value holds a `>`. */
  predicate PropsClean(props: Option<Props>) {
    props.None? || forall i :: 0 <= i < |props.value| ==> '>' !in props.value[i].0 && '>' !in props.value[i].1
  }

  /** The renderer escapes nothing, so a tree renders unambiguously only when
      no tag or attribute holds `>` and no value holds `<`. */
  predicate Clean(n: Node)
    decreases n
  {
    match n
    case Leaf(tag, value, props) => '>' !in TagText(tag) && PropsClean(props) && '<' !in value
    case Parent(tag, children, _) =>
      '>' !in TagText(tag) && forall i :: 0 <= i < |children| ==> Clean(children[i])
  }

  lemma {:induction false} PropsToHtmlHasNoCloser(attrs: seq<Attribute>)
    requires forall i :: 0 <= i < |attrs| ==> '>' !in attrs[i].0 && '>' !in attrs[i].1
    ensures '>' !in PropsToHtml(attrs)
    decreases |attrs|
  {
    if |attrs| >= 2 {
      PropsToHtmlCons(attrs);
      PropsToHtmlHasNoCloser(attrs[1..]);
    }
  }

  /** A tagged element renders as `<open>` + inner + `</close>`. */
  lemma StripElement(open: string, inner: string, close: string)
    requires '>' !in open && '>' !in close && !Markup.After(inner, false)
    ensures Markup.Strip("<" + open + ">" + inner + "</" + close + ">", false) == Markup.Strip(inner, false)
    ensures !Markup.After("<" + open + ">" + inner + "</" + close + ">", false)
  {
    assert "<" + open + ">" + inner + "</" + close + ">" == "<" + open + ">" + inner + "<" + ("/" + close) + ">";
    Markup.StripBetweenTags(open, inner, "/" + close);
  }

  /** Rendering adds markup and nothing else: removing the tags from a clean
      node's rendering leaves its leaves' values, in order. */
  lemma {:induction false} RenderShowsTextContent(n: Node)
    requires Clean(n)
    ensures Markup.StripTags(Render(n)) == TextContent(n)
    ensures !Markup.After(Render(n), false)
    decreases n, 1
  {
    match n
    case Leaf(tag, value, props) =>
      Markup.StripPlain(value);
      if Present(tag) && !HasProps(props) {
        StripElement(tag.value, value, tag.value);
      } else if Present(tag) {
        PropsToHtmlHasNoCloser(props.value);
        var open := tag.value + " " + PropsToHtml(props.value);
        assert Render(n) == "<" + open + ">" + value + "</" + tag.value + ">";
        StripElement(open, value, tag.value);
      }
    case Parent(tag, children, _) =>
      RenderAllShowsTextContent(children);
      StripElement(TagText(tag), RenderAll(children), TagText(tag));
  }

  lemma {:induction false} RenderAllShowsTextContent(nodes: seq<Node>)
    requires forall i :: 0 <= i < |nodes| ==> Clean(nodes[i])
    ensures Markup.StripTags(RenderAll(nodes)) == TextContentAll(nodes)
    ensures !Markup.After(RenderAll(nodes), false)
    decreases nodes, 0
  {
    if |nodes| > 0 {
      RenderShowsTextContent(nodes[0]);
      RenderAllShowsTextContent(nodes[1..]);
      Markup.StripAppend(Render(nodes[0]), RenderAll(nodes[1..]), false);
    }
  }

  // ---------------------------------------------------------------------------
  // Equality
  // ---------------------------------------------------------------------------

  /** `==` on two props fields: `None` equals only `None`; dicts compare as
      dicts. */
  predicate PropsEq(p: Option<Props>, q: Option<Props>) {
    match (p, q)
    case (None, None) => true
    case (Some(a), Some(b)) => DictEq(a, b)
    case _ => false
  }

  /** `__eq__`: tag, value, children (a list, compared element by element
      with `__eq__`) and props all equal. A leaf's value is a string where a
      parent's is `None`, so a leaf never equals a parent. */
  predicate NodeEq(a: Node, b: Node)
    decreases a
  {
    match (a, b)
    case (Leaf(t1, v1, p1), Leaf(t2, v2, p2)) => t1 == t2 && v1 == v2 && PropsEq(p1, p2)
    case (Parent(t1, c1, p1), Parent(t2, c2, p2)) =>
      && t1 == t2
      && |c1| == |c2|
      && (forall i :: 0 <= i < |c1| ==> NodeEq(c1[i], c2[i]))
      && PropsEq(p1, p2)
    case _ => false
  }

  lemma PropsEqIsEquivalence(p: Option<Props>, q: Option<Props>, r: Option<Props>)
    ensures PropsEq(p, p)
    ensures PropsEq(p, q) ==> PropsEq(q, p)
    ensures PropsEq(p, q) && PropsEq(q, r) ==> PropsEq(p, r)
  {
    if p.Some? {
      DictEqIsSameMapping(p.value, p.value);
      if q.Some? {
        DictEqIsSameMapping(p.value, q.value);
        DictEqIsSameMapping(q.value, p.value);
        if r.Some? {
          DictEqIsSameMapping(q.value, r.value);
          DictEqIsSameMapping(p.value, r.value);
        }
      }
    }
  }

  /** Every node equals itself. */
  lemma {:induction false} NodeEqReflexive(a: Node)
    ensures NodeEq(a, a)
    decreases a
  {
    PropsEqIsEquivalence(a.props, a.props, a.props);
    if a.Parent? {
      forall i | 0 <= i < |a.children| ensures NodeEq(a.children[i], a.children[i]) {
        NodeEqReflexive(a.children[i]);
      }
    }
  }

  /** Equality is symmetric. */
  lemma {:induction false} NodeEqSymmetric(a: Node, b: Node)
    requires NodeEq(a, b)
    ensures NodeEq(b, a)
    decreases a
  {
    PropsEqIsEquivalence(a.props, b.props, b.props);
    if a.Parent? {
      forall i | 0 <= i < |b.children| ensures NodeEq(b.children[i], a.children[i]) {
        NodeEqSymmetric(a.children[i], b.children[i]);
      }
    }
  }

  /** Equality is transitive. */
  lemma {:induction false} NodeEqTransitive(a: Node, b: Node, c: Node)
    requires NodeEq(a, b) && NodeEq(b, c)
    ensures NodeEq(a, c)
    decreases a
  {
    PropsEqIsEquivalence(a.props, b.props, c.props);
    if a.Parent? {
      forall i | 0 <= i < |a.children| ensures NodeEq(a.children[i], c.children[i]) {
        NodeEqTransitive(a.children[i], b.children[i], c.children[i]);
      }
    }
  }

  /** Equal nodes display the same text. */
  lemma {:induction false} NodeEqSameText(a: Node, b: Node)
    requires NodeEq(a, b)
    ensures TextContent(a) == TextContent(b)
    decreases a, 1
  {
    if a.Parent? {
      SameTextAll(a.children, b.children);
    }
  }

  lemma {:induction false} SameTextAll(xs: seq<Node>, ys: seq<Node>)
    requires |xs| == |ys| && forall i :: 0 <= i < |xs| ==> NodeEq(xs[i], ys[i])
    ensures TextContentAll(xs) == TextContentAll(ys)
    decreases xs, 0
  {
    if |xs| > 0 {
      NodeEqSameText(xs[0], ys[0]);
      SameTextAll(xs[1..], ys[1..]);
    }
  }

  /** A leaf whose two attributes are listed in the opposite order. */
  function SwappedProps(n: Node): Node
    requires n.Leaf? && n.props.Some? && |n.props.value| == 2
  {
    var p := n.props.value;
    Leaf(n.tag, n.value, Some([p[1], p[0]]))
  }

  /** Two attribute lists that render differently give differently rendered
      tagged leaves. */
  lemma LeafRenderSeparatesProps(tag: string, value: string, p: Props, q: Props)
    requires tag != "" && |p| > 0 && |q| > 0
    requires PropsToHtml(p) != PropsToHtml(q)
    ensures Render(Leaf(Some(tag), value, Some(p))) != Render(Leaf(Some(tag), value, Some(q)))
  {
    var ra := PropsToHtml(p);
    var rb := PropsToHtml(q);
    var ta := "<" + tag + " " + ra + ">" + value + "</" + tag + ">";
    var tb := "<" + tag + " " + rb + ">" + value + "</" + tag + ">";
    if |ra| == |rb| {
      assert ta[|tag| + 2..|tag| + 2 + |ra|] == ra;
      assert tb[|tag| + 2..|tag| + 2 + |rb|] == rb;
    } else {
      assert |ta| != |tb|;
    }
  }

  /** Dict equality ignores insertion order but rendering does not: two
      nodes that are `==` render to different strings when their attributes
      were inserted in different orders. */
  lemma EqualNodesMayRenderDifferently(tag: string, value: string, first: Attribute, second: Attribute)
    requires tag != "" && first.0 != second.0
    requires Readable([first, second])
    ensures var n := Leaf(Some(tag), value, Some([first, second]));
            NodeEq(n, SwappedProps(n)) && Render(n) != Render(SwappedProps(n))
  {
    var p: Props := [first, second];
    var q: Props := [second, first];
    DictEqIgnoresOrder(p, q);
    PropsToHtmlCons(p);
    PropsToHtmlCons(q);
    PropsToHtmlRoundTrip(p);
    PropsToHtmlRoundTrip(q);
    assert p[0] != q[0];
    LeafRenderSeparatesProps(tag, value, p, q);
  }
}
