# HTML node tree and inline-span mapping of a static site generator

This project models, in Dafny, the two algorithmic files of a small Markdown-to-HTML
static site generator:

- `src/htmlnode.py`: the HTML node tree. A *leaf* holds an optional tag, a
  required non-empty value and an attribute dictionary (`props`). A *parent*
  holds a required tag, a required non-empty list of children and an attribute
  dictionary. The file covers the constructors' checks (they raise `ValueError`),
  field-wise equality (`__eq__`), attribute rendering (`props_to_html`) and
  rendering to an HTML string (`to_html`).
- `src/textnode.py`: the six-valued `TextType` enum, the `TextNode` value object
  with structural equality, and `text_node_to_html_node`, which maps a span kind
  to a placeholder leaf.

Modules:

- `Wrappers` (wrappers.dfy): `Option` for Python's `None`-or-value arguments,
  `Result` for a constructor that returns or raises.
- `Attributes` (attributes.dfy): an attribute dictionary as a list of
  `(key, value)` pairs with distinct keys in insertion order. It defines
  `props_to_html`, a reader that parses a rendering back, `dict.get`, and
  Python's dict equality.
- `Markup` (markup.dfy): the text left in a string once every `<...>` tag is
  removed. It is used to state what rendering shows.
- `HtmlNode` (htmlnode.dfy): `Node = Leaf | Parent`, the constructors `MakeLeaf`
  and `MakeParent` returning `Result`, the `Valid` / `WellFormed` predicates
  their checks establish, `Render`, `NodeEq` and the lemmas about them.
- `TextNodes` (textnode.dfy): `TextType`, `TextNode`, `Equals`,
  `TextNodeToHtmlNode`.
- `UnitCases` (unit_cases.dfy): the concrete expectations of the two test files
  that concern this code, stated over the model.

Modelling choices:

- Tags and values use Python truthiness. A tag of `None` or `""` counts as
  absent when rendering and in the constructors' checks. The two stay distinct
  for `__eq__`, as in Python. The same holds for `props` of `None` and `{}`.
- A parent's tag is an `Option<string>` as in Python. An f-string shows `None`
  as `None`, and `Render` does the same. No constructed parent has such a tag.
- Equality compares `props` the way Python compares dicts: same size, and
  every item of one is stored in the other. `DictEqIsSameMapping` proves this
  equals key-by-key equality. So equality ignores insertion order, while
  rendering does not (`EqualNodesMayRenderDifferently`).
- The renderer escapes nothing. `RenderShowsTextContent` therefore holds only
  for trees with no `>` in tags or attributes and no `<` in values.
- `text_node_to_html_node` takes a `TextType`, because its `match` compares
  the argument with enum members. It returns fixed placeholder leaves: the
  value `" "` for IMAGE and `"testing"` for every other kind, a fixed `href`
  for LINK, and fixed `src` and `alt` for IMAGE. The function receives no
  span, so no leaf carries a span's text or URL.

## Model

| member | source | states |
|---|---|---|
| Attributes.PropsToHtml | src/htmlnode.py:11-12 | The attribute section is empty exactly when there are no attributes; one attribute renders as `key="value"`. |
| Attributes.PropsToHtmlCons | src/htmlnode.py:11-12 | The first item is rendered first, followed by one space and the rendering of the rest. |
| Attributes.PropsToHtmlAppend | src/htmlnode.py:11-12 | Rendering two non-empty lists in sequence joins their renderings with exactly one space. |
| Attributes.PropsToHtmlRoundTrip | src/htmlnode.py:11-12 | Any list whose keys hold no `=` and whose values hold no `"` is parsed back from its rendering, so the rendering keeps every item, in order. |
| Attributes.Get | src/test_textnode.py:124-129 | `props.get(key)` finds a value exactly when the key is present, and the found `(key, value)` pair is one of the items. |
| Attributes.DictEq | src/htmlnode.py:19 | Python's dict `==` on the props fields: no contract of its own. `DictEqIsSameMapping` and `DictEqIgnoresOrder` describe it. |
| Attributes.DictEqIsSameMapping | src/htmlnode.py:19 | Python's dict comparison (equal size, every item found in the other) holds exactly when every key looks up the same in both. |
| Attributes.DictEqIgnoresOrder | src/htmlnode.py:19 | Two dictionaries holding the same items in different orders compare equal. |
| HtmlNode.MakeLeaf | src/htmlnode.py:24-27 | `LeafNode` succeeds exactly when the value is a non-empty string; the result is a valid leaf with the given tag, value and props; otherwise it raises `ValueError("value is required")`. |
| HtmlNode.MakeParent | src/htmlnode.py:39-42 | `ParentNode` succeeds exactly when the tag is a non-empty string and the children a non-empty list; otherwise it raises `ValueError("tag and children are required")`. |
| HtmlNode.ConstructorsReachValidNodes | src/htmlnode.py:23-42 | A leaf or parent is valid exactly when its constructor, given its own fields, rebuilds it. |
| HtmlNode.MakeParentWellFormed | src/htmlnode.py:38-42 | A parent built over well-formed children is well-formed throughout. |
| HtmlNode.Render | src/htmlnode.py:29-46 | `to_html` of a leaf or a parent: no contract of its own. Its output is stated by `UntaggedLeafIsBareValue`, `TaggedLeafRendering`, `NoPropsRenderAlike`, `ParentRendering`, `ParentIgnoresProps` and `RenderShowsTextContent`. |
| HtmlNode.RenderAll | src/htmlnode.py:45 | The `"".join` over the children's renderings: no contract of its own. `RenderAllAppend` and `ChildRenderingInPlace` describe it. |
| HtmlNode.UntaggedLeafIsBareValue | src/htmlnode.py:30-31 | A leaf whose tag is `None` or `""` renders as its value alone, whatever its props. |
| HtmlNode.TaggedLeafRendering | src/htmlnode.py:33-36 | A tagged leaf renders as `<tag>value</tag>` without props, and as `<tag` + one space + the attribute section + `>value</tag>` with props. |
| HtmlNode.NoPropsRenderAlike | src/htmlnode.py:33-34 | Props of `None` and `{}` render alike, with no space before `>`. |
| HtmlNode.ParentRendering | src/htmlnode.py:44-46 | A parent renders as `<tag>`, its children's renderings, then `</tag>`. |
| HtmlNode.ParentIgnoresProps | src/htmlnode.py:44-46 | A parent's props never affect its rendering. |
| HtmlNode.RenderAllAppend | src/htmlnode.py:45 | Rendering a concatenated child list renders the first part, then the second. |
| HtmlNode.ChildRenderingInPlace | src/htmlnode.py:45 | Each child's rendering stands between its predecessors' and its successors' renderings. |
| HtmlNode.RenderShowsTextContent | src/htmlnode.py:29-46 | With no `>` in tags or props and no `<` in values, removing the tags from a rendering leaves the leaves' values in document order, and no tag is left open. |
| HtmlNode.PropsEq | src/htmlnode.py:19 | `==` on two props fields (`None` equals only `None`, dicts compare as dicts): no contract of its own. `PropsEqIsEquivalence` describes it. |
| HtmlNode.NodeEq | src/htmlnode.py:18-21 | `__eq__`: no contract of its own. `NodeEqReflexive`, `NodeEqSymmetric`, `NodeEqTransitive`, `NodeEqSameText` and `EqualNodesMayRenderDifferently` describe it. |
| HtmlNode.PropsEqIsEquivalence | src/htmlnode.py:19 | Comparing props fields is reflexive, symmetric and transitive. |
| HtmlNode.NodeEqReflexive | src/htmlnode.py:18-21 | Every node equals itself. |
| HtmlNode.NodeEqSymmetric | src/htmlnode.py:18-21 | Node equality is symmetric. |
| HtmlNode.NodeEqTransitive | src/htmlnode.py:18-21 | Node equality is transitive. |
| HtmlNode.NodeEqSameText | src/htmlnode.py:18-21 | Equal nodes have the same text content. |
| HtmlNode.LeafRenderSeparatesProps | src/htmlnode.py:36 | Two tagged leaves with the same tag and value whose non-empty attribute sections differ render differently. |
| HtmlNode.EqualNodesMayRenderDifferently | src/htmlnode.py:18-36 | A leaf with a non-empty tag and two attributes with distinct keys, no `=` in either key and no `"` in either value, is equal under `__eq__` to the same leaf with the attributes swapped, yet the two render to different strings. Without a tag the renderings would coincide. |
| TextNodes.EnumValue | src/textnode.py:5-10 | The value each `TextType` member carries: no contract of its own. `FromValue` and `EnumValuesDistinct` describe it. |
| TextNodes.FromValue | src/textnode.py:4-10 | Looking up an enum member by value succeeds exactly for the six member values and returns the member carrying that value. |
| TextNodes.EnumValuesDistinct | src/textnode.py:4-10 | The six member values are distinct, so no member is an alias, and lookup by value recovers each member. |
| TextNodes.Equals | src/textnode.py:18-21 | Two text nodes compare equal exactly when text, kind and URL are all equal. |
| TextNodes.TextNodeToHtmlNode | src/textnode.py:27-42 | Every span kind maps to a leaf that is successfully constructed and well-formed, so `ValueError` is never raised. The leaf is tagged exactly when the kind is not plain text, and it has attributes exactly for links and images. |
| TextNodes.MappingTags | src/textnode.py:29-40 | The tags are: none for TEXT, `b` for BOLD, `i` for ITALIC, `code` for CODE, `a` for LINK, `img` for IMAGE. Distinct kinds get distinct tags. |
| TextNodes.MappingAttributes | src/textnode.py:29-40 | LINK carries only `href="https://www.google.com"`. IMAGE carries `src="url/image"` and then `alt="brief description"`. The other kinds have no props. The leaf's value is `" "` for IMAGE and `"testing"` for every other kind. |
| TextNodes.MappingRenderings | src/textnode.py:29-36 | The four kinds without attributes render as `testing`, `<b>testing</b>`, `<i>testing</i>` and `<code>testing</code>`. |
| TextNodes.MappingAttributeText | src/textnode.py:37-40 | The link's attribute section is `href="https://www.google.com"`, and the image's is `src="url/image" alt="brief description"`. |
| TextNodes.LinkRendering | src/textnode.py:37-38 | The link leaf renders as `<a href="https://www.google.com">testing</a>`. |
| TextNodes.ImageRendering | src/textnode.py:39-40 | The image leaf renders as `<img src="url/image" alt="brief description"> </img>`: attributes in insertion order, a single space as content, and a closing tag. |
| UnitCases.PropsToHtmlCase | src/test_hmtlnode.py:16-22 | `{"href": ..., "target": "_blank"}` renders as `href="https://www.google.com" target="_blank"`. |
| UnitCases.NodeEqualityCases | src/test_hmtlnode.py:6-14 | Nodes with the same fields are equal. A node with an `href` attribute and a node with a different value and no props are not equal. |
| UnitCases.LeafConstructionFailureCase | src/test_hmtlnode.py:26-28 | A leaf without a value fails to construct. |
| UnitCases.LeafRenderCase | src/test_hmtlnode.py:30-35 | A `p` leaf renders as `<p>Click me!</p>`. |
| UnitCases.AttributeRenderCases | src/test_hmtlnode.py:37-52 | An `a` leaf with one `href` renders as `<a href="https://www.google.com">Click me!</a>`; with `href` and then `target` it renders as `<a href="https://www.google.com" target="_blank">Click me!</a>`. |
| UnitCases.ParentConstructionFailureCases | src/test_hmtlnode.py:56-62 | A parent without children, or without a tag, fails to construct. |
| UnitCases.ParentRenderCase | src/test_hmtlnode.py:64-69 | A `p` parent over a bold leaf and a plain leaf renders as `<p><b>Bold text</b>Normal text</p>`. |
| UnitCases.TextNodeEqualityCases | src/test_textnode.py:18-26 | Text nodes with equal fields are equal; nodes with different text are not. |
| UnitCases.MappingCases | src/test_textnode.py:118-129 | TEXT maps to a leaf. The link's `href`, and the image's `src` and `alt`, are the fixed placeholder values. |

## Left out

- The bare `HTMLNode` base class as a node of its own. Its `to_html` always raises `NotImplementedError` (src/htmlnode.py:8-9). Only leaves and parents are modelled. The equality tests that build base-class nodes are stated over leaves with the same fields.
- `props_to_html` on a node whose props are `None`, which raises `AttributeError` in Python. `Render` never calls it in that case, and the model only defines it on a list of items.
- `__repr__` of both classes: debug formatting only.
- The `case _` branch of `text_node_to_html_node`, which raises "No type found". The argument is a `TextType`, and the match over it is exhaustive, so the branch cannot be reached.
- Python values that are neither `None` nor strings or lists (for example a non-string value, or `None` inside a children list). Only "absent or empty" is modelled as falsy.
- A children list holding a base `HTMLNode` or another object, whose `to_html` would raise or behave differently.
- The inline-parser functions imported by the tests (`split_nodes_delimiter`, `extract_markdown_images`, `extract_markdown_links`, `split_nodes_images`, `split_nodes_links`, `text_to_textnodes`), and the page-generation functions imported by `src/main.py`. No source for them is part of this model.
- `src/main.py`: directory copying and file-system plumbing plus a debug print.
- Mutation of node fields after construction. Nodes are immutable values here, and `Render` is defined for every field combination.
