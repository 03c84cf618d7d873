/**
 * The ProseMirror-style document tree that Substack's editor stores, and the
 * `SubstackDocument` builder that appends blocks to it (substack_client.py).
 *
 * The source builds JSON dictionaries; here every node kind is a constructor.
 * Each constructor's comment gives the node's `"type"` string.  Attribute keys
 * the source always fills with the same constant (`srcNoWatermark`, `fullscreen`,
 * `belowTheFold`, the embed bags, ...) are not represented.
 */
module Document {
  import opened Wrappers

  /** An inline mark on a text node: `strong`, `em`, `code`, or `link` with `href` and `title`. */
  datatype Mark = Strong | Em | Code | Link(href: string, title: Option<string>)

  /** The attributes of an `image2` node that the model tracks. */
  datatype ImageAttrs = ImageAttrs(
    src: string,
    alt: Option<string>,
    width: Option<int>,
    height: Option<int>,
    bytes: Option<int>,
    contentType: Option<string>,
    /** Filled in only by the redirect fixup once the draft id is known. */
    internalRedirect: Option<string>)

  datatype Node =
    | /** "doc": the root. */ Doc(content: seq<Node>)
    | /** "text": an empty `marks` is the node without a `marks` key. */ Text(text: string, marks: seq<Mark>)
    | /** "paragraph": an empty `content` is the node without a `content` key. */ Paragraph(content: seq<Node>)
    | /** "heading" with `attrs.level`. */ Heading(level: int, content: seq<Node>)
    | /** "blockquote" */ Blockquote(content: seq<Node>)
    | /** "bulletList" */ BulletList(content: seq<Node>)
    | /** "ordered_list": the type string the builder writes for numbered lists. */ OrderedList(content: seq<Node>)
    | /** "listItem" */ ListItem(content: seq<Node>)
    | /** "horizontalRule" */ HorizontalRule
    | /** "codeBlock" with `attrs.language`. */ CodeBlock(language: string, content: seq<Node>)
    | /** "captionedImage": wraps an `image2` and, when added by a tool, an `imageCaption`. */ CaptionedImage(content: seq<Node>)
    | /** "image2" */ Image2(attrs: ImageAttrs)
    | /** "imageCaption" */ ImageCaption(content: seq<Node>)
    | /** "youtube2" */ Youtube2(videoId: string)
    | /** "twitter2" */ Twitter2(url: string, fullText: string, username: string)
    | /** A node of any other type, as found in a draft fetched from the service. */ Other(kind: string, content: seq<Node>)

  /** A node that may stand directly under `doc`. */
  predicate IsBlock(n: Node) {
    n.Paragraph? || n.Heading? || n.Blockquote? || n.BulletList? || n.OrderedList?
    || n.HorizontalRule? || n.CodeBlock? || n.CaptionedImage? || n.Youtube2? || n.Twitter2? || n.Other?
  }

  /** A mark-less text node. */
  function Plain(content: string): Node {
    Text(content, [])
  }

  // --- Text helpers (static methods of SubstackDocument) ---

  /** `text(content, marks)`: a text node; no marks means no `marks` key. */
  function TextNode(content: string, marks: seq<Mark>): Node
  {
    Text(content, marks)
  }

  /** `bold(content)`: one `strong` mark; `Inline.BoldReadBack` reads it back from `**content**`. */
  function Bold(content: string): Node
  {
    Text(content, [Strong])
  }

  /** `italic(content)`: one `em` mark; `Inline.ItalicReadBack` reads it back from `_content_`. */
  function Italic(content: string): Node
  {
    Text(content, [Em])
  }

  /** `code(content)`: one `code` mark. */
  function InlineCode(content: string): Node
  {
    Text(content, [Code])
  }

  /**
   * `link(content, href)`: one link mark whose title is null; an empty href is
   * accepted.  `Inline.LinkReadBack` reads it back from `[content](href)`.
   */
  function LinkText(content: string, href: string): Node
  {
    Text(content, [Link(href, None)])
  }

  // --- Block constructors ---

  /** An argument of `paragraph(*parts)`: a `str`, a `dict` (a node), or any other value, which is skipped. */
  datatype Part = Str(s: string) | NodePart(node: Node) | Ignored

  /** The child a string or node part stands for. */
  function PartNode(p: Part): Node
    requires !p.Ignored?
  {
    if p.Str? then Plain(p.s) else p.node
  }

  /** The paragraph children made from `parts`, in order. */
  function PartNodes(parts: seq<Part>): (r: seq<Node>)
    ensures |r| <= |parts|
    ensures r == [] <==> forall k :: 0 <= k < |parts| ==> parts[k].Ignored?
    ensures (forall k :: 0 <= k < |parts| ==> !parts[k].Ignored?) ==>
              |r| == |parts| && forall k :: 0 <= k < |parts| ==> r[k] == PartNode(parts[k])
  {
    if |parts| == 0 then []
    else
      var rest := PartNodes(parts[1..]);
      assert forall k :: 1 <= k < |parts| ==> parts[1..][k - 1] == parts[k];
      match parts[0]
      case Str(s) => [Plain(s)] + rest
      case NodePart(n) => [n] + rest
      case Ignored => rest
  }

  /** `PartNodes` treats each part on its own: the children of a concatenation are the concatenation of the children. */
  lemma {:induction false} PartNodesAppend(a: seq<Part>, b: seq<Part>)
    ensures PartNodes(a + b) == PartNodes(a) + PartNodes(b)
  {
    if |a| > 0 {
      assert (a + b)[1..] == a[1..] + b;
      PartNodesAppend(a[1..], b);
    } else {
      assert a + b == b;
    }
  }

  /** `paragraph(*parts)`: strings become mark-less text, nodes are kept, no parts gives no content. */
  function ParagraphOf(parts: seq<Part>): (r: Node)
    ensures r.Paragraph? && |r.content| <= |parts|
    ensures |parts| == 0 ==> r.content == []
    ensures (forall k :: 0 <= k < |parts| ==> !parts[k].Ignored?) ==>
              |r.content| == |parts| && forall k :: 0 <= k < |parts| ==> r.content[k] == PartNode(parts[k])
  {
    Paragraph(PartNodes(parts))
  }

  /** `heading(text, level)`: one text child and a level clamped into [2, 4]. */
  function HeadingOf(text: string, level: int): (r: Node)
    ensures r.Heading? && 2 <= r.level <= 4 && r.content == [Plain(text)]
    ensures 2 <= level <= 4 ==> r.level == level
    ensures level < 2 ==> r.level == 2
    ensures level > 4 ==> r.level == 4
  {
    Heading(if level < 2 then 2 else if level > 4 then 4 else level, [Plain(text)])
  }

  /**
   * `image(src, alt, caption, ...)`: a `captionedImage` holding exactly one `image2`.
   * The caption is accepted and ignored, and no redirect is set yet.
   */
  function ImageOf(src: string, alt: Option<string>, caption: Option<string>,
                   width: Option<int>, height: Option<int>, bytes: Option<int>,
                   contentType: Option<string>): Node
  {
    CaptionedImage([Image2(ImageAttrs(src, alt, width, height, bytes, contentType, None))])
  }

  /** The caption argument of `image` has no effect on the node. */
  lemma ImageIgnoresCaption(src: string, alt: Option<string>, c1: Option<string>, c2: Option<string>,
                            width: Option<int>, height: Option<int>, bytes: Option<int>,
                            contentType: Option<string>)
    ensures ImageOf(src, alt, c1, width, height, bytes, contentType)
         == ImageOf(src, alt, c2, width, height, bytes, contentType)
  {
  }

  /** `blockquote(text)`: one paragraph holding one mark-less text node. */
  function BlockquoteOf(text: string): Node
  {
    Blockquote([Paragraph([Plain(text)])])
  }

  /** A list item holding one paragraph with the item text. */
  function Item(text: string): Node {
    ListItem([Paragraph([Plain(text)])])
  }

  function Items(items: seq<string>): (r: seq<Node>)
    ensures |r| == |items|
    ensures forall k :: 0 <= k < |items| ==> r[k] == Item(items[k])
  {
    if |items| == 0 then [] else [Item(items[0])] + Items(items[1..])
  }

  /** `bullet_list(items)`: one list item per string, in order. */
  function BulletListOf(items: seq<string>): (r: Node)
    ensures r.BulletList? && |r.content| == |items|
    ensures forall k :: 0 <= k < |items| ==> r.content[k] == Item(items[k])
  {
    BulletList(Items(items))
  }

  /** `numbered_list(items)`: as a bullet list, under the type `ordered_list` and with no start attribute. */
  function NumberedListOf(items: seq<string>): (r: Node)
    ensures r.OrderedList? && |r.content| == |items|
    ensures forall k :: 0 <= k < |items| ==> r.content[k] == Item(items[k])
  {
    OrderedList(Items(items))
  }

  /** `code_block(code, language)`: the code as one mark-less text node. */
  function CodeBlockOf(code: string, language: string): Node
  {
    CodeBlock(language, [Plain(code)])
  }

  // --- The append-only builder ---

  /** One call of a `SubstackDocument` block method, with its arguments. */
  datatype Block =
    | ParagraphCall(parts: seq<Part>)
    | HeadingCall(text: string, level: int)
    | ImageCall(src: string, alt: Option<string>, caption: Option<string>, width: Option<int>,
                height: Option<int>, bytes: Option<int>, contentType: Option<string>)
    | BlockquoteCall(quote: string)
    | BulletListCall(items: seq<string>)
    | NumberedListCall(items: seq<string>)
    | HorizontalRuleCall
    | CodeBlockCall(code: string, language: string)
    | YoutubeCall(videoId: string)
    | TwitterCall(url: string, fullText: string, username: string)

  /** The node a block method appends. */
  function NodeFor(b: Block): (r: Node)
    ensures IsBlock(r)
  {
    match b
    case ParagraphCall(parts) => ParagraphOf(parts)
    case HeadingCall(text, level) => HeadingOf(text, level)
    case ImageCall(src, alt, caption, w, h, size, ct) => ImageOf(src, alt, caption, w, h, size, ct)
    case BlockquoteCall(q) => BlockquoteOf(q)
    case BulletListCall(items) => BulletListOf(items)
    case NumberedListCall(items) => NumberedListOf(items)
    case HorizontalRuleCall => HorizontalRule
    case CodeBlockCall(code, language) => CodeBlockOf(code, language)
    case YoutubeCall(id) => Youtube2(id)
    case TwitterCall(url, text, user) => Twitter2(url, text, user)
  }

  /** A `SubstackDocument`: the block list accumulated so far. */
  datatype DocBuilder = DocBuilder(content: seq<Node>)

  const EmptyBuilder := DocBuilder([])

  /** Calling a block method: exactly one node is appended and the earlier ones stay as they were. */
  function Add(d: DocBuilder, b: Block): (r: DocBuilder)
    ensures |r.content| == |d.content| + 1
    ensures r.content[..|d.content|] == d.content
    ensures r.content[|d.content|] == NodeFor(b)
  {
    DocBuilder(d.content + [NodeFor(b)])
  }

  /** The builder after a fresh `SubstackDocument()` received the calls `calls`, in order. */
  function AddAll(d: DocBuilder, calls: seq<Block>): DocBuilder
    decreases |calls|
  {
    if |calls| == 0 then d else AddAll(Add(d, calls[0]), calls[1..])
  }

  /** `build()`: the accumulated blocks under a `doc` root. */
  function Build(d: DocBuilder): Node
  {
    Doc(d.content)
  }

  /**
   * A chain of block calls yields, in call order, one node per call, after the
   * nodes already there: nothing is merged, dropped or reordered.
   */
  lemma {:induction false} AddAllContent(d: DocBuilder, calls: seq<Block>)
    ensures |AddAll(d, calls).content| == |d.content| + |calls|
    ensures AddAll(d, calls).content[..|d.content|] == d.content
    ensures forall k :: 0 <= k < |calls| ==> AddAll(d, calls).content[|d.content| + k] == NodeFor(calls[k])
    decreases |calls|
  {
    if |calls| > 0 {
      var d1 := Add(d, calls[0]);
      AddAllContent(d1, calls[1..]);
      var r := AddAll(d1, calls[1..]).content;
      assert r[..|d.content|] == r[..|d1.content|][..|d.content|];
      forall k | 0 <= k < |calls| ensures r[|d.content| + k] == NodeFor(calls[k]) {
        if k == 0 {
          assert r[|d.content|] == r[..|d1.content|][|d.content|];
        } else {
          assert calls[1..][k - 1] == calls[k];
        }
      }
    }
  }

  /** Every block under the root of a built document may stand there. */
  lemma {:induction false} BuiltDocIsBlocks(calls: seq<Block>)
    ensures forall k :: 0 <= k < |Build(AddAll(EmptyBuilder, calls)).content| ==>
              IsBlock(Build(AddAll(EmptyBuilder, calls)).content[k])
  {
    AddAllContent(EmptyBuilder, calls);
    var c := Build(AddAll(EmptyBuilder, calls)).content;
    forall k | 0 <= k < |c| ensures IsBlock(c[k]) {
      assert c[k] == NodeFor(calls[k]);
    }
  }

  /** The number of top-level `heading` nodes, as the append tool reports `total_sections`. */
  function CountHeadings(content: seq<Node>): (n: nat)
    ensures n <= |content|
  {
    if |content| == 0 then 0
    else (if content[0].Heading? then 1 else 0) + CountHeadings(content[1..])
  }

  lemma {:induction false} CountHeadingsAppend(a: seq<Node>, b: seq<Node>)
    ensures CountHeadings(a + b) == CountHeadings(a) + CountHeadings(b)
  {
    if |a| > 0 {
      assert (a + b)[1..] == a[1..] + b;
      CountHeadingsAppend(a[1..], b);
    } else {
      assert a + b == b;
    }
  }
}
