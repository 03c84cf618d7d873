/**
 * The tool handler `call_tool` of the MCP server (substack_mcp/server.py),
 * for the tools that build or extend a draft body and the one that keeps
 * the server's `live_session`.
 *
 * The server state is the client (present or not, with its publication host)
 * and the live session.  Each call returns the reply object and, for the
 * tools that write a body, the content it sends with `update_draft` or
 * `create_draft`.  Clock readings and the service's answers arrive in a
 * `Replies` value; a raised exception becomes an error reply.
 */
module Server {
  import opened Wrappers
  import opened Text
  import opened Document
  import opened Markdown
  import opened Client

  /** The `live_session` dictionary; the server never changes its `updates` or `active` entries. */
  datatype LiveInfo = LiveInfo(draftId: int, title: string, startedAt: string, updates: int, active: bool)

  /** `client` (its publication host, or `None` before initialisation) and `live_session`. */
  datatype State = State(publication: Option<string>, live: Option<LiveInfo>)

  /** A tool call with its arguments, defaults already filled in as `arguments.get` does. */
  datatype Tool =
    | CreateDraftTool(title: string, subtitle: string, body: string, audience: string)
    | UpdateDraftTool(draftId: int, newTitle: Option<string>, newSubtitle: Option<string>, newBody: Option<string>)
    | AppendToDraft(draftId: int, content: string, sectionTitle: Option<string>, addTimestamp: bool)
    | AddCodeBlock(draftId: int, code: string, language: string, filename: string, caption: string)
    | AddImage(draftId: int, url: string, caption: string, alt: string)
    | LiveBlogStart(liveTitle: Option<string>, subtitle: string)
    | LiveBlogEnd(publish: bool)
    | /** A name outside `ToolNames`, which no branch of the dispatch handles. */ UnknownTool(name: string)

  /** The eleven names `call_tool` dispatches on, the modelled tools and the forwarding ones alike. */
  const ToolNames: set<string> := {
    "substack_create_draft", "substack_update_draft", "substack_append_to_draft",
    "substack_add_code_block", "substack_add_image", "substack_publish", "substack_post_note",
    "substack_get_drafts", "substack_get_posts", "substack_live_blog_start", "substack_live_blog_end"
  }

  /**
   * What the outside world answers during one call: the stored body
   * `get_draft` returns, the id of a newly created draft, the URL a publish
   * answers with, and the clock as `%I:%M %p`, as `%Y-%m-%d` and in ISO form.
   */
  datatype Replies = Replies(stored: StoredBody, newDraftId: int, canonicalUrl: Option<string>,
                             clock: string, date: string, now: string)

  /** The reply object of a call; `content` is the body content the call wrote, not part of the JSON. */
  datatype Reply =
    | DraftCreated(draftId: int, title: string, editUrl: string, content: seq<Node>)
    | DraftUpdated(draftId: int, request: UpdateRequest)
    | Appended(draftId: int, totalSections: nat, content: seq<Node>)
    | CodeBlockAdded(content: seq<Node>)
    | ImageAdded(content: seq<Node>)
    | LiveStarted(session: LiveInfo, editUrl: string, content: seq<Node>)
    | LiveEnded(session: LiveInfo, published: bool, url: Option<string>, content: seq<Node>)
    | ErrorReply(message: string)

  const NotInitialized: string := "Substack client not initialized. Set SUBSTACK_SID and SUBSTACK_PUBLICATION."
  const NoLiveSession: string := "No active live blog session"

  /** `f"https://{client.publication}/publish/post/{draft.id}"` */
  function EditUrl(publication: string, draftId: int): string {
    "https://" + publication + "/publish/post/" + IntToString(draftId)
  }

  // --- append_to_draft ---

  /** The optional level-3 section heading; the time is added in parentheses when asked for. */
  function SectionHeading(sectionTitle: Option<string>, addTimestamp: bool, clock: string): (r: seq<Node>)
    ensures |r| <= 1
    ensures |r| == 1 <==> sectionTitle.Some? && sectionTitle.value != ""
    ensures |r| == 1 && addTimestamp ==> r[0] == Heading(3, [Plain(sectionTitle.value + " (" + clock + ")")])
    ensures |r| == 1 && !addTimestamp ==> r[0] == Heading(3, [Plain(sectionTitle.value)])
  {
    if sectionTitle.Some? && sectionTitle.value != "" then
      var t := sectionTitle.value;
      assert t + (" (" + clock + ")") == t + " (" + clock + ")";
      assert t + "" == t;
      [Heading(3, [Plain(t + (if addTimestamp then " (" + clock + ")" else ""))])]
    else []
  }

  /** The nodes `append_to_draft` adds: the section heading, then the converted Markdown. */
  function AppendedNodes(content: string, sectionTitle: Option<string>, addTimestamp: bool, clock: string): seq<Node> {
    SectionHeading(sectionTitle, addTimestamp, clock) + ConvertDoc(content).content
  }

  // --- add_code_block ---

  /** The nodes `add_code_block` adds: an optional `📄` filename line, the code block, an optional caption. */
  function CodeBlockNodes(code: string, language: string, filename: string, caption: string): (r: seq<Node>)
    ensures |r| == 1 + (if filename != "" then 1 else 0) + (if caption != "" then 1 else 0)
    ensures r[if filename != "" then 1 else 0] == CodeBlockOf(code, language)
    ensures filename != "" ==> r[0] == Paragraph([InlineCode("\U{1F4C4} " + filename)])
    ensures caption != "" ==> r[|r| - 1] == Paragraph([Italic(caption)])
  {
    (if filename != "" then [Paragraph([InlineCode("\U{1F4C4} " + filename)])] else [])
    + [CodeBlockOf(code, language)]
    + (if caption != "" then [Paragraph([Italic(caption)])] else [])
  }

  // --- add_image ---

  /** The node `add_image` adds; `title`, `fullscreen`, `height` and `width` are null. */
  function ImageNode(url: string, caption: string, alt: string): (r: Node)
    ensures r.CaptionedImage? && 1 <= |r.content| <= 2
    ensures r.content[0] == Image2(ImageAttrs(url, Some(alt), None, None, None, None, None))
    ensures |r.content| == 2 <==> caption != ""
    ensures caption != "" ==> r.content[1] == ImageCaption([Plain(caption)])
  {
    CaptionedImage([Image2(ImageAttrs(url, Some(alt), None, None, None, None, None))]
                   + (if caption != "" then [ImageCaption([Plain(caption)])] else []))
  }

  // --- live_blog_start and live_blog_end ---

  /** The opening the live-blog tool writes: its `**` are kept as text, not read as Markdown. */
  function LiveOpening(clock: string): seq<Node> {
    [Paragraph([Plain("\U{1F534} **Live Blog Started** - " + clock)]), HorizontalRule]
  }

  function LiveClosing(clock: string): Node {
    Paragraph([Plain("\U{1F534} **Live Blog Ended** - " + clock)])
  }

  /** Runs a read-modify-write tool: an unreadable stored content ends the call with its error. */
  function ReadModifyWrite(st: State, stored: StoredBody, added: seq<Node>, reply: seq<Node> -> Reply): (Reply, State) {
    match CurrentContent(stored)
    case Failure(e) => (ErrorReply(e), st)
    case Success(before) => (reply(before + added), st)
  }

  /** The body of the `try` block of `call_tool` for one tool. */
  function Dispatch(st: State, publication: string, tool: Tool, w: Replies): (Reply, State) {
    match tool
    case CreateDraftTool(title, subtitle, body, audience) =>
      var d := CreateDraft(publication, title, MarkdownText(body), subtitle, audience, None, w.newDraftId);
      (DraftCreated(d.id, d.title, EditUrl(publication, d.id), d.content), st)
    case UpdateDraftTool(draftId, title, subtitle, body) =>
      var b := if body.Some? then Some(MarkdownText(body.value)) else None;
      (DraftUpdated(draftId, UpdateDraft(title, b, subtitle, None)), st)
    case AppendToDraft(draftId, content, sectionTitle, addTimestamp) =>
      ReadModifyWrite(st, w.stored, AppendedNodes(content, sectionTitle, addTimestamp, w.clock),
                      written => Appended(draftId, CountHeadings(written), written))
    case AddCodeBlock(_, code, language, filename, caption) =>
      ReadModifyWrite(st, w.stored, CodeBlockNodes(code, language, filename, caption),
                      written => CodeBlockAdded(written))
    case AddImage(_, url, caption, alt) =>
      ReadModifyWrite(st, w.stored, [ImageNode(url, caption, alt)], written => ImageAdded(written))
    case LiveBlogStart(title, subtitle) =>
      var t := title.GetOr("Live Blog - " + w.date);
      var doc := DocBuilder(LiveOpening(w.clock));
      var d := CreateDraft(publication, t, Built(doc), subtitle, "everyone", None, w.newDraftId);
      var info := LiveInfo(d.id, t, w.now, 0, true);
      (LiveStarted(info, EditUrl(publication, d.id), d.content), st.(live := Some(info)))
    case LiveBlogEnd(publish) =>
      if st.live.None? then (ErrorReply(NoLiveSession), st)
      else
        var info := st.live.value;
        var read := CurrentContent(w.stored);
        if read.Failure? then (ErrorReply(read.error), st)
        else
          (LiveEnded(info, publish, if publish then w.canonicalUrl else None, read.value + [LiveClosing(w.clock)]),
           st.(live := None))
    case UnknownTool(name) => (ErrorReply("Unknown tool: " + name), st)
  }

  /** `call_tool`: without a client every call is refused; otherwise the tool runs. */
  function CallTool(st: State, tool: Tool, w: Replies): (r: (Reply, State))
    ensures st.publication.None? ==> r == (ErrorReply(NotInitialized), st)
    ensures r.1.publication == st.publication
    ensures r.0.ErrorReply? ==> r.1 == st
    ensures !(tool.LiveBlogStart? || tool.LiveBlogEnd?) ==> r.1 == st
  {
    if st.publication.None? then (ErrorReply(NotInitialized), st)
    else Dispatch(st, st.publication.value, tool, w)
  }

  // --- Properties of the tools ---

  /** The top-level headings of a body written by `append_to_draft`, counted part by part. */
  lemma {:induction false} SectionsCount(before: seq<Node>, heading: seq<Node>, converted: seq<Node>)
    requires |heading| <= 1 && forall k :: 0 <= k < |heading| ==> heading[k].Heading?
    ensures CountHeadings(before + (heading + converted))
            == CountHeadings(before) + |heading| + CountHeadings(converted)
  {
    CountHeadingsAppend(before, heading + converted);
    CountHeadingsAppend(heading, converted);
    if |heading| == 1 {
      assert heading[1..] == [];
    }
  }

  /**
   * `append_to_draft` writes the stored content, the optional section heading
   * and the converted Markdown, in that order and with nothing removed, and
   * reports the top-level headings of the result.
   */
  lemma AppendComposition(st: State, draftId: int, content: string, sectionTitle: Option<string>,
                          addTimestamp: bool, w: Replies)
    requires st.publication.Some? && CurrentContent(w.stored).Success?
    ensures var before := CurrentContent(w.stored).value;
            var heading := SectionHeading(sectionTitle, addTimestamp, w.clock);
            var converted := ConvertDoc(content).content;
            var r := CallTool(st, AppendToDraft(draftId, content, sectionTitle, addTimestamp), w).0;
            && r.Appended? && r.draftId == draftId
            && r.content == before + (heading + converted)
            && r.totalSections == CountHeadings(before) + |heading| + CountHeadings(converted)
  {
    var heading := SectionHeading(sectionTitle, addTimestamp, w.clock);
    SectionsCount(CurrentContent(w.stored).value, heading, ConvertDoc(content).content);
  }

  /** A stored body that cannot be parsed is replaced by an empty document: the earlier content is lost. */
  lemma UnreadableBodyDiscarded(st: State, tool: Tool, w: Replies)
    requires st.publication.Some? && w.stored.Unreadable?
    ensures tool.AppendToDraft? ==>
              CallTool(st, tool, w).0.content == AppendedNodes(tool.content, tool.sectionTitle, tool.addTimestamp, w.clock)
    ensures tool.AddCodeBlock? ==>
              CallTool(st, tool, w).0.content == CodeBlockNodes(tool.code, tool.language, tool.filename, tool.caption)
    ensures tool.AddImage? ==> CallTool(st, tool, w).0.content == [ImageNode(tool.url, tool.caption, tool.alt)]
    ensures tool.LiveBlogEnd? && st.live.Some? ==> CallTool(st, tool, w).0.content == [LiveClosing(w.clock)]
  {
  }

  /** A stored body without content makes every read-modify-write tool fail with the `KeyError`, changing nothing. */
  lemma MissingContentFails(st: State, tool: Tool, w: Replies)
    requires st.publication.Some? && w.stored == MissingBody
    requires tool.AppendToDraft? || tool.AddCodeBlock? || tool.AddImage? || (tool.LiveBlogEnd? && st.live.Some?)
    ensures CallTool(st, tool, w) == (ErrorReply(NoContentError), st)
  {
  }

  /** `add_code_block` keeps the stored content and adds its nodes after it. */
  lemma CodeBlockAppends(st: State, draftId: int, code: string, language: string, filename: string,
                         caption: string, w: Replies)
    requires st.publication.Some? && CurrentContent(w.stored).Success?
    ensures var before := CurrentContent(w.stored).value;
            var r := CallTool(st, AddCodeBlock(draftId, code, language, filename, caption), w).0;
            var f := if filename != "" then 1 else 0;
            && r.CodeBlockAdded?
            && |r.content| == |before| + 1 + f + (if caption != "" then 1 else 0)
            && r.content[..|before|] == before
            && r.content[|before| + f] == CodeBlockOf(code, language)
  {
    var before := CurrentContent(w.stored).value;
    var added := CodeBlockNodes(code, language, filename, caption);
    var f := if filename != "" then 1 else 0;
    assert (before + added)[|before| + f] == added[f];
  }

  /** `add_image` adds exactly one captioned image after the stored content. */
  lemma ImageAppends(st: State, draftId: int, url: string, caption: string, alt: string, w: Replies)
    requires st.publication.Some? && CurrentContent(w.stored).Success?
    ensures var before := CurrentContent(w.stored).value;
            var r := CallTool(st, AddImage(draftId, url, caption, alt), w).0;
            && r.ImageAdded? && |r.content| == |before| + 1 && r.content[..|before|] == before
            && r.content[|before|].CaptionedImage?
            && r.content[|before|].content[0].Image2?
            && r.content[|before|].content[0].attrs.src == url
            && r.content[|before|].content[0].attrs.alt == Some(alt)
            && (|r.content[|before|].content| == 2 <==> caption != "")
  {
  }

  /** `live_blog_start` always opens a session, replacing one that was already open. */
  lemma LiveStartReplaces(st: State, title: Option<string>, subtitle: string, w: Replies)
    requires st.publication.Some?
    ensures var (r, t) := CallTool(st, LiveBlogStart(title, subtitle), w);
            && r.LiveStarted? && t.live == Some(r.session)
            && r.session == LiveInfo(w.newDraftId, title.GetOr("Live Blog - " + w.date), w.now, 0, true)
            && r.content == LiveOpening(w.clock)
  {
    var t := title.GetOr("Live Blog - " + w.date);
    var d := CreateDraft(st.publication.value, t, Built(DocBuilder(LiveOpening(w.clock))), subtitle,
                         "everyone", None, w.newDraftId);
    assert d.content == LiveOpening(w.clock);
  }

  /**
   * `live_blog_end` without a session is refused; with one it appends one
   * closing paragraph, reports the session, and clears it.
   */
  lemma LiveEndClears(st: State, publish: bool, w: Replies)
    requires st.publication.Some?
    ensures st.live.None? ==> CallTool(st, LiveBlogEnd(publish), w) == (ErrorReply(NoLiveSession), st)
    ensures st.live.Some? && CurrentContent(w.stored).Success? ==>
              var (r, t) := CallTool(st, LiveBlogEnd(publish), w);
              var before := CurrentContent(w.stored).value;
              && t == st.(live := None)
              && r == LiveEnded(st.live.value, publish, if publish then w.canonicalUrl else None,
                                before + [LiveClosing(w.clock)])
  {
  }

  /** A start followed by an end leaves the server with no session again. */
  lemma LiveStartThenEnd(st: State, title: Option<string>, subtitle: string, w1: Replies,
                         publish: bool, w2: Replies)
    requires st.publication.Some? && CurrentContent(w2.stored).Success?
    ensures var (r1, t1) := CallTool(st, LiveBlogStart(title, subtitle), w1);
            var (r2, t2) := CallTool(t1, LiveBlogEnd(publish), w2);
            && r2.LiveEnded? && r2.session == r1.session && t2 == st.(live := None)
  {
    LiveStartReplaces(st, title, subtitle, w1);
  }

  /** Only the two live-blog tools touch the session, and no call changes the client. */
  lemma OtherToolsKeepSession(st: State, tool: Tool, w: Replies)
    requires !tool.LiveBlogStart? && !tool.LiveBlogEnd?
    ensures CallTool(st, tool, w).1 == st
  {
  }

  /** An unknown name is answered with an error naming it. */
  lemma UnknownToolRefused(st: State, name: string, w: Replies)
    requires st.publication.Some? && name !in ToolNames
    ensures CallTool(st, UnknownTool(name), w) == (ErrorReply("Unknown tool: " + name), st)
  {
  }
}
