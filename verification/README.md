# Substack client content core, in Dafny

This project models the part of the Substack client and its tool server that
decides what content a draft gets. The network plays no part in it. It covers:

- **The document builder.** `SubstackDocument` assembles a ProseMirror-style
  document: paragraphs of marked text, headings, images, quotes, lists, rules
  and code blocks.
- **The Markdown converter.** `MarkdownToSubstack.convert` reads Markdown line
  by line into blocks. `_parse_inline` reads a line into marked text nodes,
  using the source's alternation pattern with leftmost-first, lazy semantics.
- **The image redirect fixup.** After `create_draft`, the client rewrites each
  un-redirected image to `https://<publication>/i/<draft id>?img=<quoted src>`.
- **`publish_markdown`.** It takes the title from the first `# ` line and the
  subtitle from the first bold line, then drops those lines from the body.
  Publication host names have their scheme removed.
- **The live blog session.** `LiveBlogSession` moves between idle and active.
  Each append re-reads the draft, adds a stamp and the new content, writes
  the draft back and counts the update.
- **The server's `call_tool`.** It builds the content each tool appends and
  says which tools touch the server's live-blog state.

Module layout:

- `Wrappers`: `Option` and `Result`.
- `Text`: string helpers in Python's terms (`strip`, `split`, `join`,
  `replace`, `str(int)`).
- `Document`: the node datatype and the builder.
- `Inline`: `_parse_inline`.
- `Markdown`: `convert`.
- `Render`: a reference Markdown writer. It is the partner of `convert`: for
  writable blocks, converting the written Markdown gives the document those
  blocks mean. Writable prose starts with a letter and holds no `*`, `_` or
  `[`, so that the inline parser reads it as plain text.
- `Redirect`: `urllib.parse.quote` and the image fixup.
- `Client`: `create_draft`, `update_draft`, `publish_markdown` and host
  normalisation.
- `LiveBlog`: `LiveBlogSession`.
- `Server`: `call_tool`.

Remote answers and clock readings are parameters. These include the draft id
a create returns, the body a read returns, the canonical URL after a publish,
and the formatted time strings. Where the project's own documentation and the
code differ, the model follows the code, except for the two behaviours listed
under Findings, which are modelled corrected:

- Numbered lists are `ordered_list` nodes without a start attribute.
- `image()` ignores its caption argument.
- A draft body is read from `draft_body` only.
- `update_draft` does not run the image fixup.

## Model

| member | source | states |
|---|---|---|
| Text.StripEmptyIff | substack_client.py:342-347 | a line is skipped as blank exactly when it consists only of whitespace |
| Text.JoinSplit | substack_client.py:337 | splitting the input on newlines and joining the pieces back loses nothing |
| Text.SplitJoin | substack_client.py:376 | joining newline-free lines with `\n` and splitting again gives the same lines, so a fence body survives the round trip |
| Text.NatToStringValue | substack_client.py:809 | the decimal text of a draft id reads back as that id |
| Document.PartNodes | substack_client.py:141-154 | strings become plain text nodes, node parts are kept and other parts are dropped; when nothing is dropped, node k is the node for part k, strings and nodes mixed in their order; the result is empty exactly when every part was dropped |
| Document.PartNodesAppend | substack_client.py:141-154 | converting parts distributes over concatenation, so the builder treats each part independently |
| Document.ParagraphOf | substack_client.py:141-159 | a paragraph holds at most one node per part, none for no parts, and, when no part is dropped, the node for each part in order |
| Document.HeadingOf | substack_client.py:161-169 | the heading level is clamped into 2..4, kept when already in range, and the text is one plain node |
| Document.ImageIgnoresCaption | substack_client.py:171-209 | two calls that differ only in the caption build the same node |
| Document.Items | substack_client.py:222-238 | one list item per input string, in order |
| Document.BulletListOf | substack_client.py:222-238 | a bullet list has one item per string, each a paragraph of that string |
| Document.NumberedListOf | substack_client.py:240-256 | a numbered list is an ordered list with one item per string, in order |
| Document.NodeFor | substack_client.py:141-298 | every builder call produces a block-level node |
| Document.Add | substack_client.py:141-298 | a builder call appends exactly one node and keeps everything before it |
| Document.AddAllContent | substack_client.py:141-305 | after a series of calls, node k of the document is the node for call k, after the earlier content |
| Document.BuiltDocIsBlocks | substack_client.py:300-305 | every top-level node of a built document is a block |
| Document.CountHeadings | substack_mcp/server.py:271 | the heading count never exceeds the number of nodes |
| Document.CountHeadingsAppend | substack_mcp/server.py:264-271 | counting headings distributes over concatenation |
| Inline.LazyEnd | substack_client.py:451 | `(.+?)d` stops at the first delimiter after a non-empty, newline-free run, and fails only when no such run exists |
| Inline.DelimAt | substack_client.py:451 | a delimited alternative matches with the shortest closing, or its opening or closing is missing |
| Inline.LinkAt | substack_client.py:451 | a link match has a `]`-free text and a `)`-free target |
| Inline.LinkShapeFound | substack_client.py:451 | any text of link shape is matched by the link alternative |
| Inline.MatchAt | substack_client.py:451 | alternatives are tried bold first, and a later alternative wins only when bold fails |
| Inline.StarOpensMatch | substack_client.py:451 | a `*` followed by a closing `*` always starts a match |
| Inline.UnderscoreOpensMatch | substack_client.py:451 | an `_` followed by a closing `_` always starts a match |
| Inline.FirstMatch | substack_client.py:454 | the search finds the leftmost position where a match starts, and no match starts before it |
| Inline.Scan | substack_client.py:453-490 | the scan tiles the line with matches and the unmatched text between them, with no two gaps adjacent |
| Inline.ScanIsLossless | substack_client.py:453-490 | reading the tokens back as text spells the line |
| Inline.ScanUnique | substack_client.py:454-487 | any other tiling with these properties equals the scan, so it is the only leftmost-first reading |
| Inline.TokenNode | substack_client.py:456-484 | unmatched text gives an unmarked node and a match gives a node with exactly one mark, always with non-empty text |
| Inline.ParseInline | substack_client.py:446-496 | a line gives nodes exactly when it is non-empty, and every node is text with at most one mark |
| Inline.PlainLinePassesThrough | substack_client.py:489-494 | a line without `*`, `_` or `[` becomes one plain node holding the whole line |
| Inline.HitAsWrittenAgrees | substack_client.py:459-484 | the source's classification by leading characters agrees with the matched alternative, except for a `*` italic match that starts with `**` |
| Inline.BoldReadBack | substack_client.py:116-118 | a `**`-delimited run of non-empty, newline-free, `*`-free text parses to exactly the node `bold()` builds for that text |
| Inline.ItalicReadBack | substack_client.py:121-123 | an `_`-delimited run of non-empty, newline-free, `_`-free text parses to exactly the node `italic()` builds for that text |
| Inline.LinkReadBack | substack_client.py:131-137 | `[text](url)` with non-empty, `]`-free text and non-empty, `)`-free url parses to exactly the node `link()` builds for them |
| Inline.StarItalicMisreadAsBold | substack_client.py:451-467 | on `**a*` the italic alternative matches, the source emits a bold node with no text, and the corrected parse gives italic `*a` |
| Markdown.LeadingHashes | substack_client.py:356 | counts the `#` run at the start of a line |
| Markdown.SpacedRest | substack_client.py:356 | `\s+(.+)` succeeds exactly when whitespace and at least one more character follow, and returns a suffix of the line |
| Markdown.MatchHeading | substack_client.py:356-362 | a heading line has 1 to 4 `#` and then spaced text, and every non-heading line fails one of those conditions |
| Markdown.FiveHashesNoHeading | substack_client.py:356 | five or more `#` never make a heading |
| Markdown.FiveHashesIsParagraph | substack_client.py:356-441 | a line starting with five `#` is read as a paragraph |
| Markdown.MatchFence | substack_client.py:365 | a fence line is three backquotes and a word-character language, and every such line matches |
| Markdown.MatchImage | substack_client.py:381 | a matched image line is exactly `![alt](src)` around the returned parts |
| Markdown.MatchImageComplete | substack_client.py:381 | every `![alt](src)` with `]`-free alt and non-empty, `)`-free src is matched with those parts |
| Markdown.MatchNumbered | substack_client.py:416 | a numbered item is digits, a dot, whitespace and text, and lines of any other shape fail |
| Markdown.Classify | substack_client.py:342-441 | only the empty stripped line is blank, and heading levels stay within 1..4 |
| Markdown.ClassifyHeading | substack_client.py:350-362 | a non-rule line matching the heading pattern is classified as that heading |
| Markdown.CollectRun | substack_client.py:390-432 | a run collects the longest prefix of item lines, consumes one trailing blank line for lists but not for quotes, and stops at the first other line |
| Markdown.RunItem | substack_client.py:392-418 | only non-empty lines are run items |
| Markdown.FenceBody | substack_client.py:368-376 | the body is every line up to the first closing fence, or to the end of the input, and the closing fence is consumed when present |
| Markdown.Step | substack_client.py:342-441 | each step consumes at least one line and adds at most one well-formed block |
| Markdown.Blocks | substack_client.py:337-443 | the document never has more blocks than lines, and every block is well formed |
| Markdown.ConvertDoc | substack_client.py:320-443 | conversion always yields a document of well-formed blocks |
| Markdown.EmptyInputEmptyDoc | substack_client.py:320-443 | empty Markdown gives an empty document |
| Markdown.BlankLineSkipped | substack_client.py:342-347 | a whitespace-only line adds nothing |
| Markdown.BlankLinesGiveNothing | substack_client.py:342-347 | input made only of blank lines gives no blocks |
| Markdown.BlocksUnfold | substack_client.py:339-443 | the document is the first step's blocks followed by the document of the lines it did not consume |
| Markdown.RunEndsAtBlank | substack_client.py:390-432 | a run of items ended by a blank line collects exactly those items and consumes the blank line unless it is a quote |
| Markdown.StepOneLine | substack_client.py:350-441 | rule, heading, image and paragraph lines each consume exactly one line |
| Markdown.FenceLineOpens | substack_client.py:365 | three backquotes and a word-character language open a fence in that language |
| Markdown.TerminatedFence | substack_client.py:365-378 | a closed fence gives one code block whose code is the body joined with newlines, and reading continues after the closing fence |
| Markdown.UnterminatedFence | substack_client.py:365-378 | an unclosed fence takes every remaining line as code |
| Render.HeadingBlockRead | substack_client.py:356-362 | a written heading reads back as the heading it was written from |
| Render.ProseBlockRead | substack_client.py:434-441 | a written prose line reads back as a paragraph of that text |
| Render.RuleBlockRead | substack_client.py:350-353 | a written rule reads back as a horizontal rule |
| Render.CodeBlockRead | substack_client.py:365-378 | a written fenced block reads back as the code block it was written from |
| Render.RunBlockRead | substack_client.py:390-432 | written quote, bullet and numbered runs read back as one block holding the items |
| Render.BlockRead | substack_client.py:339-441 | any written block, followed by a blank line, reads back as its meaning, and reading continues with the rest |
| Render.LinesRead | substack_client.py:337-443 | the lines written for a block sequence read back as the blocks' meanings, in order |
| Render.ConvertReadsWrite | substack_client.py:320-443 | converting the written Markdown of any writable blocks gives the document those blocks mean |
| Redirect.Utf8Char | substack_client.py:808 | a character encodes as 1 to 4 UTF-8 bytes, one byte exactly for ASCII, with lead and continuation bytes in their ranges |
| Redirect.Utf8CharValue | substack_client.py:808 | the UTF-8 bytes of a character decode to its code point |
| Redirect.UnquoteQuote | substack_client.py:808 | unquoting a quoted source gives its UTF-8 bytes, so quoting loses nothing |
| Redirect.QuoteAlphabet | substack_client.py:808 | a quoted source holds only unreserved characters, `%` and upper-case hex digits, so it cannot break the query string |
| Redirect.QuoteUnreserved | substack_client.py:808 | a source made only of unreserved characters is quoted unchanged |
| Redirect.QuoteAppend | substack_client.py:808 | quoting distributes over concatenation |
| Redirect.Fixup | substack_client.py:800-812 | the fixup rewrites each top-level node on its own and keeps the length |
| Redirect.FixupCompletes | substack_client.py:800-812 | after the fixup no image with a source lacks a redirect, and each such image points at its own source |
| Redirect.FixupKeeps | substack_client.py:800-812 | nodes other than captioned images, and images that already had a redirect, are untouched |
| Redirect.FixupIdempotent | substack_client.py:800-812 | running the fixup twice is the same as running it once |
| Redirect.RedirectCarriesSource | substack_client.py:809 | the redirect URL is the fixed prefix for the publication and draft, followed by the quoted source, which unquotes to the source's bytes |
| Redirect.ExampleRedirect | substack_client.py:809 | for publication `pub.test`, draft 7 and source `a b/c` the URL is `https://pub.test/i/7?img=a%20b%2Fc` |
| Client.NormalizeCleanHost | substack_client.py:536 | a host name is kept unchanged exactly when neither `https://` nor `http://` occurs in it |
| Client.NormalizeSchemeHost | substack_client.py:536 | `https://` and `http://` in front of a scheme-free host, ports included, are removed |
| Client.CreateDraft | substack_client.py:757-824 | the draft carries the given id, title, subtitle and audience, with `""` for a missing cover image; it has as many nodes as the body; every image is redirected; and non-image nodes are the body's own |
| Client.CreatedWithoutImages | substack_client.py:796-824 | a created draft whose body has no images stores that body unchanged |
| Client.CreatedDraftSettled | substack_client.py:800-812 | a created draft's content is already fixed, so fixing it again changes nothing |
| Client.CreateIsFixedUpdate | substack_client.py:757-848 | a create stores the fixed-up version of the same content an update would send for that body, and an update sends the title, subtitle and cover image it was given and no body when none is given |
| Client.ImageMarkdown | substack_client.py:381-387 | a Markdown image line converts to exactly one image node with that source and alt, and no redirect |
| Client.ImageRedirectedOnlyOnCreate | substack_client.py:757-848 | the same image Markdown gets its redirect when a draft is created and keeps none when it is updated |
| Client.FirstWhere | substack_client.py:936-948 | finds the first line satisfying the test, and none when no line does |
| Client.ExtractTitle | substack_client.py:935-941 | the title is never empty, and a given non-empty title is kept |
| Client.TitleFromFirstHeading | substack_client.py:937-940 | without a given title, the first `# ` line gives the title |
| Client.UntitledWhenFirstHeadingEmpty | substack_client.py:936-941 | with no title given, a first `# ` line with empty text gives `Untitled`, even when a later `# ` line has text |
| Client.UntitledWithoutHeading | substack_client.py:941 | with no title given and no `# ` line, the title is `Untitled` |
| Client.ExtractSubtitle | substack_client.py:943-948 | a given non-empty subtitle is kept |
| Client.SubtitleFromFirstBoldLine | substack_client.py:944-948 | without a given subtitle, the first line starting and ending with `**` gives the stripped inner text |
| Client.Filter | substack_client.py:951-962 | the body never gains lines, keeps no title or subtitle line, and keeps only lines of the input |
| Client.FilterSubseq | substack_client.py:951-962 | the body lines appear in the input in the same order |
| Client.FilterKeepsOrdinary | substack_client.py:951-962 | a line that is neither title, subtitle nor rule stays in the body |
| Client.FilterWithoutRules | substack_client.py:951-962 | with no `---` lines, the body is exactly the input without title and subtitle lines |
| Client.FilterRuleBudget | substack_client.py:951-962 | at most one rule is dropped per subtitle line, plus one when a drop is pending |
| Client.SkipAfterDue | substack_client.py:951-960 | after reading some lines, `skip_next_hr` is set exactly when a subtitle line has no `---` line after it |
| Client.FilterAppend | substack_client.py:951-960 | filtering joined lines is filtering the first part and then the second with the flag the first part left |
| Client.RuleDroppedWhenDue | substack_client.py:951-960 | a `---` line is dropped exactly when a subtitle line comes before it with no other `---` line in between, and otherwise kept in place; the lines around it are filtered as usual |
| Client.RuleAfterSubtitleExample | substack_client.py:951-960 | on `**S**`, `---`, `x`, `---` with subtitle `S`, the first rule is dropped and the second kept |
| Client.PublishMarkdown | substack_client.py:924-967 | the draft has a non-empty title, keeps a given title and subtitle, has audience `everyone` and no cover image, and every image is redirected |
| Client.ExtractedTitleLineDropped | substack_client.py:936-955 | the line the title was read from is not in the body |
| Client.ExtractedSubtitleLineDropped | substack_client.py:944-958 | with the corrected test, the line the subtitle was read from is not in the body |
| Client.PaddedSubtitleKeptAsWritten | substack_client.py:944-958 | on `# T`, `**Sub **`, `body` the subtitle is `Sub` and the source's exact test keeps `**Sub **` in the body, while the corrected test drops it |
| Client.ExactLineIsInner | substack_client.py:956 | on an unpadded subtitle line the source's test and the corrected test agree |
| LiveBlog.Start | substack_client.py:1074-1093 | starting fails exactly when a session is active; otherwise the session is active with no updates, and the draft opens with the start note and a rule |
| LiveBlog.OpeningDraft | substack_client.py:1079-1086 | the draft a start creates holds the bold `Live Blog Started` note with the clock, then a rule |
| LiveBlog.AppendContent | substack_client.py:1095-1119 | an append fails with no session or when the content key is missing; otherwise the draft is the old content, a stamp and the new nodes, and the count goes up by one |
| LiveBlog.UpdateContent | substack_client.py:1121-1125 | an update appends one paragraph of the text |
| LiveBlog.CodeContent | substack_client.py:1127-1143 | code appends an optional `File:` line in code marks, then the code block |
| LiveBlog.MilestoneContent | substack_client.py:1145-1152 | a milestone appends a rule, a level-3 `Milestone:` heading and, when given, the description |
| LiveBlog.ImageContent | substack_client.py:1154-1158 | an image appends one captioned image without alt or redirect |
| LiveBlog.End | substack_client.py:1160-1197 | ending fails with no session or an unreadable-content error; otherwise the draft is the stored content, a stamp, a rule, the `Live Blog Ended` note and the duration and update line; the report carries the incremented count, the duration (`unknown` without a start time) and the URL exactly when published; the session is left idle |
| LiveBlog.ApplyValid | substack_client.py:1063-1197 | every session method preserves the session invariant |
| LiveBlog.RunValid | substack_client.py:1063-1197 | any sequence of calls preserves the session invariant |
| LiveBlog.AppendsCount | substack_client.py:1095-1119 | n successful appends raise the update count by exactly n and change nothing else |
| LiveBlog.RefusedCalls | substack_client.py:1076-1077 | start on an active session, and any other call on an idle session, leave the session unchanged |
| LiveBlog.StartAppendEnd | substack_client.py:1074-1197 | start, appends and end form a full life cycle that reports the number of appends plus the closing one and returns to idle |
| LiveBlog.EndCountsClosing | substack_client.py:1169-1189 | the closing note shows the count before the closing append, while the report counts it |
| Server.SectionHeading | substack_mcp/server.py:251-260 | a heading is added exactly when a non-empty section title is given, at level 3, with the time in parentheses when asked for |
| Server.CodeBlockNodes | substack_mcp/server.py:289-303 | the code block comes after an optional file line and before an optional italic caption |
| Server.ImageNode | substack_mcp/server.py:324-336 | the image carries the url and alt, and has a caption child exactly when the caption is non-empty |
| Server.CallTool | substack_mcp/server.py:196-427 | without a client every tool is refused and the state is unchanged; the publication never changes; an error changes nothing; only the live-blog tools change the state |
| Server.SectionsCount | substack_mcp/server.py:264-271 | the section total is the old headings, plus one for a section title, plus the converted headings |
| Server.AppendComposition | substack_mcp/server.py:237-272 | appended content is the old content, then the section heading, then the converted Markdown, and the reported section count matches it |
| Server.UnreadableBodyDiscarded | substack_mcp/server.py:243-249 | when the stored body cannot be read, an append replaces the draft with the new content alone |
| Server.MissingContentFails | substack_mcp/server.py:426-427 | a stored body without `content` makes every appending tool fail with the key error and change nothing |
| Server.CodeBlockAppends | substack_mcp/server.py:274-308 | adding code appends its nodes after the old content |
| Server.ImageAppends | substack_mcp/server.py:310-341 | adding an image appends one image node after the old content |
| Server.LiveStartReplaces | substack_mcp/server.py:367-389 | starting a live blog always records a new session with zero updates, replacing any earlier one |
| Server.LiveEndClears | substack_mcp/server.py:391-419 | ending without a session is refused; otherwise the closing line is appended and the session is cleared |
| Server.LiveStartThenEnd | substack_mcp/server.py:367-419 | a start followed by an end leaves no live session |
| Server.OtherToolsKeepSession | substack_mcp/server.py:207-341 | tools other than the live-blog ones never touch the live session |
| Server.UnknownToolRefused | substack_mcp/server.py:207-422 | a name outside the eleven tools the server dispatches is answered with `Unknown tool: <name>` and changes nothing |

## Left out

- HTTP, sessions, cookies, rate limiting, retries and JSON serialisation. These are I/O. A remote answer is a parameter: the draft id from a create, the stored body from a read, the canonical URL from a publish.
- `publish_draft`, `upload_image`, `post_note`, `get_drafts`, `get_posts` and the archive readers. These are remote calls with no content logic of their own. `Client.PublishMarkdown` stops at the `create_draft` call.
- The server's `publish`, `post_note`, `get_drafts` and `get_posts` tools, `list_tools`, the resources, `init_client` and the entry point. They forward to remote calls or only describe the tools.
- The `youtube` and `twitter` builder methods beyond adding a block. Their attribute bags are opaque to the content logic.
- The constant `image2` attributes. `image()` also sets `srcNoWatermark`, `fullscreen`, `imageSize`, `resizeWidth`, `title`, `href`, `belowTheFold`, `topImage`, `isProcessing`, `align` and `offset` to fixed values, which no operation reads or changes, so `Document.ImageAttrs` leaves them out. The server's `add_image` node (`src`, `alt`, `title`, `fullscreen`, `height`, `width`) has no `bytes`, `type` or `internalRedirect` keys; the model gives those as absent (`None`), which the fixup reads the same way.
- `BitcoinIntegration`. It is outside the content core.
- Clocks. `strftime` results and the live-blog duration text are string parameters, so a zero duration read as "unknown" by the source is the caller's choice of that parameter.
- Character classes. `\s`, `\d` and `\w` are modelled on ASCII; Python's Unicode classes are wider.
- Shared mutable dictionaries. The model copies values where the source mutates lists and dicts in place, such as the fixup loop and the live blog's `current_content`.
- The shape of a stored draft body. JSON that parses to something other than an object with `content` is folded into the two cases the code distinguishes: an unreadable body, treated as empty, and a missing `content`, which raises the key error.
- Remote failures other than a missing `content` key. Those exceptions are only turned into an error message.
- A missing `url` argument to `add_image` (`None`). The url is a string in the model.
- Client.ExtractSubtitle: it states only that a given subtitle is kept. The subtitle read from the lines is characterised by `Client.SubtitleFromFirstBoldLine`.
- Inline.ParseInline: a match the source misclassifies, such as `*a` in the line `**a*`, is read by the alternative that matched (italic `*a`), where the source emits a strong node with text `None` (see Findings).
- Markdown.ConvertDoc: it reads inline text with the corrected `Inline.ParseInline`, so it does not reproduce the strong node with text `None`; so do `Client.CreateDraft` and `Client.UpdateDraft` given Markdown, `Client.PublishMarkdown` and `Server.AppendComposition`.
- Client.PublishMarkdown: it uses the corrected subtitle test (see Findings), not the source's exact comparison.
- Server.UnknownToolRefused: it covers names outside the eleven dispatched tools; the tool datatype cannot carry a dispatched name as unknown.
- Redirect.ExampleRedirect: it uses a short source. A long worked URL is not stated as a concrete example, because Dafny's string evaluation makes long literals costly; `Redirect.RedirectCarriesSource` covers every source.
- Server.CallTool: `arguments.get` defaults are assumed to be filled in by the caller, so the tool datatype carries plain values.

## Findings

| source | as written | input that shows it | evidently intended | confidence | as-written member | corrected member |
|---|---|---|---|---|---|---|
| substack_client.py:451-467 | a match is classified bold whenever its text starts with `**`, and group 2 is read as the text | the line `**a*`: bold finds no closing `**`, the `*` italic alternative matches with group 3 = `*a`, and the node gets text `None` | classify by the alternative that matched, giving italic `*a` | medium, not executed | Inline.HitAsWritten, Inline.StarItalicMisreadAsBold | Inline.TokenNode, Inline.ParseInline |
| substack_client.py:944-958 | the subtitle is read as the stripped inner text of a bold line, but that line is dropped only if it equals `**<subtitle>**` exactly | lines `# T`, `**Sub **`, `body`: the subtitle is `Sub` and `**Sub **` stays in the body | drop the line the subtitle was read from | medium, not executed | Client.PaddedSubtitleKeptAsWritten | Client.ExtractedSubtitleLineDropped, Client.PublishMarkdown |
