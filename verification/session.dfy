/**
 * `LiveBlogSession` (substack_client.py): a session is idle or attached to
 * one draft, and every update fetches the draft, appends a timestamp and the
 * new nodes to its body and sends it back.
 *
 * Clock readings (`datetime.now()` formatted by `strftime`, and the session
 * duration) are parameters; so are the service's answers: the id of the
 * draft `start` creates, the stored body an append reads, and the URL
 * `end` publishes to.
 */
module LiveBlog {
  import opened Wrappers
  import opened Text
  import opened Document
  import opened Client

  /** The session's fields; it is active exactly when `draftId` is set. */
  datatype Session = Session(draftId: Option<int>, title: string, updateCount: int, startedAt: Option<string>)

  /** A new session, and the state `end` returns to. */
  const Idle: Session := Session(None, "", 0, None)

  predicate Active(s: Session) {
    s.draftId.Some?
  }

  /** What the methods keep true: an idle session is the fresh one, an active one has a start time. */
  predicate Valid(s: Session) {
    s.updateCount >= 0 && (Active(s) ==> s.startedAt.Some?) && (!Active(s) ==> s == Idle)
  }

  const AlreadyActive: string := "Session already active"
  const NotActive: string := "No active session"

  /** The builder calls `start` makes: a paragraph "**Live Blog Started** at <clock>", then a rule. */
  function OpeningCalls(clock: string): seq<Block> {
    [ParagraphCall([NodePart(Bold("Live Blog Started")), Str(" at " + clock)]), HorizontalRuleCall]
  }

  /** The builder calls of `start` give the announcement paragraph and a rule. */
  lemma OpeningBuilt(clock: string)
    ensures AddAll(EmptyBuilder, OpeningCalls(clock)).content
            == [Paragraph([Bold("Live Blog Started"), Plain(" at " + clock)]), HorizontalRule]
  {
    AddAllContent(EmptyBuilder, OpeningCalls(clock));
    assert PartNodes([NodePart(Bold("Live Blog Started")), Str(" at " + clock)])
           == [Bold("Live Blog Started"), Plain(" at " + clock)];
  }

  /** The draft `start` creates opens with the announcement paragraph and a rule. */
  lemma OpeningDraft(publication: string, title: string, subtitle: string, clock: string, draftId: int)
    ensures CreateDraft(publication, title, Built(AddAll(EmptyBuilder, OpeningCalls(clock))),
                        subtitle, "everyone", None, draftId).content
            == [Paragraph([Bold("Live Blog Started"), Plain(" at " + clock)]), HorizontalRule]
  {
    var body := Built(AddAll(EmptyBuilder, OpeningCalls(clock)));
    assert BodyContent(body).GetOr([])
           == [Paragraph([Bold("Live Blog Started"), Plain(" at " + clock)]), HorizontalRule] by {
      OpeningBuilt(clock);
    }
    CreatedWithoutImages(publication, title, body, subtitle, "everyone", None, draftId);
  }

  /**
   * `start`: refuses an active session; otherwise creates a draft opening
   * with "Live Blog Started" and a rule, and attaches to it with no updates.
   * `clock` is the start time as `%I:%M %p`, `now` the recorded start.
   */
  function Start(s: Session, publication: string, title: string, subtitle: string,
                 clock: string, now: string, draftId: int): (r: Result<(Session, Draft)>)
    ensures Active(s) <==> r.Failure?
    ensures r.Failure? ==> r.error == AlreadyActive
    ensures r.Success? ==> var (t, d) := r.value;
              && t == Session(Some(draftId), title, 0, Some(now)) && Valid(t)
              && d.id == draftId && d.title == title && d.subtitle == subtitle
              && d.content == [Paragraph([Bold("Live Blog Started"), Plain(" at " + clock)]), HorizontalRule]
  {
    if Active(s) then Failure(AlreadyActive)
    else
      var doc := AddAll(EmptyBuilder, OpeningCalls(clock));
      OpeningDraft(publication, title, subtitle, clock, draftId);
      Success((Session(Some(draftId), title, 0, Some(now)),
               CreateDraft(publication, title, Built(doc), subtitle, "everyone", None, draftId)))
  }

  /** The code-marked `[%I:%M:%S %p]` paragraph put before every update. */
  function StampParagraph(stamp: string): Node {
    Paragraph([InlineCode("[" + stamp + "]")])
  }

  /**
   * `_append_content`: refuses an idle session; otherwise the draft's stored
   * content, a timestamp and `content`, in that order, are written back and
   * the update count goes up by one.  A read failure changes nothing.
   */
  function AppendContent(s: Session, stored: StoredBody, stamp: string, content: seq<Node>): (r: Result<(Session, seq<Node>)>)
    ensures !Active(s) ==> r == Failure(NotActive)
    ensures Active(s) && CurrentContent(stored).Failure? ==> r == Failure(CurrentContent(stored).error)
    ensures r.Success? <==> Active(s) && CurrentContent(stored).Success?
    ensures r.Success? ==> var (t, written) := r.value; var before := CurrentContent(stored).value;
              && t == s.(updateCount := s.updateCount + 1)
              && |written| == |before| + 1 + |content|
              && written[..|before|] == before
              && written[|before|] == StampParagraph(stamp)
              && written[|before| + 1..] == content
  {
    if !Active(s) then Failure(NotActive)
    else
      match CurrentContent(stored)
      case Failure(e) => Failure(e)
      case Success(before) =>
        var written := before + [StampParagraph(stamp)] + content;
        assert written[|before| + 1..] == content;
        Success((s.(updateCount := s.updateCount + 1), written))
  }

  /** `add_update(text)`: one paragraph holding the text. */
  function UpdateContent(text: string): (r: seq<Node>)
    ensures r == [Paragraph([Plain(text)])]
  {
    assert ParagraphOf([Str(text)]).content == [Plain(text)];
    Build(Add(EmptyBuilder, ParagraphCall([Str(text)]))).content
  }

  /** `add_code`: a code-marked `File: ...` paragraph when a filename is given, then the code block. */
  function CodeContent(code: string, language: string, filename: string): (r: seq<Node>)
    ensures |r| == (if filename != "" then 2 else 1)
    ensures r[|r| - 1] == CodeBlockOf(code, language)
    ensures filename != "" ==> r[0] == Paragraph([InlineCode("File: " + filename)])
  {
    (if filename != "" then [Paragraph([InlineCode("File: " + filename)])] else [])
    + [CodeBlockOf(code, language)]
  }

  /** `add_milestone`: a rule, a level-3 "Milestone: ..." heading, and the description when there is one. */
  function MilestoneContent(title: string, description: string): (r: seq<Node>)
    ensures |r| == (if description != "" then 3 else 2)
    ensures r[0] == HorizontalRule && r[1] == Heading(3, [Plain("Milestone: " + title)])
    ensures description != "" ==> r[2] == Paragraph([Plain(description)])
  {
    var calls := [HorizontalRuleCall, HeadingCall("Milestone: " + title, 3)]
                 + (if description != "" then [ParagraphCall([Str(description)])] else []);
    AddAllContent(EmptyBuilder, calls);
    assert ParagraphOf([Str(description)]).content == [Plain(description)];
    var r := Build(AddAll(EmptyBuilder, calls)).content;
    assert description != "" ==> r[2] == NodeFor(calls[2]);
    r
  }

  /** `add_image`: one captioned image; the caption is passed on to `image`, which drops it. */
  function ImageContent(url: string, caption: string): (r: seq<Node>)
    ensures |r| == 1 && r[0] == CaptionedImage([Image2(ImageAttrs(url, None, None, None, None, None, None))])
  {
    Build(Add(EmptyBuilder, ImageCall(url, None, Some(caption), None, None, None, None))).content
  }

  /** The closing nodes of `end`; the paragraph reports the updates made before it. */
  function ClosingContent(clock: string, duration: string, updates: int): seq<Node> {
    [HorizontalRule,
     Paragraph([Bold("Live Blog Ended"), Plain(" at " + clock)]),
     Paragraph([Plain("Duration: " + duration + " | Updates: " + IntToString(updates))])]
  }

  /** The dictionary `end` returns; `url` is present only when the draft was published. */
  datatype EndReport = EndReport(draftId: int, updateCount: int, duration: string, published: bool, url: Option<string>)

  /**
   * `end`: refuses an idle session; otherwise appends the closing nodes,
   * publishes when asked, and returns to the idle state.  `duration` is the
   * formatted time since the start; without a start time it is "unknown".
   * `canonicalUrl` is the URL the publish call answered with.
   */
  function End(s: Session, stored: StoredBody, stamp: string, clock: string, duration: string,
               publish: bool, canonicalUrl: string): (r: Result<(Session, EndReport, seq<Node>)>)
    ensures !Active(s) ==> r == Failure(NotActive)
    ensures r.Success? <==> Active(s) && CurrentContent(stored).Success?
    ensures r.Success? ==> var (t, report, written) := r.value;
              && t == Idle
              && report.draftId == s.draftId.value
              && report.updateCount == s.updateCount + 1
              && report.published == publish
              && report.url == (if publish then Some(canonicalUrl) else None)
              && report.duration == (if s.startedAt.Some? then duration else "unknown")
              && written == CurrentContent(stored).value + [StampParagraph(stamp)]
                            + ClosingContent(clock, report.duration, s.updateCount)
  {
    if !Active(s) then Failure(NotActive)
    else
      var d := if s.startedAt.Some? then duration else "unknown";
      var appended :- AppendContent(s, stored, stamp, ClosingContent(clock, d, s.updateCount));
      var report := EndReport(s.draftId.value, appended.0.updateCount, d, publish,
                              if publish then Some(canonicalUrl) else None);
      Success((Idle, report, appended.1))
  }

  // --- The session as a state machine ---

  /** One method call on a session. */
  datatype Call =
    | StartCall(title: string, subtitle: string)
    | UpdateCall(text: string)
    | CodeCall(code: string, language: string, filename: string)
    | MilestoneCall(title: string, description: string)
    | ImageAddCall(url: string, caption: string)
    | EndCall(publish: bool)

  predicate IsAppend(c: Call) {
    c.UpdateCall? || c.CodeCall? || c.MilestoneCall? || c.ImageAddCall?
  }

  /** What the outside world answers during one call: clock readings and the service's replies. */
  datatype World = World(publication: string, clock: string, stamp: string, now: string, duration: string,
                         draftId: int, stored: StoredBody, canonicalUrl: string)

  /** The nodes an appending call adds after its timestamp. */
  function AppendedBy(c: Call): seq<Node>
    requires IsAppend(c)
  {
    match c
    case UpdateCall(text) => UpdateContent(text)
    case CodeCall(code, language, filename) => CodeContent(code, language, filename)
    case MilestoneCall(title, description) => MilestoneContent(title, description)
    case ImageAddCall(url, caption) => ImageContent(url, caption)
  }

  /** The session after one call; a call that raises leaves it as it was. */
  function Apply(s: Session, c: Call, w: World): Session {
    match c
    case StartCall(title, subtitle) =>
      var r := Start(s, w.publication, title, subtitle, w.clock, w.now, w.draftId);
      if r.Success? then r.value.0 else s
    case EndCall(publish) =>
      var r := End(s, w.stored, w.stamp, w.clock, w.duration, publish, w.canonicalUrl);
      if r.Success? then r.value.0 else s
    case _ =>
      var r := AppendContent(s, w.stored, w.stamp, AppendedBy(c));
      if r.Success? then r.value.0 else s
  }

  /** Every call keeps a valid session valid. */
  lemma ApplyValid(s: Session, c: Call, w: World)
    requires Valid(s)
    ensures Valid(Apply(s, c, w))
  {
  }

  /** A session after a sequence of calls. */
  function Run(s: Session, calls: seq<Call>, worlds: seq<World>): Session
    requires |calls| == |worlds|
    decreases |calls|
  {
    if |calls| == 0 then s else Run(Apply(s, calls[0], worlds[0]), calls[1..], worlds[1..])
  }

  /** However the calls go, a session that starts valid stays valid. */
  lemma {:induction false} RunValid(s: Session, calls: seq<Call>, worlds: seq<World>)
    requires |calls| == |worlds| && Valid(s)
    ensures Valid(Run(s, calls, worlds))
    decreases |calls|
  {
    if |calls| > 0 {
      ApplyValid(s, calls[0], worlds[0]);
      RunValid(Apply(s, calls[0], worlds[0]), calls[1..], worlds[1..]);
    }
  }

  /** A stored body an append can read. */
  predicate Readable(b: StoredBody) {
    CurrentContent(b).Success?
  }

  /**
   * On an active session, appends that can read the draft each count exactly
   * once: the update count grows by the number of calls, and the session
   * stays attached to the same draft.
   */
  lemma {:induction false} AppendsCount(s: Session, calls: seq<Call>, worlds: seq<World>)
    requires |calls| == |worlds| && Active(s)
    requires forall k :: 0 <= k < |calls| ==> IsAppend(calls[k]) && Readable(worlds[k].stored)
    ensures Run(s, calls, worlds) == s.(updateCount := s.updateCount + |calls|)
    decreases |calls|
  {
    if |calls| > 0 {
      var t := Apply(s, calls[0], worlds[0]);
      assert t == s.(updateCount := s.updateCount + 1);
      assert forall k :: 0 <= k < |calls| - 1 ==> calls[1..][k] == calls[k + 1] && worlds[1..][k] == worlds[k + 1];
      AppendsCount(t, calls[1..], worlds[1..]);
    }
  }

  /** A start on an active session, and any other call on an idle one, changes nothing. */
  lemma RefusedCalls(s: Session, c: Call, w: World)
    ensures Active(s) && c.StartCall? ==> Apply(s, c, w) == s
    ensures !Active(s) && !c.StartCall? ==> Apply(s, c, w) == s
  {
  }

  /** Start, appends that can read the draft, then end: the session is idle again and the report counts them all. */
  lemma StartAppendEnd(publication: string, title: string, subtitle: string, clock: string, now: string,
                       draftId: int, calls: seq<Call>, worlds: seq<World>,
                       stored: StoredBody, stamp: string, duration: string, publish: bool, url: string)
    requires |calls| == |worlds| && Readable(stored)
    requires forall k :: 0 <= k < |calls| ==> IsAppend(calls[k]) && Readable(worlds[k].stored)
    ensures var started := Start(Idle, publication, title, subtitle, clock, now, draftId);
            && started.Success?
            && var s := Run(started.value.0, calls, worlds);
               var ended := End(s, stored, stamp, clock, duration, publish, url);
               && ended.Success?
               && ended.value.0 == Idle
               && ended.value.1.draftId == draftId
               && ended.value.1.updateCount == |calls| + 1
  {
    var started := Start(Idle, publication, title, subtitle, clock, now, draftId);
    AppendsCount(started.value.0, calls, worlds);
  }

  /**
   * The closing paragraph reports the updates made before it, while the
   * returned count includes the closing append itself.
   */
  lemma EndCountsClosing(s: Session, stored: StoredBody, stamp: string, clock: string, duration: string,
                         publish: bool, url: string)
    requires Valid(s) && Active(s) && Readable(stored)
    ensures var r := End(s, stored, stamp, clock, duration, publish, url);
            && r.Success?
            && r.value.1.updateCount == s.updateCount + 1
            && r.value.2[|r.value.2| - 1] == Paragraph([Plain("Duration: " + duration + " | Updates: " + IntToString(s.updateCount))])
  {
    var before := CurrentContent(stored).value;
    var closing := ClosingContent(clock, duration, s.updateCount);
    var a := AppendContent(s, stored, stamp, closing);
    assert a.value.1[|before| + 1..] == closing;
    assert a.value.1[|a.value.1| - 1] == closing[2];
  }
}
