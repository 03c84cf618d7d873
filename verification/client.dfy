/**
 * The content logic of `SubstackClient` (substack_client.py) that sits in
 * front of its network calls: the publication host it keeps, the body it
 * sends when a draft is created or updated, and the title, subtitle and body
 * that `publish_markdown` cuts out of a Markdown text.
 *
 * The remote service is not modelled: the draft id that the first POST of
 * `create_draft` returns is a parameter, and each operation returns the
 * request contents it would send.
 */
module Client {
  import opened Wrappers
  import opened Text
  import opened Document
  import opened Markdown
  import opened Redirect

  // --- The publication host ---

  /** `publication.replace("https://", "").replace("http://", "")` */
  function NormalizeHost(publication: string): string {
    RemoveAll(RemoveAll(publication, "https://"), "http://")
  }

  /** `pat` occurs in `s` starting at index `i`. */
  predicate OccursAt(s: string, pat: string, i: nat) {
    i + |pat| <= |s| && s[i..i + |pat|] == pat
  }

  /** Text in which the pattern never occurs is left as it is by `replace(pat, "")`. */
  lemma {:induction false} RemoveAllNoMatch(s: string, pat: string)
    requires |pat| > 0
    requires forall i: nat :: !OccursAt(s, pat, i)
    ensures RemoveAll(s, pat) == s
    decreases |s|
  {
    if |s| >= |pat| {
      assert !OccursAt(s, pat, 0);
      assert s[..|pat|] == s[0..0 + |pat|];
      forall i: nat ensures !OccursAt(s[1..], pat, i) {
        assert !OccursAt(s, pat, i + 1);
        if i + |pat| <= |s[1..]| {
          assert s[1..][i..i + |pat|] == s[i + 1..i + 1 + |pat|];
        }
      }
      RemoveAllNoMatch(s[1..], pat);
      assert s == [s[0]] + s[1..];
    }
  }

  /** A pattern holding a character the text lacks never occurs in it. */
  lemma NoMatchWithout(s: string, pat: string, c: char)
    requires c in pat && c !in s
    ensures forall i: nat :: !OccursAt(s, pat, i)
  {
  }

  /** Neither scheme occurs anywhere in `host`. */
  ghost predicate SchemeFree(host: string) {
    forall i: nat :: !OccursAt(host, "https://", i) && !OccursAt(host, "http://", i)
  }

  /** A host name without `:` (a port included) is scheme-free. */
  lemma ColonFreeIsSchemeFree(host: string)
    requires ':' !in host
    ensures SchemeFree(host)
  {
    assert "https://"[5] == ':' && "http://"[4] == ':';
    NoMatchWithout(host, "https://", ':');
    NoMatchWithout(host, "http://", ':');
  }

  /** Removing a pattern that occurs makes the text strictly shorter. */
  lemma {:induction false} RemoveAllShrinks(s: string, pat: string, i: nat)
    requires |pat| > 0 && OccursAt(s, pat, i)
    ensures |RemoveAll(s, pat)| < |s|
    decreases |s|
  {
    if s[..|pat|] != pat {
      assert i > 0;
      assert s[1..][i - 1..i - 1 + |pat|] == s[i..i + |pat|];
      RemoveAllShrinks(s[1..], pat, i - 1);
    }
  }

  /** Normalisation leaves a host as it is exactly when no scheme occurs in it. */
  lemma NormalizeCleanHost(host: string)
    ensures NormalizeHost(host) == host <==> SchemeFree(host)
  {
    if SchemeFree(host) {
      RemoveAllNoMatch(host, "https://");
      RemoveAllNoMatch(host, "http://");
    } else if j: nat :| OccursAt(host, "https://", j) {
      RemoveAllShrinks(host, "https://", j);
    } else {
      var i: nat :| OccursAt(host, "http://", i);
      RemoveAllNoMatch(host, "https://");
      RemoveAllShrinks(host, "http://", i);
    }
  }

  /** An `https://` cannot fit into `http://` followed by a scheme-free host. */
  lemma HttpsNotInHttp(host: string)
    requires SchemeFree(host)
    ensures forall i: nat :: !OccursAt("http://" + host, "https://", i)
  {
    var t := "http://" + host;
    forall i: nat ensures !OccursAt(t, "https://", i) {
      if i + 8 <= |t| {
        if i == 0 {
          assert t[i..i + 8][4] == t[4] == ':';
        } else if i < 7 {
          assert t[i..i + 8][0] == t[i] != 'h';
        } else {
          assert t[i..i + 8] == host[i - 7..i - 7 + 8];
          assert !OccursAt(host, "https://", i - 7);
        }
      }
    }
  }

  /** A scheme in front of a scheme-free host name is dropped, whichever of the two it is. */
  lemma NormalizeSchemeHost(host: string)
    requires SchemeFree(host)
    ensures NormalizeHost("https://" + host) == host
    ensures NormalizeHost("http://" + host) == host
  {
    var s := "https://" + host;
    assert s[..8] == "https://" && s[8..] == host;
    RemoveAllNoMatch(host, "https://");
    RemoveAllNoMatch(host, "http://");
    var t := "http://" + host;
    HttpsNotInHttp(host);
    RemoveAllNoMatch(t, "https://");
    assert t[..7] == "http://" && t[7..] == host;
  }

  // --- Draft bodies ---

  /** The `body` argument of `create_draft` and `update_draft`. */
  datatype Body =
    | /** A `SubstackDocument`, sent as its `build()`. */ Built(doc: DocBuilder)
    | /** A `str`, read as Markdown by `convert`. */ MarkdownText(markdown: string)
    | /** A `dict` sent as it is: a document whose `content` key may be missing. */ Tree(content: Option<seq<Node>>)

  /** The `content` of the JSON body a `body` argument stands for. */
  function BodyContent(body: Body): Option<seq<Node>> {
    match body
    case Built(d) => Some(Build(d).content)
    case MarkdownText(md) => Some(ConvertDoc(md).content)
    case Tree(c) => c
  }

  /** A created draft, as `create_draft` returns it; `content` is the body it stored. */
  datatype Draft = Draft(id: int, title: string, subtitle: string, content: seq<Node>,
                         audience: string, coverImage: string)

  /**
   * `create_draft`: the body the draft finally holds, the given one with every
   * pending image redirected through the new draft.  `draftId` is the id the
   * service answered with; the first request, which creates the draft with a
   * `...` placeholder body, is remote and not modelled.
   */
  function CreateDraft(publication: string, title: string, body: Body, subtitle: string,
                       audience: string, coverImage: Option<string>, draftId: int): (r: Draft)
    ensures r.id == draftId && r.title == title && r.subtitle == subtitle && r.audience == audience
    ensures coverImage.None? ==> r.coverImage == ""
    ensures coverImage.Some? ==> r.coverImage == coverImage.value
    ensures |r.content| == |BodyContent(body).GetOr([])|
    ensures !Pending(r.content)
    ensures forall k :: 0 <= k < |r.content| && !BodyContent(body).GetOr([])[k].CaptionedImage?
              ==> r.content[k] == BodyContent(body).GetOr([])[k]
  {
    var content := BodyContent(body).GetOr([]);
    FixupCompletes(publication, draftId, content);
    Draft(draftId, title, subtitle, Fixup(publication, draftId, content), audience, coverImage.GetOr(""))
  }

  /** A body without images is stored exactly as given: the fixup has nothing to do. */
  lemma CreatedWithoutImages(publication: string, title: string, body: Body, subtitle: string,
                             audience: string, coverImage: Option<string>, draftId: int)
    requires forall k :: 0 <= k < |BodyContent(body).GetOr([])| ==> !BodyContent(body).GetOr([])[k].CaptionedImage?
    ensures CreateDraft(publication, title, body, subtitle, audience, coverImage, draftId).content
            == BodyContent(body).GetOr([])
  {
    var content := BodyContent(body).GetOr([]);
    var d := CreateDraft(publication, title, body, subtitle, audience, coverImage, draftId);
    assert forall k :: 0 <= k < |content| ==> d.content[k] == content[k];
  }

  /** The body a created draft stores is settled: fixing it again for the same draft changes nothing. */
  lemma CreatedDraftSettled(publication: string, title: string, body: Body, subtitle: string,
                            audience: string, coverImage: Option<string>, draftId: int)
    ensures var d := CreateDraft(publication, title, body, subtitle, audience, coverImage, draftId);
            Fixup(publication, draftId, d.content) == d.content
  {
    FixupIdempotent(publication, draftId, BodyContent(body).GetOr([]));
  }

  /** The fields an `update_draft` call sends: each is present exactly when its argument is not `None`. */
  datatype UpdateRequest = UpdateRequest(title: Option<string>, subtitle: Option<string>,
                                         coverImage: Option<string>, body: Option<Option<seq<Node>>>)

  /** `update_draft`: the body is converted like in `create_draft`, but no redirect is filled in. */
  function UpdateDraft(title: Option<string>, body: Option<Body>, subtitle: Option<string>,
                       coverImage: Option<string>): UpdateRequest
  {
    UpdateRequest(title, subtitle, coverImage,
                  if body.Some? then Some(BodyContent(body.value)) else None)
  }

  /**
   * `create_draft` stores what `update_draft` would send for the same body,
   * with the fixup applied for the new draft (a body without `content` is
   * stored as empty); the other fields of an update are sent exactly when given.
   */
  lemma CreateIsFixedUpdate(publication: string, title: string, body: Body, subtitle: string,
                            audience: string, coverImage: Option<string>, draftId: int)
    ensures var sent := UpdateDraft(None, Some(body), None, None).body.value;
            CreateDraft(publication, title, body, subtitle, audience, coverImage, draftId).content
            == Fixup(publication, draftId, sent.GetOr([]))
    ensures forall t: Option<string>, s: Option<string>, c: Option<string> ::
              var u := UpdateDraft(t, None, s, c);
              u.title == t && u.subtitle == s && u.coverImage == c && u.body.None?
  {
  }

  /** A text without the separator splits into itself alone. */
  lemma {:induction false} SplitWithout(s: string, sep: char)
    requires sep !in s
    ensures Split(s, sep) == [s]
    decreases |s|
  {
    if |s| > 0 {
      assert forall c :: c in s[1..] ==> c in s;
      SplitWithout(s[1..], sep);
      assert [s[0]] + s[1..] == s;
    }
  }

  /** A Markdown image line is its own strip and is classified as an image line. */
  lemma ImageLineClassified(alt: string, src: string)
    requires ']' !in alt && ')' !in src && |src| > 0
    requires '\n' !in alt && '\n' !in src
    ensures var s := "![" + alt + "](" + src + ")";
            '\n' !in s && Strip(s) == s && Classify(s) == ImageLine(alt, src)
  {
    var s := "![" + alt + "](" + src + ")";
    assert '\n' !in s by {
      assert forall c :: c in s ==> c in "![" || c in alt || c in "](" || c in src || c in ")";
    }
    assert Strip(s) == s by {
      assert s[0] == '!' && s[|s| - 1] == ')';
      StripClean(s);
    }
    assert MatchImage(s) == Some((alt, src)) by { MatchImageComplete(alt, src); }
    assert LeadingHashes(s) == 0 by { assert s[0] != '#'; }
    assert !StartsWith(s, "```") by { assert s[0] != "```"[0]; }
    assert MatchHeading(s).None?;
    assert !IsRule(s) by { assert s[0] == '!'; }
  }

  /** A one-line input whose line is a stripped image line converts to that image alone. */
  lemma ImageLineDoc(s: string, alt: string, src: string)
    requires '\n' !in s && Strip(s) == s && Classify(s) == ImageLine(alt, src)
    ensures ConvertDoc(s).content == [ImageOf(src, Some(alt), None, None, None, None, None)]
  {
    assert Split(s, '\n') == [s] by { SplitWithout(s, '\n'); }
    StepOneLine([s]);
    BlocksUnfold([s]);
    assert [s][1..] == [];
  }

  /** A Markdown image line on its own converts to exactly one image with no redirect. */
  lemma ImageMarkdown(alt: string, src: string)
    requires ']' !in alt && ')' !in src && |src| > 0
    requires '\n' !in alt && '\n' !in src
    ensures ConvertDoc("![" + alt + "](" + src + ")").content
            == [ImageOf(src, Some(alt), None, None, None, None, None)]
  {
    ImageLineClassified(alt, src);
    ImageLineDoc("![" + alt + "](" + src + ")", alt, src);
  }

  /** The fixup of a body holding one pending image fills in that image's redirect. */
  lemma FixupOneImage(publication: string, draftId: int, attrs: ImageAttrs)
    requires |attrs.src| > 0 && RedirectUnset(attrs)
    ensures Fixup(publication, draftId, [CaptionedImage([Image2(attrs)])])
            == [CaptionedImage([Image2(attrs.(internalRedirect := Some(RedirectUrl(publication, draftId, attrs.src))))])]
  {
    var c := CaptionedImage([Image2(attrs)]);
    var fc := FixChildren(publication, draftId, c.content);
    assert |fc| == 1 && fc[0] == FixChild(publication, draftId, c.content[0]);
    assert fc == [fc[0]];
    var n := Fixup(publication, draftId, [c]);
    assert |n| == 1 && n[0] == FixNode(publication, draftId, c);
    assert n == [n[0]];
  }

  /**
   * Markdown images are redirected when a draft is created from them, and
   * left without a redirect when they are sent by `update_draft`.
   */
  lemma ImageRedirectedOnlyOnCreate(publication: string, draftId: int, alt: string, src: string)
    requires ']' !in alt && ')' !in src && |src| > 0
    requires '\n' !in alt && '\n' !in src
    ensures var body := MarkdownText("![" + alt + "](" + src + ")");
            && CreateDraft(publication, "", body, "", "everyone", None, draftId).content
               == [CaptionedImage([Image2(ImageAttrs(src, Some(alt), None, None, None, None,
                                                     Some(RedirectUrl(publication, draftId, src))))])]
            && UpdateDraft(None, Some(body), None, None).body
               == Some(Some([CaptionedImage([Image2(ImageAttrs(src, Some(alt), None, None, None, None, None))])]))
  {
    ImageMarkdown(alt, src);
    FixupOneImage(publication, draftId, ImageAttrs(src, Some(alt), None, None, None, None, None));
  }

  // --- Reading a stored body back ---

  /**
   * The `draft_body` of a fetched draft as the read-modify-write code sees it
   * after `json.loads`.  A missing key is read as `"{}"`, which parses to a
   * document without `content`.
   */
  datatype StoredBody =
    | /** `null`, or text that is not JSON: parsing raises and an empty document is used instead. */ Unreadable
    | /** JSON; `None` when it has no `content` list, as for a missing `draft_body`. */ Parsed(content: Option<seq<Node>>)

  /** A draft whose data has no `draft_body` key. */
  const MissingBody: StoredBody := Parsed(None)

  /** Python's message for the `KeyError` raised by `body_json["content"]`. */
  const NoContentError: string := "'content'"

  /**
   * The content an append starts from: the stored content, nothing at all for
   * an unreadable body (whatever was stored is lost), and a `KeyError` when
   * the parsed body has no content list.
   */
  function CurrentContent(b: StoredBody): Result<seq<Node>>
  {
    match b
    case Unreadable => Success([])
    case Parsed(Some(c)) => Success(c)
    case Parsed(None) => Failure(NoContentError)
  }

  // --- Front matter of `publish_markdown` ---

  /** `markdown.strip().split('\n')` */
  function SourceLines(markdown: string): seq<string> {
    Split(Strip(markdown), '\n')
  }

  /** `line.startswith('# ')` */
  predicate IsTitleLine(line: string) {
    StartsWith(line, "# ")
  }

  /** `line[2:].strip()` of a title line. */
  function TitleText(line: string): string
    requires IsTitleLine(line)
  {
    Strip(line[2..])
  }

  /** `line.startswith('**') and line.endswith('**')` */
  predicate IsBoldLine(line: string) {
    StartsWith(line, "**") && EndsWith(line, "**")
  }

  /** `line[2:-2]`, which is empty when the two markers overlap. */
  function BoldInner(line: string): string {
    if |line| >= 4 then line[2..|line| - 2] else ""
  }

  /** The index of the first line that satisfies `p`. */
  function FirstWhere(lines: seq<string>, p: string -> bool): (r: Option<nat>)
    ensures r.Some? ==> r.value < |lines| && p(lines[r.value])
                        && forall k :: 0 <= k < r.value ==> !p(lines[k])
    ensures r.None? ==> forall k :: 0 <= k < |lines| ==> !p(lines[k])
  {
    if |lines| == 0 then None
    else if p(lines[0]) then Some(0)
    else
      var r := FirstWhere(lines[1..], p);
      assert forall k :: 1 <= k < |lines| ==> lines[1..][k - 1] == lines[k];
      if r.Some? then Some(r.value + 1) else None
  }

  /**
   * The title: the one given when it is not empty, else the stripped text
   * of the first `# ` line, else (or when that text is empty) "Untitled".
   */
  function ExtractTitle(given: Option<string>, lines: seq<string>): (r: string)
    ensures |r| > 0
    ensures given.Some? && given.value != "" ==> r == given.value
  {
    if given.Some? && given.value != "" then given.value
    else
      var i := FirstWhere(lines, IsTitleLine);
      if i.Some? && TitleText(lines[i.value]) != "" then TitleText(lines[i.value]) else "Untitled"
  }

  /**
   * The subtitle: the one given when it is not empty, else the stripped
   * inner text of the first line that starts and ends with `**`, else empty.
   * A `None` subtitle and an empty one are treated alike throughout.
   */
  function ExtractSubtitle(given: Option<string>, lines: seq<string>): (r: string)
    ensures given.Some? && given.value != "" ==> r == given.value
  {
    if given.Some? && given.value != "" then given.value
    else
      var i := FirstWhere(lines, IsBoldLine);
      if i.Some? then Strip(BoldInner(lines[i.value])) else ""
  }

  /** When no title is given, it is read from the first `# ` line, and only from there. */
  lemma TitleFromFirstHeading(lines: seq<string>, i: nat)
    requires i < |lines| && IsTitleLine(lines[i]) && TitleText(lines[i]) != ""
    requires forall k :: 0 <= k < i ==> !IsTitleLine(lines[k])
    ensures ExtractTitle(None, lines) == TitleText(lines[i])
  {
    var j := FirstWhere(lines, IsTitleLine);
    assert j.Some? && j.value == i;
  }

  /** With no `# ` line and no title given, the title is "Untitled". */
  lemma UntitledWithoutHeading(given: Option<string>, lines: seq<string>)
    requires given.None? || given.value == ""
    requires forall k :: 0 <= k < |lines| ==> !IsTitleLine(lines[k])
    ensures ExtractTitle(given, lines) == "Untitled"
  {
    assert FirstWhere(lines, IsTitleLine).None?;
  }

  /** A first `# ` line with nothing after the marker gives "Untitled", whatever later `# ` lines say. */
  lemma UntitledWhenFirstHeadingEmpty(given: Option<string>, lines: seq<string>, i: nat)
    requires given.None? || given.value == ""
    requires i < |lines| && IsTitleLine(lines[i]) && TitleText(lines[i]) == ""
    requires forall k :: 0 <= k < i ==> !IsTitleLine(lines[k])
    ensures ExtractTitle(given, lines) == "Untitled"
  {
    var j := FirstWhere(lines, IsTitleLine);
    assert j.Some? && j.value == i;
  }

  /** When no subtitle is given, it is read from the first bold line, and only from there. */
  lemma SubtitleFromFirstBoldLine(lines: seq<string>, i: nat)
    requires i < |lines| && IsBoldLine(lines[i])
    requires forall k :: 0 <= k < i ==> !IsBoldLine(lines[k])
    ensures ExtractSubtitle(None, lines) == Strip(BoldInner(lines[i]))
  {
    var j := FirstWhere(lines, IsBoldLine);
    assert j.Some? && j.value == i;
  }

  /**
   * How a body line is recognised as the subtitle line: `Exact` is the
   * source's `line == f"**{subtitle}**"`; `Inner` also accepts every line
   * the subtitle could have been read from.
   */
  datatype SubtitleTest = Exact | Inner

  predicate IsSubtitleLine(line: string, subtitle: string, test: SubtitleTest) {
    subtitle != "" &&
    (line == "**" + subtitle + "**"
     || (test == Inner && IsBoldLine(line) && Strip(BoldInner(line)) == subtitle))
  }

  /** A line the body filter always drops: a title line with the title, or the subtitle line. */
  predicate Marked(line: string, title: string, subtitle: string, test: SubtitleTest) {
    (IsTitleLine(line) && TitleText(line) == title) || IsSubtitleLine(line, subtitle, test)
  }

  /**
   * The body filter of `publish_markdown`.  `skipRule` is its `skip_next_hr`:
   * set by a subtitle line, it drops the next line that strips to `---`.
   */
  function Filter(lines: seq<string>, title: string, subtitle: string, test: SubtitleTest,
                  skipRule: bool): (r: seq<string>)
    ensures |r| <= |lines|
    ensures forall k :: 0 <= k < |r| ==> !Marked(r[k], title, subtitle, test)
    ensures forall k :: 0 <= k < |r| ==> r[k] in lines
  {
    if |lines| == 0 then []
    else
      var line := lines[0];
      if IsTitleLine(line) && TitleText(line) == title then
        Filter(lines[1..], title, subtitle, test, skipRule)
      else if IsSubtitleLine(line, subtitle, test) then
        Filter(lines[1..], title, subtitle, test, true)
      else if skipRule && Strip(line) == "---" then
        Filter(lines[1..], title, subtitle, test, false)
      else
        [line] + Filter(lines[1..], title, subtitle, test, skipRule)
  }

  /** `a` is `b` with some of its elements left out, the rest in order. */
  predicate IsSubseq(a: seq<string>, b: seq<string>)
    decreases |b|
  {
    |a| == 0 || (|b| > 0 && if a[0] == b[0] then IsSubseq(a[1..], b[1..]) else IsSubseq(a, b[1..]))
  }

  lemma {:induction false} SubseqTail(a: seq<string>, b: seq<string>)
    requires |a| > 0 && IsSubseq(a, b)
    ensures IsSubseq(a[1..], b)
    decreases |b|
  {
    if a[0] != b[0] {
      SubseqTail(a, b[1..]);
      SubseqSkip(a[1..], b);
    } else {
      SubseqSkip(a[1..], b);
    }
  }

  lemma {:induction false} SubseqSkip(a: seq<string>, b: seq<string>)
    requires |b| > 0 && IsSubseq(a, b[1..])
    ensures IsSubseq(a, b)
    decreases |b|, 0
  {
    if |a| > 0 && a[0] == b[0] {
      SubseqTail(a, b[1..]);
    }
  }

  /** The body lines are the input lines with some of them left out: nothing is added, changed or moved. */
  lemma {:induction false} FilterSubseq(lines: seq<string>, title: string, subtitle: string,
                                        test: SubtitleTest, skipRule: bool)
    ensures IsSubseq(Filter(lines, title, subtitle, test, skipRule), lines)
  {
    if |lines| > 0 {
      var line := lines[0];
      var r := Filter(lines, title, subtitle, test, skipRule);
      if IsTitleLine(line) && TitleText(line) == title {
        FilterSubseq(lines[1..], title, subtitle, test, skipRule);
        SubseqSkip(r, lines);
      } else if IsSubtitleLine(line, subtitle, test) {
        FilterSubseq(lines[1..], title, subtitle, test, true);
        SubseqSkip(r, lines);
      } else if skipRule && Strip(line) == "---" {
        FilterSubseq(lines[1..], title, subtitle, test, false);
        SubseqSkip(r, lines);
      } else {
        FilterSubseq(lines[1..], title, subtitle, test, skipRule);
        assert r[0] == lines[0] && r[1..] == Filter(lines[1..], title, subtitle, test, skipRule);
      }
    }
  }

  /** Every line that is not marked and is not a `---` rule is kept. */
  lemma {:induction false} FilterKeepsOrdinary(lines: seq<string>, title: string, subtitle: string,
                                               test: SubtitleTest, skipRule: bool, k: nat)
    requires k < |lines| && !Marked(lines[k], title, subtitle, test) && Strip(lines[k]) != "---"
    ensures lines[k] in Filter(lines, title, subtitle, test, skipRule)
  {
    var line := lines[0];
    if k > 0 {
      assert lines[1..][k - 1] == lines[k];
      var s' := if IsTitleLine(line) && TitleText(line) == title then skipRule
                else if IsSubtitleLine(line, subtitle, test) then true
                else if skipRule && Strip(line) == "---" then false
                else skipRule;
      FilterKeepsOrdinary(lines[1..], title, subtitle, test, s', k - 1);
    }
  }

  /** The input lines that are not marked: the body when no line is a `---` rule. */
  function Unmarked(lines: seq<string>, title: string, subtitle: string, test: SubtitleTest): (r: seq<string>)
    ensures |r| <= |lines|
  {
    if |lines| == 0 then []
    else if Marked(lines[0], title, subtitle, test) then Unmarked(lines[1..], title, subtitle, test)
    else [lines[0]] + Unmarked(lines[1..], title, subtitle, test)
  }

  /** How many lines are subtitle lines. */
  function SubtitleLines(lines: seq<string>, subtitle: string, test: SubtitleTest): (n: nat)
    ensures n <= |lines|
  {
    if |lines| == 0 then 0
    else (if IsSubtitleLine(lines[0], subtitle, test) then 1 else 0) + SubtitleLines(lines[1..], subtitle, test)
  }

  /** Without `---` lines the filter drops the marked lines and nothing else. */
  lemma {:induction false} FilterWithoutRules(lines: seq<string>, title: string, subtitle: string,
                                              test: SubtitleTest, skipRule: bool)
    requires forall k :: 0 <= k < |lines| ==> Strip(lines[k]) != "---"
    ensures Filter(lines, title, subtitle, test, skipRule) == Unmarked(lines, title, subtitle, test)
  {
    if |lines| > 0 {
      assert forall k :: 0 <= k < |lines| - 1 ==> lines[1..][k] == lines[k + 1];
      FilterWithoutRules(lines[1..], title, subtitle, test, true);
      FilterWithoutRules(lines[1..], title, subtitle, test, skipRule);
    }
  }

  /**
   * Beyond the marked lines, the filter drops at most one `---` line per
   * subtitle line (and one more when it starts out skipping).
   */
  lemma {:induction false} FilterRuleBudget(lines: seq<string>, title: string, subtitle: string,
                                            test: SubtitleTest, skipRule: bool)
    ensures |Unmarked(lines, title, subtitle, test)|
            <= |Filter(lines, title, subtitle, test, skipRule)| + SubtitleLines(lines, subtitle, test)
               + (if skipRule then 1 else 0)
  {
    if |lines| > 0 {
      var line := lines[0];
      if IsTitleLine(line) && TitleText(line) == title {
        FilterRuleBudget(lines[1..], title, subtitle, test, skipRule);
      } else if IsSubtitleLine(line, subtitle, test) {
        FilterRuleBudget(lines[1..], title, subtitle, test, true);
      } else if skipRule && Strip(line) == "---" {
        FilterRuleBudget(lines[1..], title, subtitle, test, false);
      } else {
        FilterRuleBudget(lines[1..], title, subtitle, test, skipRule);
      }
    }
  }

  /** `skip_next_hr` after one line, as the filter's branches set it. */
  function SkipStep(line: string, title: string, subtitle: string, test: SubtitleTest, skipRule: bool): bool {
    if IsTitleLine(line) && TitleText(line) == title then skipRule
    else if IsSubtitleLine(line, subtitle, test) then true
    else if skipRule && Strip(line) == "---" then false
    else skipRule
  }

  /** `skip_next_hr` after the filter has read `lines`. */
  function SkipAfter(lines: seq<string>, title: string, subtitle: string, test: SubtitleTest, skipRule: bool): bool {
    if |lines| == 0 then skipRule
    else SkipAfter(lines[1..], title, subtitle, test, SkipStep(lines[0], title, subtitle, test, skipRule))
  }

  /** No line after position `i` strips to `---`. */
  predicate NoRuleAfter(lines: seq<string>, i: nat) {
    forall k :: i < k < |lines| ==> Strip(lines[k]) != "---"
  }

  /** Some subtitle line has no `---` line after it: the next rule is due to be dropped. */
  ghost predicate RuleDue(lines: seq<string>, subtitle: string, test: SubtitleTest) {
    exists i :: 0 <= i < |lines| && IsSubtitleLine(lines[i], subtitle, test) && NoRuleAfter(lines, i)
  }

  /** A line that strips to `---` starts with whitespace or `-`. */
  lemma RuleStart(line: string)
    requires Strip(line) == "---"
    ensures |line| > 0 && (IsSpace(line[0]) || line[0] == '-')
  {
    StripSlice(line);
    var a :| 0 <= a <= |line| - 3 && line[a..a + 3] == "---" && AllSpace(line[..a]) && AllSpace(line[a + 3..]);
    if a > 0 {
      assert line[..a][0] == line[0];
    } else {
      assert line[0] == line[a..a + 3][0];
    }
  }

  /** Title lines start with `#` and subtitle lines with `*`. */
  lemma MarkedStart(line: string, subtitle: string, test: SubtitleTest)
    ensures IsTitleLine(line) ==> |line| > 0 && line[0] == '#'
    ensures IsSubtitleLine(line, subtitle, test) ==> |line| > 0 && line[0] == '*'
  {
    if IsTitleLine(line) {
      assert line[..2][0] == line[0];
    }
    if IsSubtitleLine(line, subtitle, test) {
      if line == "**" + subtitle + "**" {
        assert line[0] == ("**" + subtitle + "**")[0];
      } else {
        assert line[..2][0] == line[0];
      }
    }
  }

  /** A `---` line is neither a title line nor a subtitle line. */
  lemma RuleNotMarked(line: string, title: string, subtitle: string, test: SubtitleTest)
    requires Strip(line) == "---"
    ensures !IsTitleLine(line) && !IsSubtitleLine(line, subtitle, test)
  {
    RuleStart(line);
    MarkedStart(line, subtitle, test);
  }

  /** The filter at a `---` line: dropped when the flag is set, kept otherwise; either way the flag is then clear. */
  lemma RuleLineFiltered(line: string, rest: seq<string>, title: string, subtitle: string, test: SubtitleTest,
                         skipRule: bool)
    requires Strip(line) == "---"
    ensures Filter([line] + rest, title, subtitle, test, skipRule)
            == (if skipRule then [] else [line]) + Filter(rest, title, subtitle, test, false)
  {
    RuleNotMarked(line, title, subtitle, test);
    assert ([line] + rest)[0] == line && ([line] + rest)[1..] == rest;
  }

  /** Whether the filter keeps `line` when it reaches it with flag `skipRule`. */
  predicate KeptAt(line: string, title: string, subtitle: string, test: SubtitleTest, skipRule: bool) {
    !(IsTitleLine(line) && TitleText(line) == title) && !IsSubtitleLine(line, subtitle, test)
    && !(skipRule && Strip(line) == "---")
  }

  /** One step of the filter: the first line is kept or not, and the rest is read with the updated flag. */
  lemma FilterCons(line: string, rest: seq<string>, title: string, subtitle: string, test: SubtitleTest,
                   skipRule: bool)
    ensures Filter([line] + rest, title, subtitle, test, skipRule)
            == (if KeptAt(line, title, subtitle, test, skipRule) then [line] else [])
               + Filter(rest, title, subtitle, test, SkipStep(line, title, subtitle, test, skipRule))
  {
    assert ([line] + rest)[0] == line && ([line] + rest)[1..] == rest;
  }

  /** Filtering joined lines filters the first part, then the second with the flag the first left. */
  lemma {:induction false} FilterAppend(a: seq<string>, b: seq<string>, title: string, subtitle: string,
                                        test: SubtitleTest, skipRule: bool)
    ensures Filter(a + b, title, subtitle, test, skipRule)
            == Filter(a, title, subtitle, test, skipRule)
               + Filter(b, title, subtitle, test, SkipAfter(a, title, subtitle, test, skipRule))
    decreases |a|
  {
    if |a| == 0 {
      assert a + b == b;
    } else {
      var next := SkipStep(a[0], title, subtitle, test, skipRule);
      var kept: seq<string> := if KeptAt(a[0], title, subtitle, test, skipRule) then [a[0]] else [];
      assert a == [a[0]] + a[1..] && a + b == [a[0]] + (a[1..] + b);
      FilterCons(a[0], a[1..], title, subtitle, test, skipRule);
      FilterCons(a[0], a[1..] + b, title, subtitle, test, skipRule);
      FilterAppend(a[1..], b, title, subtitle, test, next);
      assert SkipAfter(a, title, subtitle, test, skipRule) == SkipAfter(a[1..], title, subtitle, test, next);
      Associate(kept, Filter(a[1..], title, subtitle, test, next),
                Filter(b, title, subtitle, test, SkipAfter(a[1..], title, subtitle, test, next)));
    }
  }

  lemma Associate(x: seq<string>, y: seq<string>, z: seq<string>)
    ensures x + (y + z) == x + y + z
  {
  }

  lemma {:induction false} SkipAfterAppend(a: seq<string>, b: seq<string>, title: string, subtitle: string,
                                           test: SubtitleTest, skipRule: bool)
    ensures SkipAfter(a + b, title, subtitle, test, skipRule)
            == SkipAfter(b, title, subtitle, test, SkipAfter(a, title, subtitle, test, skipRule))
    decreases |a|
  {
    if |a| == 0 {
      assert a + b == b;
    } else {
      assert (a + b)[0] == a[0] && (a + b)[1..] == a[1..] + b;
      SkipAfterAppend(a[1..], b, title, subtitle, test, SkipStep(a[0], title, subtitle, test, skipRule));
    }
  }

  /** Starting from `False`, the flag is set after `lines` exactly when a subtitle line has no `---` after it. */
  lemma {:induction false} SkipAfterDue(lines: seq<string>, title: string, subtitle: string, test: SubtitleTest)
    ensures SkipAfter(lines, title, subtitle, test, false) <==> RuleDue(lines, subtitle, test)
    decreases |lines|
  {
    if |lines| > 0 {
      var n := |lines| - 1;
      var init := lines[..n];
      var last := lines[n];
      assert lines == init + [last];
      assert [last][1..] == [];
      SkipAfterAppend(init, [last], title, subtitle, test, false);
      SkipAfterDue(init, title, subtitle, test);
      MarkedStart(last, subtitle, test);
      if IsSubtitleLine(last, subtitle, test) {
        assert NoRuleAfter(lines, n);
      } else if Strip(last) == "---" {
        RuleNotMarked(last, title, subtitle, test);
        forall i | 0 <= i < |lines| && IsSubtitleLine(lines[i], subtitle, test)
          ensures !NoRuleAfter(lines, i)
        {
          assert i < n;
        }
      } else {
        if RuleDue(init, subtitle, test) {
          var i :| 0 <= i < |init| && IsSubtitleLine(init[i], subtitle, test) && NoRuleAfter(init, i);
          assert lines[i] == init[i];
          assert NoRuleAfter(lines, i);
        }
        if RuleDue(lines, subtitle, test) {
          var i :| 0 <= i < |lines| && IsSubtitleLine(lines[i], subtitle, test) && NoRuleAfter(lines, i);
          assert i < n && init[i] == lines[i];
          assert NoRuleAfter(init, i);
        }
      }
    }
  }

  /** Filtering around one `---` line: the line survives exactly when the flag is clear on reaching it. */
  lemma FilterAroundRule(before: seq<string>, line: string, rest: seq<string>, title: string, subtitle: string,
                         test: SubtitleTest)
    requires Strip(line) == "---"
    ensures var whole := Filter(before + ([line] + rest), title, subtitle, test, false);
            var head := Filter(before, title, subtitle, test, false);
            var tail := Filter(rest, title, subtitle, test, false);
            && (SkipAfter(before, title, subtitle, test, false) ==> whole == head + tail)
            && (!SkipAfter(before, title, subtitle, test, false) ==> whole == head + [line] + tail)
  {
    var flag := SkipAfter(before, title, subtitle, test, false);
    FilterAppend(before, [line] + rest, title, subtitle, test, false);
    RuleLineFiltered(line, rest, title, subtitle, test, flag);
    Regroup(Filter(before + ([line] + rest), title, subtitle, test, false), Filter(before, title, subtitle, test, false),
            Filter([line] + rest, title, subtitle, test, flag), Filter(rest, title, subtitle, test, false), line, flag);
  }

  /** Sequence bookkeeping for `FilterAroundRule`, kept apart from the filter's definition. */
  lemma Regroup(whole: seq<string>, head: seq<string>, mid: seq<string>, tail: seq<string>, line: string, flag: bool)
    requires whole == head + mid
    requires mid == (if flag then [] else [line]) + tail
    ensures flag ==> whole == head + tail
    ensures !flag ==> whole == head + [line] + tail
  {
  }

  /**
   * A `---` line is dropped exactly when a subtitle line before it has no
   * other `---` line in between; otherwise it is kept in its place.
   */
  lemma RuleDroppedWhenDue(lines: seq<string>, j: nat, title: string, subtitle: string, test: SubtitleTest)
    requires j < |lines| && Strip(lines[j]) == "---"
    ensures RuleDue(lines[..j], subtitle, test)
            ==> Filter(lines, title, subtitle, test, false)
                == Filter(lines[..j], title, subtitle, test, false) + Filter(lines[j + 1..], title, subtitle, test, false)
    ensures !RuleDue(lines[..j], subtitle, test)
            ==> Filter(lines, title, subtitle, test, false)
                == Filter(lines[..j], title, subtitle, test, false) + [lines[j]]
                   + Filter(lines[j + 1..], title, subtitle, test, false)
  {
    assert lines == lines[..j] + ([lines[j]] + lines[j + 1..]);
    FilterAroundRule(lines[..j], lines[j], lines[j + 1..], title, subtitle, test);
    SkipAfterDue(lines[..j], title, subtitle, test);
  }

  /** The rule right after the subtitle line is dropped and the later one kept. */
  lemma RuleAfterSubtitleExample()
    ensures Filter(["**S**", "---", "x", "---"], "T", "S", Exact, false) == ["x", "---"]
  {
    var lines := ["**S**", "---", "x", "---"];
    assert "**" + "S" + "**" == lines[0];
    MarkedStart(lines[0], "S", Exact);
    assert Strip(lines[1]) == "---" by { StripClean(lines[1]); }
    RuleNotMarked(lines[1], "T", "S", Exact);
    assert !IsTitleLine(lines[2]) && !IsSubtitleLine(lines[2], "S", Exact);
    RuleNotMarked(lines[3], "T", "S", Exact);
  }

  /** The body text `publish_markdown` converts, with the subtitle line recognised by `test`. */
  function BodyMarkdown(lines: seq<string>, title: string, subtitle: string, test: SubtitleTest): string {
    Join(Filter(lines, title, subtitle, test, false), "\n")
  }

  /**
   * `publish_markdown` up to the publish call: the draft it creates, whose
   * id the service answered with, and which it then publishes.  The body
   * filter recognises a subtitle line the way the subtitle was read.
   */
  function PublishMarkdown(publication: string, markdown: string, title: Option<string>,
                           subtitle: Option<string>, draftId: int): (r: Draft)
    ensures r.id == draftId && |r.title| > 0 && r.audience == "everyone" && r.coverImage == ""
    ensures title.Some? && title.value != "" ==> r.title == title.value
    ensures subtitle.Some? && subtitle.value != "" ==> r.subtitle == subtitle.value
    ensures !Pending(r.content)
  {
    var lines := SourceLines(markdown);
    var t := ExtractTitle(title, lines);
    var s := ExtractSubtitle(subtitle, lines);
    CreateDraft(publication, t, MarkdownText(BodyMarkdown(lines, t, s, Inner)), s, "everyone", None, draftId)
  }

  /** The line the title was read from does not reach the body. */
  lemma ExtractedTitleLineDropped(lines: seq<string>, i: nat, subtitle: string, test: SubtitleTest)
    requires i < |lines| && IsTitleLine(lines[i]) && TitleText(lines[i]) != ""
    requires forall k :: 0 <= k < i ==> !IsTitleLine(lines[k])
    ensures lines[i] !in Filter(lines, ExtractTitle(None, lines), subtitle, test, false)
  {
    TitleFromFirstHeading(lines, i);
  }

  /** With the `Inner` test, the line the subtitle was read from does not reach the body either. */
  lemma ExtractedSubtitleLineDropped(lines: seq<string>, i: nat, title: string)
    requires i < |lines| && IsBoldLine(lines[i]) && Strip(BoldInner(lines[i])) != ""
    requires forall k :: 0 <= k < i ==> !IsBoldLine(lines[k])
    ensures lines[i] !in Filter(lines, title, ExtractSubtitle(None, lines), Inner, false)
  {
    SubtitleFromFirstBoldLine(lines, i);
  }

  /**
   * The source's `Exact` test keeps a padded subtitle line: `**Sub **`
   * yields the subtitle "Sub", and the line stays in the body, so the
   * subtitle is shown twice.
   */
  lemma PaddedSubtitleKeptAsWritten()
    ensures var lines := ["# T", "**Sub **", "body"];
            && ExtractSubtitle(None, lines) == "Sub"
            && "**Sub **" in Filter(lines, "T", "Sub", Exact, false)
            && "**Sub **" !in Filter(lines, "T", "Sub", Inner, false)
  {
    var lines := ["# T", "**Sub **", "body"];
    assert !IsBoldLine(lines[0]) by { assert lines[0][0] != '*'; }
    assert IsBoldLine(lines[1]) by {
      assert lines[1][..2] == "**";
      assert lines[1][|lines[1]| - 2..] == "**";
    }
    assert BoldInner(lines[1]) == "Sub ";
    assert Strip("Sub ") == "Sub" by {
      assert SkipSpaces("Sub ", 0) == 0;
      assert "Sub "[0..] == "Sub ";
      assert TrimEnd("Sub ") == "Sub";
    }
    SubtitleFromFirstBoldLine(lines, 1);
    FilterKeepsOrdinary(lines, "T", "Sub", Exact, false, 1);
    ExtractedSubtitleLineDropped(lines, 1, "T");
  }

  /** For an unpadded subtitle line the two tests agree, so only padded lines are treated differently. */
  lemma ExactLineIsInner(subtitle: string)
    requires subtitle != ""
    ensures IsSubtitleLine("**" + subtitle + "**", subtitle, Exact)
    ensures IsSubtitleLine("**" + subtitle + "**", subtitle, Inner)
  {
  }
}
