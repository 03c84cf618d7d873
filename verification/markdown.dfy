/**
 * `MarkdownToSubstack.convert` (substack_client.py): a one-pass, line-oriented
 * Markdown reader.  The input is split on `\n`; each stripped line is tested
 * in a fixed order (blank, rule, heading, fence, image, quote, bullet,
 * numbered, paragraph) and the first test that passes decides the block.
 * Fences, quotes and lists go on consuming the lines that follow.
 *
 * `Blocks` is the source's index loop written as a recursion over the lines
 * not yet read: every step consumes at least one line and adds at most one block.
 */
module Markdown {
  import opened Wrappers
  import opened Text
  import opened Document
  import opened Inline

  /** The lines never contain the separator they were split on. */
  predicate NoNewlines(lines: seq<string>) {
    forall k :: 0 <= k < |lines| ==> '\n' !in lines[k]
  }

  /** `stripped in ['---', '***', '___']` */
  predicate IsRule(s: string) {
    s == "---" || s == "***" || s == "___"
  }

  /** How many `#` the string starts with. */
  function LeadingHashes(s: string): (n: nat)
    ensures n <= |s| && (forall k :: 0 <= k < n ==> s[k] == '#') && (n < |s| ==> s[n] != '#')
  {
    if |s| == 0 || s[0] != '#' then 0 else 1 + LeadingHashes(s[1..])
  }

  /** How many ASCII digits the string starts with. */
  function LeadingDigits(s: string): (n: nat)
    ensures n <= |s| && (forall k :: 0 <= k < n ==> IsDigit(s[k])) && (n < |s| ==> !IsDigit(s[n]))
  {
    if |s| == 0 || !IsDigit(s[0]) then 0 else 1 + LeadingDigits(s[1..])
  }

  /**
   * The tail `\s+(.+)$` of a pattern, tried at `i`: one or more whitespace
   * characters, then a non-empty rest, which is returned.  The greedy `\s+`
   * takes every whitespace character it can and gives the last one back to
   * `.+` only when nothing else follows.
   */
  function SpacedRest(s: string, i: nat): (r: Option<string>)
    requires i <= |s| && '\n' !in s
    ensures r.Some? <==> i + 1 < |s| && IsSpace(s[i])
    ensures r.Some? ==> 0 < |r.value| && i < |s| - |r.value| && s[|s| - |r.value|..] == r.value
                        && AllSpace(s[i..|s| - |r.value|])
    ensures r.Some? && !IsSpace(s[|s| - 1]) ==> !IsSpace(r.value[0])
  {
    if i + 1 < |s| && IsSpace(s[i]) then
      var j := SkipSpaces(s, i);
      if j < |s| then
        AllSpaceSlice(s, i, j);
        Some(s[j..])
      else
        AllSpaceSlice(s, i, j - 1);
        Some(s[j - 1..])
    else None
  }

  /** `^(#{1,4})\s+(.+)$`: the number of `#` and the heading text. */
  function MatchHeading(s: string): (r: Option<(int, string)>)
    requires '\n' !in s
    ensures r.Some? ==> 1 <= r.value.0 <= 4 && r.value.0 < |s| && (forall k :: 0 <= k < r.value.0 ==> s[k] == '#')
                        && SpacedRest(s, r.value.0) == Some(r.value.1)
    ensures r.None? ==> LeadingHashes(s) == 0 || LeadingHashes(s) > 4 || SpacedRest(s, LeadingHashes(s)).None?
  {
    var n := LeadingHashes(s);
    if 1 <= n <= 4 && SpacedRest(s, n).Some? then Some((n, SpacedRest(s, n).value)) else None
  }

  /** A line of five or more `#` is never a heading. */
  lemma FiveHashesNoHeading(s: string)
    requires '\n' !in s && StartsWith(s, "#####")
    ensures MatchHeading(s).None?
  {
    assert s[..5] == "#####";
    assert forall k :: 0 <= k < 5 ==> s[k] == '#' by {
      forall k | 0 <= k < 5 ensures s[k] == '#' { assert s[..5][k] == s[k]; }
    }
    assert LeadingHashes(s) >= 5;
  }

  /** `^```(\w*)$`: the language tag of a fence line. */
  function MatchFence(s: string): (r: Option<string>)
    ensures r.Some? ==> s == "```" + r.value && forall k :: 0 <= k < |r.value| ==> IsWordChar(r.value[k])
    ensures (StartsWith(s, "```") && forall k :: 3 <= k < |s| ==> IsWordChar(s[k])) ==> r.Some?
  {
    if StartsWith(s, "```") && forall k :: 3 <= k < |s| ==> IsWordChar(s[k]) then
      assert s == "```" + s[3..];
      Some(s[3..])
    else None
  }

  /** `^!\[([^\]]*)\]\(([^)]+)\)$`: the alt text and the source of an image line. */
  function MatchImage(s: string): (r: Option<(string, string)>)
    ensures r.Some? ==> s == "![" + r.value.0 + "](" + r.value.1 + ")"
                        && ']' !in r.value.0 && ')' !in r.value.1 && |r.value.1| > 0
  {
    if !StartsWith(s, "![") then None
    else
      match FindChar(s, 2, ']')
      case None => None
      case Some(q) =>
        if q + 1 >= |s| || s[q + 1] != '(' then None
        else
          match FindChar(s, q + 2, ')')
          case None => None
          case Some(e) =>
            if e == q + 2 || e != |s| - 1 then None
            else
              assert s == "![" + s[2..q] + "](" + s[q + 2..e] + ")";
              NotInSlice(s, 2, q, ']');
              NotInSlice(s, q + 2, e, ')');
              Some((s[2..q], s[q + 2..e]))
  }

  /** Every string of the image shape is read back into its alt text and source. */
  lemma MatchImageComplete(alt: string, src: string)
    requires ']' !in alt && ')' !in src && |src| > 0
    ensures MatchImage("![" + alt + "](" + src + ")") == Some((alt, src))
  {
    var s := "![" + alt + "](" + src + ")";
    var q := 2 + |alt|;
    assert s[..2] == "![";
    assert s[2..q] == alt;
    assert s[q + 2..|s| - 1] == src;
    forall j | 2 <= j < q ensures s[j] != ']' { assert s[j] == s[2..q][j - 2]; }
    assert s[q] == ']';
    assert FindChar(s, 2, ']') == Some(q);
    assert s[q + 1] == '(';
    forall j | q + 2 <= j < |s| - 1 ensures s[j] != ')' { assert s[j] == s[q + 2..|s| - 1][j - q - 2]; }
    assert s[|s| - 1] == ')';
    assert FindChar(s, q + 2, ')') == Some(|s| - 1);
  }

  /** `^\d+\.\s+(.+)$`: the text of a numbered item. */
  function MatchNumbered(s: string): (r: Option<string>)
    requires '\n' !in s
    ensures r.Some? ==> var d := LeadingDigits(s);
                        1 <= d && d + 1 < |s| && s[d] == '.' && SpacedRest(s, d + 1) == r
    ensures r.None? ==> var d := LeadingDigits(s);
                        d == 0 || d == |s| || s[d] != '.' || SpacedRest(s, d + 1).None?
  {
    var d := LeadingDigits(s);
    if 1 <= d && d < |s| && s[d] == '.' then SpacedRest(s, d + 1) else None
  }

  /** What the tests of `convert` make of one stripped line, in the order they are tried. */
  datatype LineKind =
    | Blank
    | Rule
    | HeadingLine(hashes: int, text: string)
    | FenceOpen(language: string)
    | ImageLine(alt: string, src: string)
    | QuoteLine
    | BulletLine
    | NumberedLine
    | ParagraphLine

  function Classify(s: string): (k: LineKind)
    requires '\n' !in s
    ensures k.Blank? <==> s == ""
    ensures k.HeadingLine? ==> 1 <= k.hashes <= 4
  {
    if s == "" then Blank
    else if IsRule(s) then Rule
    else if MatchHeading(s).Some? then HeadingLine(MatchHeading(s).value.0, MatchHeading(s).value.1)
    else if MatchFence(s).Some? then FenceOpen(MatchFence(s).value)
    else if MatchImage(s).Some? then ImageLine(MatchImage(s).value.0, MatchImage(s).value.1)
    else if StartsWith(s, "> ") then QuoteLine
    else if StartsWith(s, "- ") || StartsWith(s, "* ") then BulletLine
    else if MatchNumbered(s).Some? then NumberedLine
    else ParagraphLine
  }

  /** A non-blank line that is not a rule and matches the heading pattern is a heading line. */
  lemma ClassifyHeading(s: string)
    requires '\n' !in s && s != "" && !IsRule(s) && MatchHeading(s).Some?
    ensures Classify(s) == HeadingLine(MatchHeading(s).value.0, MatchHeading(s).value.1)
  {
  }

  /** The three constructs that go on over the following lines while a test holds. */
  datatype RunKind = QuoteRun | BulletRun | NumberedRun

  /** The test each run loop applies to a stripped line, and the item it keeps. */
  function RunItem(kind: RunKind, l: string): (r: Option<string>)
    requires '\n' !in l
    ensures r.Some? ==> l != ""
  {
    match kind
    case QuoteRun => if StartsWith(l, "> ") then Some(l[2..]) else None
    case BulletRun => if StartsWith(l, "- ") || StartsWith(l, "* ") then Some(l[2..]) else None
    case NumberedRun => MatchNumbered(l)
  }

  /**
   * `items` are the items of the leading lines of `lines` that pass the run's
   * test, up to the first line that fails it, and `used` lines are consumed:
   * a list run also consumes the blank line that ends it; a quote run stops
   * at any line that fails its test and consumes nothing more.
   */
  predicate RunFits(lines: seq<string>, kind: RunKind, items: seq<string>, used: nat)
    requires NoNewlines(lines)
  {
    |items| <= used <= |lines| && used <= |items| + 1
    && (forall k {:trigger items[k]} :: 0 <= k < |items| ==> RunItem(kind, Strip(lines[k])) == Some(items[k]))
    && (|items| < |lines| ==> RunItem(kind, Strip(lines[|items|])).None?)
    && (used == |items| + 1 <==> |items| < |lines| && kind != QuoteRun && Strip(lines[|items|]) == "")
  }

  /** The items of an item line and the run after it, line by line. */
  lemma RunItemsCons(lines: seq<string>, kind: RunKind, x: string, items: seq<string>)
    requires NoNewlines(lines) && |items| < |lines| && RunItem(kind, Strip(lines[0])) == Some(x)
    requires forall k :: 0 <= k < |items| ==> RunItem(kind, Strip(lines[1..][k])) == Some(items[k])
    ensures forall k :: 0 <= k < |[x] + items| ==> RunItem(kind, Strip(lines[k])) == Some(([x] + items)[k])
  {
    var tail, all := lines[1..], [x] + items;
    forall k | 0 <= k < |all| ensures RunItem(kind, Strip(lines[k])) == Some(all[k]) {
      if k > 0 {
        var l := tail[k - 1];
        assert RunItem(kind, Strip(l)) == Some(items[k - 1]);
        assert lines[k] == l && all[k] == items[k - 1];
      }
    }
  }

  /** An item line joins the run read from the lines after it. */
  lemma RunFitsCons(lines: seq<string>, kind: RunKind, x: string, items: seq<string>, used: nat)
    requires NoNewlines(lines) && |lines| > 0 && RunItem(kind, Strip(lines[0])) == Some(x)
    requires NoNewlines(lines[1..]) && RunFits(lines[1..], kind, items, used)
    ensures RunFits(lines, kind, [x] + items, used + 1)
  {
    RunItemsCons(lines, kind, x, items);
    if 1 + |items| < |lines| {
      assert lines[1 + |items|] == lines[1..][|items|];
    }
  }

  /** A run over `lines`, starting at the line that opened it: its items and the lines consumed. */
  function CollectRun(lines: seq<string>, kind: RunKind): (r: (seq<string>, nat))
    requires NoNewlines(lines)
    ensures RunFits(lines, kind, r.0, r.1)
    decreases |lines|
  {
    if |lines| == 0 then ([], 0)
    else
      var l := Strip(lines[0]);
      match RunItem(kind, l)
      case Some(x) =>
        NoNewlinesSuffix(lines, 1);
        var rest := CollectRun(lines[1..], kind);
        RunFitsCons(lines, kind, x, rest.0, rest.1);
        ([x] + rest.0, rest.1 + 1)
      case None =>
        if kind != QuoteRun && l == "" then ([], 1) else ([], 0)
  }

  /** `body` is read verbatim from the front of `lines` up to a closing fence, or to the end, and `used` lines are consumed. */
  predicate FenceFits(lines: seq<string>, body: seq<string>, used: nat) {
    |body| <= used <= |lines| && body == lines[..|body|]
    && (forall k :: 0 <= k < |body| ==> Strip(lines[k]) != "```")
    && ((used == |body| == |lines|) || (used == |body| + 1 <= |lines| && Strip(lines[|body|]) == "```"))
  }

  /** A line that is not a closing fence joins the body read from the lines after it. */
  lemma FenceFitsCons(lines: seq<string>, body: seq<string>, used: nat)
    requires |lines| > 0 && Strip(lines[0]) != "```" && FenceFits(lines[1..], body, used)
    ensures FenceFits(lines, [lines[0]] + body, used + 1)
  {
    var tail := lines[1..];
    assert lines == [lines[0]] + tail;
    assert lines[..1 + |body|] == [lines[0]] + tail[..|body|];
    forall k | 1 <= k < 1 + |body| ensures Strip(lines[k]) != "```" {
      assert lines[k] == tail[k - 1];
    }
    if used + 1 != |body| + 1 {
      assert lines[1 + |body|] == tail[|body|];
    }
  }

  /**
   * The lines of a fence after its opening line: taken verbatim up to the
   * first line that strips to three backquotes, which is consumed too, or to
   * the end of the input.
   */
  function FenceBody(lines: seq<string>): (r: (seq<string>, nat))
    ensures FenceFits(lines, r.0, r.1)
    decreases |lines|
  {
    if |lines| == 0 then ([], 0)
    else if Strip(lines[0]) == "```" then ([], 1)
    else
      var rest := FenceBody(lines[1..]);
      FenceFitsCons(lines, rest.0, rest.1);
      ([lines[0]] + rest.0, rest.1 + 1)
  }

  /** A block that `convert` can emit at the top level, with the bounds it keeps. */
  predicate WellFormedBlock(n: Node) {
    IsBlock(n)
    && (n.Heading? ==> 2 <= n.level <= 4)
    && ((n.BulletList? || n.OrderedList?) ==> |n.content| > 0)
    && (n.Paragraph? ==> |n.content| > 0)
  }

  lemma NoNewlinesSuffix(lines: seq<string>, n: nat)
    requires NoNewlines(lines) && n <= |lines|
    ensures NoNewlines(lines[n..])
  {
    assert forall k :: 0 <= k < |lines| - n ==> lines[n..][k] == lines[n + k];
  }

  /** The block of a quote or list run, from the items it collected. */
  function RunBlock(kind: RunKind, items: seq<string>): (n: Node)
    requires |items| > 0
    ensures WellFormedBlock(n)
  {
    match kind
    case QuoteRun => BlockquoteOf(Join(items, " "))
    case BulletRun => BulletListOf(items)
    case NumberedRun => NumberedListOf(items)
  }

  /**
   * One pass of the loop of `convert` over the remaining lines: the blocks
   * it appends (none or one) and how many lines it moves past (at least one).
   */
  function Step(lines: seq<string>): (r: (seq<Node>, nat))
    requires NoNewlines(lines) && |lines| > 0
    ensures 1 <= r.1 <= |lines| && |r.0| <= 1
    ensures forall k :: 0 <= k < |r.0| ==> WellFormedBlock(r.0[k])
  {
    var s := Strip(lines[0]);
    StepOn(lines, s, Classify(s))
  }

  /** The pass for a first line `s` (already stripped) that the tests classified as `k`. */
  function StepOn(lines: seq<string>, s: string, k: LineKind): (r: (seq<Node>, nat))
    requires NoNewlines(lines) && |lines| > 0 && s == Strip(lines[0]) && k == Classify(s)
    ensures 1 <= r.1 <= |lines| && |r.0| <= 1
    ensures forall j :: 0 <= j < |r.0| ==> WellFormedBlock(r.0[j])
  {
    match k
    case Blank => ([], 1)
    case Rule => ([HorizontalRule], 1)
    case HeadingLine(n, text) => ([HeadingOf(text, n)], 1)
    case FenceOpen(language) =>
      var fence := FenceBody(lines[1..]);
      ([CodeBlockOf(Join(fence.0, "\n"), language)], 1 + fence.1)
    case ImageLine(alt, src) => ([ImageOf(src, Some(alt), None, None, None, None, None)], 1)
    case QuoteLine => RunStep(lines, QuoteRun)
    case BulletLine => RunStep(lines, BulletRun)
    case NumberedLine => RunStep(lines, NumberedRun)
    case ParagraphLine =>
      var inline := ParseInline(s);
      (if |inline| > 0 then [Paragraph(inline)] else [], 1)
  }

  /** A run opened by the first line: its block, and the lines it consumed. */
  function RunStep(lines: seq<string>, kind: RunKind): (r: (seq<Node>, nat))
    requires NoNewlines(lines) && |lines| > 0 && RunItem(kind, Strip(lines[0])).Some?
    ensures 1 <= r.1 <= |lines| && |r.0| == 1 && WellFormedBlock(r.0[0])
  {
    var run := CollectRun(lines, kind);
    ([RunBlock(kind, run.0)], run.1)
  }

  /** The blocks `convert` emits for the lines, as a recursive reading. */
  function Blocks(lines: seq<string>): (r: seq<Node>)
    requires NoNewlines(lines)
    ensures |r| <= |lines|
    ensures forall k :: 0 <= k < |r| ==> WellFormedBlock(r[k])
    decreases |lines|
  {
    if |lines| == 0 then []
    else
      var step := Step(lines);
      NoNewlinesSuffix(lines, step.1);
      step.0 + Blocks(lines[step.1..])
  }

  /** `convert(markdown)`: the document for the whole input. */
  function ConvertDoc(markdown: string): (r: Node)
    ensures r.Doc? && forall k :: 0 <= k < |r.content| ==> WellFormedBlock(r.content[k])
  {
    Doc(Blocks(Split(markdown, '\n')))
  }

  // --- Properties of the reading ---

  /** An empty input gives an empty document. */
  lemma EmptyInputEmptyDoc()
    ensures ConvertDoc("") == Doc([])
  {
    assert Split("", '\n') == [""];
  }

  /** A line that is only whitespace is skipped and produces nothing. */
  lemma BlankLineSkipped(l: string, rest: seq<string>)
    requires AllSpace(l) && '\n' !in l && NoNewlines(rest)
    ensures NoNewlines([l] + rest) && Blocks([l] + rest) == Blocks(rest)
  {
    StripEmptyIff(l);
    assert ([l] + rest)[1..] == rest;
  }

  /** Lines that are all whitespace produce no blocks at all. */
  lemma {:induction false} BlankLinesGiveNothing(lines: seq<string>)
    requires NoNewlines(lines)
    requires forall k :: 0 <= k < |lines| ==> AllSpace(lines[k])
    ensures Blocks(lines) == []
    decreases |lines|
  {
    if |lines| > 0 {
      StripEmptyIff(lines[0]);
      NoNewlinesSuffix(lines, 1);
      assert forall k :: 0 <= k < |lines| - 1 ==> lines[1..][k] == lines[k + 1];
      BlankLinesGiveNothing(lines[1..]);
    }
  }

  /** Five or more `#` make a paragraph line, never a heading. */
  lemma FiveHashesIsParagraph(s: string)
    requires '\n' !in s && StartsWith(s, "#####")
    ensures Classify(s) == ParagraphLine
  {
    FiveHashesNoHeading(s);
    assert s[0] == s[..5][0] == '#';
    assert LeadingDigits(s) == 0;
  }

  lemma NoNewlinesConcat(a: seq<string>, b: seq<string>)
    requires NoNewlines(a) && NoNewlines(b)
    ensures NoNewlines(a + b)
  {
    assert forall k :: 0 <= k < |a| + |b| ==> (a + b)[k] == if k < |a| then a[k] else b[k - |a|];
  }

  /** The reading goes one step of the loop at a time. */
  lemma BlocksUnfold(lines: seq<string>)
    requires NoNewlines(lines) && |lines| > 0
    ensures NoNewlines(lines[Step(lines).1..])
    ensures Blocks(lines) == Step(lines).0 + Blocks(lines[Step(lines).1..])
  {
    NoNewlinesSuffix(lines, Step(lines).1);
  }

  /** The reading after a step whose result is known. */
  lemma BlocksOfStep(lines: seq<string>, nodes: seq<Node>, used: nat)
    requires NoNewlines(lines) && |lines| > 0 && Step(lines) == (nodes, used)
    ensures NoNewlines(lines[used..]) && Blocks(lines) == nodes + Blocks(lines[used..])
  {
    BlocksUnfold(lines);
  }

  /**
   * A run whose item lines are followed by a blank line collects exactly
   * those items; a list consumes the blank line as well, a quote does not.
   */
  lemma CollectRunItem(lines: seq<string>, kind: RunKind, x: string)
    requires NoNewlines(lines) && |lines| > 0 && RunItem(kind, Strip(lines[0])) == Some(x)
    ensures NoNewlines(lines[1..])
    ensures CollectRun(lines, kind) == ([x] + CollectRun(lines[1..], kind).0, CollectRun(lines[1..], kind).1 + 1)
  {
    NoNewlinesSuffix(lines, 1);
  }

  lemma CollectRunBlank(lines: seq<string>, kind: RunKind)
    requires NoNewlines(lines) && |lines| > 0 && Strip(lines[0]) == ""
    ensures CollectRun(lines, kind) == ([], if kind == QuoteRun then 0 else 1)
  {
    assert RunItem(kind, Strip(lines[0])).None?;
  }

  /** The run's item lines, less the first, are the item lines of the rest. */
  lemma RunItemsTail(lines: seq<string>, kind: RunKind, items: seq<string>)
    requires NoNewlines(lines) && 0 < |items| < |lines|
    requires forall k :: 0 <= k < |items| ==> RunItem(kind, Strip(lines[k])) == Some(items[k])
    ensures NoNewlines(lines[1..]) && |items[1..]| < |lines[1..]|
    ensures forall k :: 0 <= k < |items[1..]| ==> RunItem(kind, Strip(lines[1..][k])) == Some(items[1..][k])
    ensures lines[1..][|items[1..]|] == lines[|items|]
  {
    NoNewlinesSuffix(lines, 1);
    forall k | 0 <= k < |items[1..]| ensures RunItem(kind, Strip(lines[1..][k])) == Some(items[1..][k]) {
      assert lines[1..][k] == lines[k + 1] && items[1..][k] == items[k + 1];
    }
  }

  lemma {:induction false} RunEndsAtBlank(lines: seq<string>, kind: RunKind, items: seq<string>)
    requires NoNewlines(lines) && |items| < |lines|
    requires forall k :: 0 <= k < |items| ==> RunItem(kind, Strip(lines[k])) == Some(items[k])
    requires Strip(lines[|items|]) == ""
    ensures CollectRun(lines, kind) == (items, |items| + (if kind == QuoteRun then 0 else 1))
    decreases |items|
  {
    if |items| == 0 {
      CollectRunBlank(lines, kind);
    } else {
      RunItemsTail(lines, kind, items);
      RunEndsAtBlank(lines[1..], kind, items[1..]);
      CollectRunItem(lines, kind, items[0]);
      assert items == [items[0]] + items[1..];
    }
  }

  /** A line of one of the single-line kinds is one step that moves past it alone. */
  lemma StepOneLine(lines: seq<string>)
    requires NoNewlines(lines) && |lines| > 0
    requires var k := Classify(Strip(lines[0])); k.Rule? || k.HeadingLine? || k.ImageLine? || k.ParagraphLine?
    ensures Step(lines).1 == 1
    ensures var k := Classify(Strip(lines[0]));
            && (k.Rule? ==> Step(lines).0 == [HorizontalRule])
            && (k.HeadingLine? ==> Step(lines).0 == [HeadingOf(k.text, k.hashes)])
            && (k.ImageLine? ==> Step(lines).0 == [ImageOf(k.src, Some(k.alt), None, None, None, None, None)])
            && (k.ParagraphLine? ==> Step(lines).0 == (if |ParseInline(Strip(lines[0]))| > 0
                                                      then [Paragraph(ParseInline(Strip(lines[0])))] else []))
  {
    var s := Strip(lines[0]);
    var k := Classify(s);
    assert Step(lines) == StepOn(lines, s, k);
  }

  /** A fence line is its own strip and opens a code block with its tag as language. */
  lemma FenceLineOpens(language: string)
    requires forall k :: 0 <= k < |language| ==> IsWordChar(language[k])
    ensures '\n' !in "```" + language
    ensures Strip("```" + language) == "```" + language
    ensures Classify("```" + language) == FenceOpen(language)
  {
    var s := "```" + language;
    assert forall k :: 3 <= k < |s| ==> s[k] == language[k - 3];
    StripClean(s);
    assert s[..3] == "```";
    assert LeadingHashes(s) == 0;
    assert s[0] == '`';
  }

  /** The step at a fence line: the body `FenceBody` finds, as one code block. */
  lemma FenceStep(language: string, lines: seq<string>, body: seq<string>, used: nat)
    requires forall k :: 0 <= k < |language| ==> IsWordChar(language[k])
    requires NoNewlines(lines) && |lines| > 0 && lines[0] == "```" + language
    requires FenceBody(lines[1..]) == (body, used)
    ensures Step(lines) == ([CodeBlockOf(Join(body, "\n"), language)], 1 + used)
  {
    FenceLineOpens(language);
  }

  /** Reading from a fence line: the code block of its body, then whatever follows the fence. */
  lemma FenceBlocks(language: string, lines: seq<string>, body: seq<string>, used: nat)
    requires forall k :: 0 <= k < |language| ==> IsWordChar(language[k])
    requires NoNewlines(lines) && |lines| > 0 && lines[0] == "```" + language
    requires FenceBody(lines[1..]) == (body, used)
    ensures 1 + used <= |lines| && NoNewlines(lines[1 + used..])
    ensures Blocks(lines) == [CodeBlockOf(Join(body, "\n"), language)] + Blocks(lines[1 + used..])
  {
    FenceStep(language, lines, body, used);
    BlocksOfStep(lines, [CodeBlockOf(Join(body, "\n"), language)], 1 + used);
  }

  /** A closed fence: the lines between the fence lines, joined by newlines, in one code block. */
  lemma TerminatedFence(language: string, body: seq<string>, rest: seq<string>)
    requires forall k :: 0 <= k < |language| ==> IsWordChar(language[k])
    requires NoNewlines(body) && NoNewlines(rest)
    requires forall k :: 0 <= k < |body| ==> Strip(body[k]) != "```"
    ensures NoNewlines(["```" + language] + body + ["```"] + rest)
    ensures Blocks(["```" + language] + body + ["```"] + rest)
            == [CodeBlockOf(Join(body, "\n"), language)] + Blocks(rest)
  {
    assert '\n' !in "```" + language by { FenceLineOpens(language); }
    var tail := body + (["```"] + rest);
    NoNewlinesConcat(["```"], rest);
    NoNewlinesConcat(body, ["```"] + rest);
    NoNewlinesConcat(["```" + language], tail);
    var lines := ["```" + language] + tail;
    assert lines == ["```" + language] + body + ["```"] + rest;
    assert lines[1..] == tail;
    StripClean("```");
    assert tail[|body|] == "```";
    assert FenceBody(tail) == (body, |body| + 1) by {
      assert tail[..|body|] == body;
    }
    FenceBlocks(language, lines, body, |body| + 1);
    assert lines[2 + |body|..] == rest;
  }

  lemma FenceBodyAll(body: seq<string>)
    requires forall k :: 0 <= k < |body| ==> Strip(body[k]) != "```"
    ensures FenceBody(body) == (body, |body|)
  {
    var r := FenceBody(body);
    if |r.0| < |body| {
      assert false;
    }
    assert body[..|body|] == body;
  }

  /** The lines of an unclosed fence: the fence line, then the body to the end. */
  lemma FenceLines(language: string, body: seq<string>)
    requires forall k :: 0 <= k < |language| ==> IsWordChar(language[k])
    requires NoNewlines(body)
    ensures var lines := ["```" + language] + body;
            NoNewlines(lines) && lines[0] == "```" + language && lines[1..] == body && lines[1 + |body|..] == []
  {
    assert '\n' !in "```" + language by { FenceLineOpens(language); }
    NoNewlinesConcat(["```" + language], body);
  }

  /** A fence that never closes takes every following line into the code block. */
  lemma UnterminatedFence(language: string, body: seq<string>)
    requires forall k :: 0 <= k < |language| ==> IsWordChar(language[k])
    requires NoNewlines(body)
    requires forall k :: 0 <= k < |body| ==> Strip(body[k]) != "```"
    ensures NoNewlines(["```" + language] + body)
    ensures Blocks(["```" + language] + body) == [CodeBlockOf(Join(body, "\n"), language)]
  {
    FenceLines(language, body);
    FenceBodyAll(body);
    FenceBlocks(language, ["```" + language] + body, body, |body|);
  }
}
