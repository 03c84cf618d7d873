/**
 * A reference writer for the Markdown subset that `convert` understands, and
 * the round trip: reading what it writes gives back the intended blocks.
 *
 * The writer is not part of the original program; it is the independent
 * partner against which the line-oriented reader of `Markdown` is checked.
 * Each block is written as its lines followed by one blank line.
 */
module Render {
  import opened Wrappers
  import opened Text
  import opened Document
  import opened Inline
  import opened Markdown

  predicate IsLetter(c: char) {
    ('a' <= c <= 'z') || ('A' <= c <= 'Z')
  }

  /** Text that stays one line and is unchanged by `strip()`. */
  predicate Clean(s: string) {
    |s| > 0 && '\n' !in s && !IsSpace(s[0]) && !IsSpace(s[|s| - 1])
  }

  /** Paragraph text the reader takes as prose with no inline markup. */
  predicate Prose(s: string) {
    Clean(s) && IsLetter(s[0]) && '*' !in s && '_' !in s && '[' !in s
  }

  /** The blocks the writer knows how to spell. */
  datatype Written =
    | WHeading(hashes: int, text: string)
    | WRule
    | WProse(text: string)
    | WCode(language: string, body: seq<string>)
    | WRun(kind: RunKind, items: seq<string>)

  predicate Writable(b: Written) {
    match b
    case WHeading(n, text) => 1 <= n <= 4 && Clean(text)
    case WRule => true
    case WProse(text) => Prose(text)
    case WCode(language, body) =>
      (forall k :: 0 <= k < |language| ==> IsWordChar(language[k]))
      && NoNewlines(body) && (forall k :: 0 <= k < |body| ==> Strip(body[k]) != "```")
    case WRun(_, items) => |items| > 0 && forall k :: 0 <= k < |items| ==> Clean(items[k])
  }

  /** `n` hash characters, for the heading depths the reader accepts. */
  function Hashes(n: int): (r: string)
    requires 0 <= n <= 4
    ensures |r| == n && forall k :: 0 <= k < n ==> r[k] == '#'
  {
    "####"[..n]
  }

  /** The marker that opens item `k` (counted from zero) of a run. */
  function Marker(kind: RunKind, k: nat): string {
    match kind
    case QuoteRun => "> "
    case BulletRun => "- "
    case NumberedRun => NatToString(k + 1) + ". "
  }

  /** The lines of a run's items, numbered from `from`. */
  function ItemLinesFrom(kind: RunKind, items: seq<string>, from: nat): (r: seq<string>)
    ensures |r| == |items| && forall k :: 0 <= k < |items| ==> r[k] == Marker(kind, from + k) + items[k]
  {
    if |items| == 0 then []
    else
      var rest := ItemLinesFrom(kind, items[1..], from + 1);
      assert forall k :: 1 <= k < |items| ==> rest[k - 1] == Marker(kind, from + k) + items[k] by {
        forall k | 1 <= k < |items| ensures rest[k - 1] == Marker(kind, from + k) + items[k] {
          assert from + 1 + (k - 1) == from + k;
          assert items[1..][k - 1] == items[k];
        }
      }
      [Marker(kind, from) + items[0]] + rest
  }

  function ItemLines(kind: RunKind, items: seq<string>): (r: seq<string>)
    ensures |r| == |items| && forall k :: 0 <= k < |items| ==> r[k] == Marker(kind, k) + items[k]
  {
    ItemLinesFrom(kind, items, 0)
  }

  /** The line kind that opens a run of the given kind. */
  function RunLine(kind: RunKind): LineKind {
    match kind
    case QuoteRun => QuoteLine
    case BulletRun => BulletLine
    case NumberedRun => NumberedLine
  }

  function BlockLines(b: Written): seq<string> {
    match b
    case WHeading(n, text) => [Hashes(if 0 <= n <= 4 then n else 0) + " " + text]
    case WRule => ["---"]
    case WProse(text) => [text]
    case WCode(language, body) => ["```" + language] + body + ["```"]
    case WRun(kind, items) => ItemLines(kind, items)
  }

  /** The block the writer means by each written block. */
  function Meant(b: Written): Node {
    match b
    case WHeading(n, text) => HeadingOf(text, n)
    case WRule => HorizontalRule
    case WProse(text) => Paragraph([Plain(text)])
    case WCode(language, body) => CodeBlockOf(Join(body, "\n"), language)
    case WRun(kind, items) =>
      if |items| > 0 then RunBlock(kind, items) else Paragraph([])
  }

  function MeantAll(bs: seq<Written>): (r: seq<Node>)
    ensures |r| == |bs| && forall k :: 0 <= k < |bs| ==> r[k] == Meant(bs[k])
  {
    if |bs| == 0 then [] else [Meant(bs[0])] + MeantAll(bs[1..])
  }

  /** Every block's lines, each block followed by a blank line. */
  function Lines(bs: seq<Written>): seq<string> {
    if |bs| == 0 then [] else BlockLines(bs[0]) + [""] + Lines(bs[1..])
  }

  /** The Markdown text for the blocks. */
  function Write(bs: seq<Written>): string {
    Join(Lines(bs), "\n")
  }

  // --- Reading single lines ---

  lemma SpacedRestAfter(s: string, i: nat, text: string)
    requires '\n' !in s && i < |s| && s[i] == ' ' && s[i + 1..] == text && Clean(text)
    ensures SpacedRest(s, i) == Some(text)
  {
    assert s[i + 1] == text[0];
  }

  lemma HashesCount(n: int, rest: string)
    requires 0 <= n <= 4 && |rest| > 0 && rest[0] != '#'
    ensures LeadingHashes(Hashes(n) + rest) == n
  {
    var s := Hashes(n) + rest;
    var m := LeadingHashes(s);
    assert s[n] == rest[0];
    assert forall k :: 0 <= k < n ==> s[k] == '#';
  }

  lemma HeadingLineMatch(n: int, text: string)
    requires 1 <= n <= 4 && Clean(text)
    ensures var s := Hashes(n) + " " + text;
            '\n' !in s && Strip(s) == s && s[0] == '#' && MatchHeading(s) == Some((n, text))
  {
    var h := Hashes(n);
    var s := h + (" " + text);
    assert h + " " + text == s;
    assert '\n' !in h;
    assert s[0] == '#' && s[n] == ' ' && s[|s| - 1] == text[|text| - 1];
    StripClean(s);
    HashesCount(n, " " + text);
    assert s[n + 1..] == text;
    SpacedRestAfter(s, n, text);
  }

  lemma HeadingLineRead(n: int, text: string)
    requires 1 <= n <= 4 && Clean(text)
    ensures var s := Hashes(n) + " " + text;
            '\n' !in s && Strip(s) == s && Classify(s) == HeadingLine(n, text)
  {
    HeadingLineMatch(n, text);
    var s := Hashes(n) + " " + text;
    assert s != "" && !IsRule(s);
    ClassifyHeading(s);
  }

  lemma ProseLineRead(text: string)
    requires Prose(text)
    ensures Strip(text) == text && Classify(text) == ParagraphLine
  {
    StripClean(text);
    assert LeadingHashes(text) == 0;
    assert LeadingDigits(text) == 0;
  }

  lemma RuleLineRead()
    ensures Strip("---") == "---" && Classify("---") == Rule
  {
    StripClean("---");
  }

  lemma DigitsCount(d: string, rest: string)
    requires forall k :: 0 <= k < |d| ==> IsDigit(d[k])
    requires |rest| > 0 && !IsDigit(rest[0])
    ensures LeadingDigits(d + rest) == |d|
  {
    var s := d + rest;
    assert s[|d|] == rest[0];
    assert forall k :: 0 <= k < |d| ==> s[k] == d[k];
  }

  /** A marker and a clean item make a line that `strip()` leaves alone. */
  lemma MarkedLine(m: string, item: string)
    requires |m| > 0 && !IsSpace(m[0]) && '\n' !in m && Clean(item)
    ensures '\n' !in m + item && Strip(m + item) == m + item
    ensures (m + item)[..|m|] == m && (m + item)[|m|..] == item
  {
    var s := m + item;
    assert s[0] == m[0] && s[|s| - 1] == item[|item| - 1];
    StripClean(s);
  }

  /** After a run of digits, `. ` and a clean item, the numbered pattern keeps exactly the item. */
  lemma DigitsMatch(d: string, item: string)
    requires 0 < |d| && (forall j :: 0 <= j < |d| ==> IsDigit(d[j])) && Clean(item)
    ensures var s := d + ". " + item;
            '\n' !in s && IsDigit(s[0]) && MatchNumbered(s) == Some(item)
  {
    var s := d + ". " + item;
    assert s == d + (". " + item);
    assert s[0] == d[0];
    assert '\n' !in d;
    assert '\n' !in s by { assert s[..|d| + 2] == d + ". " && s[|d| + 2..] == item; }
    assert LeadingDigits(s) == |d| by { DigitsCount(d, ". " + item); }
    assert s[|d|] == '.' && s[|d| + 1] == ' ';
    assert MatchNumbered(s) == SpacedRest(s, |d| + 1);
    assert s[|d| + 2..] == item;
    SpacedRestAfter(s, |d| + 1, item);
  }

  /** A numbered item line is its own strip, and the numbered pattern keeps exactly the item. */
  lemma NumberedLineRead(k: nat, item: string)
    requires Clean(item)
    ensures var s := NatToString(k + 1) + ". " + item;
            '\n' !in s && Strip(s) == s && MatchNumbered(s) == Some(item)
  {
    var d := NatToString(k + 1);
    DigitsMatch(d, item);
    assert '\n' !in d;
    assert Strip(d + ". " + item) == d + ". " + item by { MarkedLine(d + ". ", item); }
  }

  /** An item line is its own strip, and the run's test keeps exactly the item. */
  lemma ItemLineRead(kind: RunKind, k: nat, item: string)
    requires Clean(item)
    ensures var s := Marker(kind, k) + item;
            '\n' !in s && Strip(s) == s && RunItem(kind, s) == Some(item)
  {
    match kind
    case QuoteRun => MarkedLine("> ", item);
    case BulletRun => MarkedLine("- ", item);
    case NumberedRun => NumberedLineRead(k, item);
  }

  /** Tests that cannot pass on a line, judging by its first character. */
  lemma FirstCharExcludes(s: string)
    requires '\n' !in s && |s| > 0
    ensures s[0] != '#' ==> MatchHeading(s).None?
    ensures s[0] != '`' ==> MatchFence(s).None?
    ensures s[0] != '!' ==> MatchImage(s).None?
    ensures !IsDigit(s[0]) ==> MatchNumbered(s).None?
    ensures IsRule(s) ==> s[0] == '-' || s[0] == '*' || s[0] == '_'
  {
    if MatchFence(s).Some? {
      assert s[0] == ("```" + MatchFence(s).value)[0];
    }
    if MatchImage(s).Some? {
      var v := MatchImage(s).value;
      assert s[0] == ("![" + v.0 + "](" + v.1 + ")")[0];
    }
  }

  /** A quote item line is classified as a quote line. */
  lemma QuoteOpens(item: string)
    requires Clean(item)
    ensures Classify("> " + item) == QuoteLine
  {
    var s := "> " + item;
    assert '\n' !in s by { MarkedLine("> ", item); }
    assert s[0] == '>' && s[..2] == "> ";
    assert MatchHeading(s).None? && MatchFence(s).None? && MatchImage(s).None? by { FirstCharExcludes(s); }
  }

  /** A bullet item line is classified as a bullet line. */
  lemma BulletOpens(item: string)
    requires Clean(item)
    ensures Classify("- " + item) == BulletLine
  {
    var s := "- " + item;
    assert '\n' !in s by { MarkedLine("- ", item); }
    assert s[0] == '-' && s[1] == ' ' && s[..2] == "- ";
    assert MatchHeading(s).None? && MatchFence(s).None? && MatchImage(s).None? by { FirstCharExcludes(s); }
    assert !IsRule(s) && !StartsWith(s, "> ");
  }

  /** The first numbered item line is classified as a numbered line. */
  lemma NumberedOpens(item: string)
    requires Clean(item)
    ensures var s := Marker(NumberedRun, 0) + item;
            '\n' !in s && Classify(s) == NumberedLine
  {
    var d := NatToString(0 + 1);
    var s := d + ". " + item;
    DigitsMatch(d, item);
    assert MatchHeading(s).None? && MatchFence(s).None? && MatchImage(s).None? by { FirstCharExcludes(s); }
    assert !IsRule(s) && !StartsWith(s, "> ") && !StartsWith(s, "- ") && !StartsWith(s, "* ");
  }

  /** The first line of a run opens a run of that kind. */
  lemma RunOpens(kind: RunKind, item: string)
    requires Clean(item)
    ensures var s := Marker(kind, 0) + item;
            '\n' !in s && Strip(s) == s && Classify(s) == RunLine(kind)
  {
    ItemLineRead(kind, 0, item);
    match kind
    case QuoteRun => QuoteOpens(item);
    case BulletRun => BulletOpens(item);
    case NumberedRun => NumberedOpens(item);
  }

  /** A run of item lines ended by a blank line yields exactly its items. */
  lemma RunCollects(kind: RunKind, items: seq<string>, rest: seq<string>)
    requires forall k :: 0 <= k < |items| ==> Clean(items[k])
    requires NoNewlines(rest)
    ensures NoNewlines(ItemLines(kind, items) + [""] + rest)
    ensures CollectRun(ItemLines(kind, items) + [""] + rest, kind)
            == (items, |items| + (if kind == QuoteRun then 0 else 1))
  {
    var il := ItemLines(kind, items);
    var lines := il + [""] + rest;
    forall k | 0 <= k < |items| ensures '\n' !in il[k] && RunItem(kind, Strip(il[k])) == Some(items[k]) {
      ItemLineRead(kind, k, items[k]);
    }
    NoNewlinesConcat(il, [""]);
    NoNewlinesConcat(il + [""], rest);
    assert forall k :: 0 <= k < |items| ==> lines[k] == il[k];
    assert lines[|items|] == "";
    RunEndsAtBlank(lines, kind, items);
  }

  // --- Reading whole blocks ---

  /** A line that is one step on its own, then a blank line, reads as its block. */
  lemma OneLineBlock(l: string, rest: seq<string>, n: Node)
    requires '\n' !in l && NoNewlines(rest)
    requires NoNewlines([l] + [""] + rest) && Step([l] + [""] + rest) == ([n], 1)
    ensures Blocks([l] + [""] + rest) == [n] + Blocks(rest)
  {
    var lines := [l] + [""] + rest;
    BlocksUnfold(lines);
    assert lines[1..] == [""] + rest;
    BlankLineSkipped("", rest);
  }

  lemma HeadingBlockRead(n: int, text: string, rest: seq<string>)
    requires 1 <= n <= 4 && Clean(text) && NoNewlines(rest)
    ensures NoNewlines([Hashes(n) + " " + text] + [""] + rest)
    ensures Blocks([Hashes(n) + " " + text] + [""] + rest) == [HeadingOf(text, n)] + Blocks(rest)
  {
    var l := Hashes(n) + " " + text;
    HeadingLineRead(n, text);
    NoNewlinesConcat([l, ""], rest);
    var lines := [l] + [""] + rest;
    assert lines == [l, ""] + rest;
    assert lines[0] == l;
    StepOneLine(lines);
    OneLineBlock(l, rest, HeadingOf(text, n));
  }

  lemma RuleBlockRead(rest: seq<string>)
    requires NoNewlines(rest)
    ensures NoNewlines(["---"] + [""] + rest)
    ensures Blocks(["---"] + [""] + rest) == [HorizontalRule] + Blocks(rest)
  {
    RuleLineRead();
    NoNewlinesConcat(["---", ""], rest);
    assert ["---"] + [""] + rest == ["---", ""] + rest;
    OneLineBlock("---", rest, HorizontalRule);
  }

  lemma ProseBlockRead(text: string, rest: seq<string>)
    requires Prose(text) && NoNewlines(rest)
    ensures NoNewlines([text] + [""] + rest)
    ensures Blocks([text] + [""] + rest) == [Paragraph([Plain(text)])] + Blocks(rest)
  {
    ProseLineRead(text);
    PlainLinePassesThrough(text);
    NoNewlinesConcat([text, ""], rest);
    assert [text] + [""] + rest == [text, ""] + rest;
    OneLineBlock(text, rest, Paragraph([Plain(text)]));
  }

  lemma CodeBlockRead(language: string, body: seq<string>, rest: seq<string>)
    requires Writable(WCode(language, body)) && NoNewlines(rest)
    ensures NoNewlines(["```" + language] + body + ["```"] + [""] + rest)
    ensures Blocks(["```" + language] + body + ["```"] + [""] + rest)
            == [CodeBlockOf(Join(body, "\n"), language)] + Blocks(rest)
  {
    NoNewlinesConcat([""], rest);
    TerminatedFence(language, body, [""] + rest);
    assert ["```" + language] + body + ["```"] + [""] + rest == ["```" + language] + body + ["```"] + ([""] + rest);
    BlankLineSkipped("", rest);
  }

  lemma RunStepIs(lines: seq<string>, kind: RunKind)
    requires NoNewlines(lines) && |lines| > 0
    requires Classify(Strip(lines[0])) == RunLine(kind) && RunItem(kind, Strip(lines[0])).Some?
    ensures Step(lines) == RunStep(lines, kind)
  {
  }

  /** The step at the first line of a written run reads the whole run, and the blank line after it for lists. */
  lemma RunStepOf(kind: RunKind, items: seq<string>, rest: seq<string>)
    requires Writable(WRun(kind, items)) && NoNewlines(rest)
    ensures var lines := ItemLines(kind, items) + [""] + rest;
            NoNewlines(lines) && |lines| > 0
            && Step(lines) == ([RunBlock(kind, items)], |items| + (if kind == QuoteRun then 0 else 1))
  {
    var lines := ItemLines(kind, items) + [""] + rest;
    RunCollects(kind, items, rest);
    RunOpens(kind, items[0]);
    ItemLineRead(kind, 0, items[0]);
    assert lines[0] == Marker(kind, 0) + items[0];
    RunStepIs(lines, kind);
  }

  lemma RunBlockRead(kind: RunKind, items: seq<string>, rest: seq<string>)
    requires Writable(WRun(kind, items)) && NoNewlines(rest)
    ensures NoNewlines(ItemLines(kind, items) + [""] + rest)
    ensures Blocks(ItemLines(kind, items) + [""] + rest) == [RunBlock(kind, items)] + Blocks(rest)
  {
    RunStepOf(kind, items, rest);
    assert |ItemLines(kind, items)| == |items|;
    TailAfterStep(ItemLines(kind, items) + [""] + rest, ItemLines(kind, items), rest, [RunBlock(kind, items)], |items| + (if kind == QuoteRun then 0 else 1));
  }

  /** A step over written lines that ends at, or just past, the blank separator leaves the rest to be read. */
  lemma TailAfterStep(lines: seq<string>, written: seq<string>, rest: seq<string>, nodes: seq<Node>, used: nat)
    requires lines == written + [""] + rest
    requires NoNewlines(lines) && NoNewlines(rest) && |lines| > 0 && Step(lines) == (nodes, used)
    requires used == |written| || used == |written| + 1
    ensures Blocks(lines) == nodes + Blocks(rest)
  {
    BlocksOfStep(lines, nodes, used);
    AfterLines(written, [""], rest);
    if used == |written| {
      BlankLineSkipped("", rest);
    }
  }

  /** What is left of three joined line sequences after the first, and after the first two. */
  lemma AfterLines(a: seq<string>, b: seq<string>, c: seq<string>)
    ensures (a + b + c)[|a|..] == b + c && (a + b + c)[|a| + |b|..] == c
  {
  }

  /** One written block followed by a blank line reads back as the block meant. */
  lemma BlockRead(b: Written, rest: seq<string>)
    requires Writable(b) && NoNewlines(rest)
    ensures NoNewlines(BlockLines(b) + [""] + rest)
    ensures Blocks(BlockLines(b) + [""] + rest) == [Meant(b)] + Blocks(rest)
  {
    match b
    case WHeading(n, text) => HeadingBlockRead(n, text, rest);
    case WRule => RuleBlockRead(rest);
    case WProse(text) => ProseBlockRead(text, rest);
    case WCode(language, body) => CodeBlockRead(language, body, rest);
    case WRun(kind, items) => RunBlockRead(kind, items, rest);
  }

  /** The written lines of writable blocks read back as the blocks meant, in order. */
  lemma {:induction false} LinesRead(bs: seq<Written>)
    requires forall k :: 0 <= k < |bs| ==> Writable(bs[k])
    ensures NoNewlines(Lines(bs))
    ensures Blocks(Lines(bs)) == MeantAll(bs)
    decreases |bs|
  {
    if |bs| > 0 {
      LinesRead(bs[1..]);
      BlockRead(bs[0], Lines(bs[1..]));
    }
  }

  /** `convert` of written Markdown is the document of the blocks meant. */
  lemma ConvertReadsWrite(bs: seq<Written>)
    requires forall k :: 0 <= k < |bs| ==> Writable(bs[k])
    ensures ConvertDoc(Write(bs)) == Doc(MeantAll(bs))
  {
    if |bs| == 0 {
      EmptyInputEmptyDoc();
    } else {
      LinesRead(bs);
      assert Lines(bs) == BlockLines(bs[0]) + [""] + Lines(bs[1..]);
      SplitJoin(Lines(bs), '\n');
    }
  }
}
