/**
 * `MarkdownToSubstack._parse_inline` (substack_client.py): one left-to-right,
 * non-overlapping scan of a line with the pattern
 *
 *     (\*\*(.+?)\*\*|\*(.+?)\*|_(.+?)_|\[([^\]]+)\]\(([^)]+)\))
 *
 * as `re.finditer` runs it: at each position the alternatives are tried in
 * order (bold, `*` italic, `_` italic, link), the first one that matches wins,
 * the lazy `.+?` takes the shortest run (which may not cross a newline), and
 * the search resumes where the match ended.  The text between matches becomes
 * mark-less text nodes.
 */
module Inline {
  import opened Wrappers
  import opened Text
  import opened Document

  /** `d` occurs in `t` at position `e`. */
  predicate At(t: string, e: int, d: string) {
    0 <= e && e + |d| <= |t| && t[e..e + |d|] == d
  }

  /** No newline among `t[a..b]`: the part a `.` run may cover. */
  predicate NoNewline(t: string, a: int, b: int) {
    forall j :: a <= j < b && 0 <= j < |t| ==> t[j] != '\n'
  }

  /** `t[c..e]` is a run `.+` followed by the delimiter `d`. */
  predicate Closes(t: string, c: int, e: int, d: string) {
    c < e && NoNewline(t, c, e) && At(t, e, d)
  }

  function LazyFrom(t: string, c: nat, e: nat, d: string): (r: Option<nat>)
    requires c < e <= |t| + 1
    requires NoNewline(t, c, e - 1)
    requires forall e' :: c < e' < e ==> !At(t, e', d)
    ensures r.Some? ==> Closes(t, c, r.value, d) && forall e' :: c < e' < r.value ==> !At(t, e', d)
    ensures r.None? ==> forall e' :: c < e' ==> !Closes(t, c, e', d)
    decreases |t| + 1 - e
  {
    if e > |t| then None
    else if t[e - 1] == '\n' then
      assert forall e' :: e <= e' ==> !NoNewline(t, c, e');
      None
    else if At(t, e, d) then Some(e)
    else LazyFrom(t, c, e + 1, d)
  }

  /**
   * The lazy run `(.+?)` starting at `c` and closed by `d`: the end of the
   * shortest non-empty, newline-free run that `d` follows, if there is one.
   */
  function LazyEnd(t: string, c: nat, d: string): (r: Option<nat>)
    requires c <= |t|
    ensures r.Some? ==> Closes(t, c, r.value, d) && forall e' :: c < e' < r.value ==> !At(t, e', d)
    ensures r.None? ==> forall e' :: c < e' ==> !Closes(t, c, e', d)
  {
    LazyFrom(t, c, c + 1, d)
  }

  /** Which alternative of the pattern matched. */
  datatype Alt = BoldAlt | StarAlt | UnderscoreAlt | LinkAlt

  /** A match: its alternative, where it ends, the marked text, and (for links) the target. */
  datatype Match = Match(alt: Alt, end: nat, inner: string, href: string)

  /** The delimiter of a `d(.+?)d` alternative. */
  function DelimOf(alt: Alt): string {
    match alt
    case BoldAlt => "**"
    case StarAlt => "*"
    case UnderscoreAlt => "_"
    case LinkAlt => ""
  }

  /**
   * `m` has the shape its alternative demands at `p`: `d inner d` with a
   * non-empty, newline-free `inner` and no earlier closing `d` (the lazy run),
   * or `[inner](href)` with no `]` in `inner` and no `)` in `href`.
   */
  predicate WellShaped(t: string, p: nat, m: Match) {
    p < m.end <= |t| && |m.inner| > 0 &&
    if m.alt == LinkAlt then
      t[p..m.end] == "[" + m.inner + "](" + m.href + ")" && ']' !in m.inner && ')' !in m.href && |m.href| > 0
    else
      var d := DelimOf(m.alt);
      t[p..m.end] == d + m.inner + d && '\n' !in m.inner
      && forall e :: p + |d| < e < m.end - |d| ==> !At(t, e, d)
  }

  lemma AtFirst(t: string, e: int, d: string)
    requires At(t, e, d) && |d| > 0
    ensures t[e] == d[0]
  {
    assert t[e..e + |d|][0] == t[e];
  }

  /** A delimiter at `p` whose lazy run ends at `e` gives a well-shaped match. */
  lemma DelimShaped(t: string, p: nat, alt: Alt, e: nat)
    requires alt != LinkAlt && At(t, p, DelimOf(alt))
    requires Closes(t, p + |DelimOf(alt)|, e, DelimOf(alt))
    requires forall e' :: p + |DelimOf(alt)| < e' < e ==> !At(t, e', DelimOf(alt))
    ensures WellShaped(t, p, Match(alt, e + |DelimOf(alt)|, t[p + |DelimOf(alt)|..e], ""))
  {
    var d := DelimOf(alt);
    assert t[p..e + |d|] == d + t[p + |d|..e] + d;
    NotInSlice(t, p + |d|, e, '\n');
  }

  /** The alternative `d(.+?)d` tried at `p`. */
  function DelimAt(t: string, p: nat, alt: Alt): (r: Option<Match>)
    requires p <= |t| && alt != LinkAlt
    ensures r.Some? ==> r.value.alt == alt && WellShaped(t, p, r.value)
    ensures r.None? ==> !At(t, p, DelimOf(alt)) || LazyEnd(t, p + |DelimOf(alt)|, DelimOf(alt)).None?
  {
    var d := DelimOf(alt);
    if At(t, p, d) && LazyEnd(t, p + |d|, d).Some? then
      var e := LazyEnd(t, p + |d|, d).value;
      DelimShaped(t, p, alt, e);
      Some(Match(alt, e + |d|, t[p + |d|..e], ""))
    else None
  }

  /** `[inner](href)` at `p`, with `]` at `q` and `)` at `r`, as `\[([^\]]+)\]\(([^)]+)\)` requires. */
  predicate LinkShape(t: string, p: int, q: int, r: int) {
    0 <= p && p + 1 < q && q + 2 < r < |t|
    && t[p] == '[' && t[q] == ']' && t[q + 1] == '(' && t[r] == ')'
    && (forall j :: p < j < q ==> t[j] != ']')
    && (forall j :: q + 1 < j < r ==> t[j] != ')')
  }

  /** The link alternative at `p`. */
  function LinkAt(t: string, p: nat): (r: Option<Match>)
    requires p < |t|
    ensures r.Some? ==> r.value.alt == LinkAlt && WellShaped(t, p, r.value)
  {
    if t[p] != '[' then None
    else
      match FindChar(t, p + 1, ']')
      case None => None
      case Some(q) =>
        if q == p + 1 || q + 1 >= |t| || t[q + 1] != '(' then None
        else
          match FindChar(t, q + 2, ')')
          case None => None
          case Some(e) =>
            if e == q + 2 then None
            else
              assert t[p..e + 1] == "[" + t[p + 1..q] + "](" + t[q + 2..e] + ")";
              NotInSlice(t, p + 1, q, ']');
              NotInSlice(t, q + 2, e, ')');
              Some(Match(LinkAlt, e + 1, t[p + 1..q], t[q + 2..e]))
  }

  /** Whenever the link pattern fits at `p`, the link alternative matches. */
  lemma LinkShapeFound(t: string, p: nat, q: int, e: int)
    requires p < |t| && LinkShape(t, p, q, e)
    ensures LinkAt(t, p).Some?
  {
    var fq := FindChar(t, p + 1, ']');
    assert fq == Some(q);
    var fe := FindChar(t, q + 2, ')');
    assert fe == Some(e);
  }

  /**
   * The alternatives tried in order at `p`: bold, `*` italic, `_` italic, link;
   * the first that matches wins.
   */
  function MatchAt(t: string, p: nat): (r: Option<Match>)
    requires p <= |t|
    ensures r.Some? ==> WellShaped(t, p, r.value)
    ensures r.Some? && r.value.alt != BoldAlt ==> DelimAt(t, p, BoldAlt).None?
    ensures p == |t| ==> r.None?
  {
    if p == |t| then None
    else if DelimAt(t, p, BoldAlt).Some? then DelimAt(t, p, BoldAlt)
    else if DelimAt(t, p, StarAlt).Some? then DelimAt(t, p, StarAlt)
    else if DelimAt(t, p, UnderscoreAlt).Some? then DelimAt(t, p, UnderscoreAlt)
    else LinkAt(t, p)
  }

  /** A `*` that some newline-free run and a further `*` follow always starts a match (bold or italic). */
  lemma StarOpensMatch(t: string, p: nat, e: nat)
    requires p < |t| && t[p] == '*' && Closes(t, p + 1, e, "*")
    ensures MatchAt(t, p).Some?
  {
    assert At(t, p, "*");
    if DelimAt(t, p, BoldAlt).None? {
      assert LazyEnd(t, p + 1, "*").Some?;
    }
  }

  /** An `_` that some newline-free run and a further `_` follow always starts a match. */
  lemma UnderscoreOpensMatch(t: string, p: nat, e: nat)
    requires p < |t| && t[p] == '_' && Closes(t, p + 1, e, "_")
    ensures MatchAt(t, p).Some?
  {
    assert At(t, p, "_");
    assert !At(t, p, "**") && !At(t, p, "*");
    assert LazyEnd(t, p + 1, "_").Some?;
  }

  /** Text of link shape always starts a match. */
  lemma LinkOpensMatch(t: string, p: nat, q: int, e: int)
    requires p < |t| && LinkShape(t, p, q, e)
    ensures MatchAt(t, p).Some?
  {
    assert !At(t, p, "*") && !At(t, p, "**") && !At(t, p, "_");
    LinkShapeFound(t, p, q, e);
  }

  /** The first position at or after `pos` where some alternative matches. */
  function FirstMatch(t: string, pos: nat): (r: Option<nat>)
    requires pos <= |t|
    ensures r.Some? ==> pos <= r.value < |t| && MatchAt(t, r.value).Some?
    ensures r.Some? ==> forall q :: pos <= q < r.value ==> MatchAt(t, q).None?
    ensures r.None? ==> forall q :: pos <= q <= |t| ==> MatchAt(t, q).None?
    decreases |t| - pos
  {
    if pos == |t| then None
    else if MatchAt(t, pos).Some? then Some(pos)
    else FirstMatch(t, pos + 1)
  }

  /** A piece of the scanned line: unmatched text `t[start..stop]`, or a match starting at `start`. */
  datatype Token = Gap(start: nat, stop: nat) | Hit(start: nat, m: Match)

  function End(tok: Token): nat {
    match tok
    case Gap(_, stop) => stop
    case Hit(_, m) => m.end
  }

  /** The tokens cover `t[from..to]` one after another, each non-empty. */
  predicate Tiles(toks: seq<Token>, from: nat, to: nat)
    decreases |toks|
  {
    if |toks| == 0 then from == to
    else toks[0].start == from && from < End(toks[0]) <= to && Tiles(toks[1..], End(toks[0]), to)
  }

  /** A gap holds no position where a match starts; a hit is the match found at its start. */
  predicate ValidToken(t: string, tok: Token) {
    match tok
    case Gap(a, b) => a < b <= |t| && forall q :: a <= q < b ==> MatchAt(t, q).None?
    case Hit(a, m) => a <= |t| && MatchAt(t, a) == Some(m)
  }

  /** Two gaps never stand side by side: unmatched text is one node up to the next match. */
  predicate GapsSeparated(toks: seq<Token>) {
    forall k :: 0 <= k < |toks| - 1 ==> !(toks[k].Gap? && toks[k + 1].Gap?)
  }

  /** What `re.finditer` visits from `pos` on, with the text between matches as gaps. */
  function Scan(t: string, pos: nat): (r: seq<Token>)
    requires pos <= |t|
    ensures Tiles(r, pos, |t|)
    ensures forall k :: 0 <= k < |r| ==> ValidToken(t, r[k])
    ensures GapsSeparated(r)
    ensures |r| > 0 ==> r[0].Gap? ==> |r| == 1 || r[1].Hit?
    decreases |t| - pos
  {
    match FirstMatch(t, pos)
    case None =>
      if pos < |t| then [Gap(pos, |t|)] else []
    case Some(p) =>
      var m := MatchAt(t, p).value;
      var rest := Scan(t, m.end);
      var hit := [Hit(p, m)] + rest;
      assert Tiles(hit, p, |t|) by {
        assert hit[1..] == rest;
      }
      assert forall k :: 0 <= k < |hit| ==> ValidToken(t, hit[k]) by {
        forall k | 0 <= k < |hit| ensures ValidToken(t, hit[k]) {
          if k > 0 { assert hit[k] == rest[k - 1]; }
        }
      }
      assert GapsSeparated(hit) by {
        forall k | 0 <= k < |hit| - 1 ensures !(hit[k].Gap? && hit[k + 1].Gap?) {
          if k > 0 { assert hit[k] == rest[k - 1] && hit[k + 1] == rest[k]; }
        }
      }
      if p > pos then
        var r := [Gap(pos, p)] + hit;
        assert r[1..] == hit;
        assert forall k :: 1 <= k < |r| ==> r[k] == hit[k - 1];
        r
      else hit
  }

  /** The source text a token covers. */
  function Raw(t: string, tok: Token): string
    requires tok.start <= End(tok) <= |t|
  {
    t[tok.start..End(tok)]
  }

  function RawAll(t: string, toks: seq<Token>, from: nat, to: nat): string
    requires to <= |t| && Tiles(toks, from, to)
    decreases |toks|
  {
    if |toks| == 0 then "" else Raw(t, toks[0]) + RawAll(t, toks[1..], End(toks[0]), to)
  }

  /** Tiling loses nothing: the covered pieces, in order, spell the covered text. */
  lemma {:induction false} RawAllSpells(t: string, toks: seq<Token>, from: nat, to: nat)
    requires to <= |t| && Tiles(toks, from, to)
    ensures from <= to
    ensures RawAll(t, toks, from, to) == t[from..to]
    decreases |toks|
  {
    if |toks| > 0 {
      RawAllSpells(t, toks[1..], End(toks[0]), to);
      assert t[from..to] == t[from..End(toks[0])] + t[End(toks[0])..to];
    }
  }

  /** The scan of a line, read back as text, is the line. */
  lemma ScanIsLossless(t: string)
    ensures RawAll(t, Scan(t, 0), 0, |t|) == t
  {
    RawAllSpells(t, Scan(t, 0), 0, |t|);
  }

  /** The first match at or after `pos` is at `b` when none starts in between. */
  lemma FirstMatchAt(t: string, pos: nat, b: nat)
    requires pos <= b <= |t|
    requires forall q :: pos <= q < b ==> MatchAt(t, q).None?
    requires MatchAt(t, b).Some?
    ensures FirstMatch(t, pos) == Some(b)
  {
  }

  lemma FirstMatchNone(t: string, pos: nat)
    requires pos <= |t|
    requires forall q :: pos <= q < |t| ==> MatchAt(t, q).None?
    ensures FirstMatch(t, pos).None?
  {
  }

  lemma TailConditions(t: string, toks: seq<Token>)
    requires |toks| > 0
    requires forall k :: 0 <= k < |toks| ==> ValidToken(t, toks[k])
    requires GapsSeparated(toks)
    ensures forall k :: 0 <= k < |toks[1..]| ==> ValidToken(t, toks[1..][k])
    ensures GapsSeparated(toks[1..])
  {
    var rest := toks[1..];
    forall k | 0 <= k < |rest| ensures ValidToken(t, rest[k]) { assert rest[k] == toks[k + 1]; }
    forall k | 0 <= k < |rest| - 1 ensures !(rest[k].Gap? && rest[k + 1].Gap?) {
      assert rest[k] == toks[k + 1] && rest[k + 1] == toks[k + 2];
    }
  }

  /** The scan from `pos` when the first match at or after `pos` is `m` at `p`. */
  lemma ScanAt(t: string, pos: nat, p: nat, m: Match)
    requires pos <= p <= |t| && FirstMatch(t, pos) == Some(p) && MatchAt(t, p) == Some(m)
    ensures Scan(t, pos) == (if p > pos then [Gap(pos, p)] else []) + [Hit(p, m)] + Scan(t, m.end)
  {
  }

  /** Any tiling of valid tokens without neighbouring gaps is the scan: the scan is the only leftmost-first reading. */
  lemma {:induction false} ScanUnique(t: string, pos: nat, toks: seq<Token>)
    requires pos <= |t|
    requires Tiles(toks, pos, |t|)
    requires forall k :: 0 <= k < |toks| ==> ValidToken(t, toks[k])
    requires GapsSeparated(toks)
    ensures toks == Scan(t, pos)
    decreases |toks|
  {
    if |toks| == 0 {
      FirstMatchNone(t, pos);
    } else {
      var rest := toks[1..];
      TailConditions(t, toks);
      assert ValidToken(t, toks[0]);
      match toks[0]
      case Hit(a, m) =>
        FirstMatchAt(t, pos, pos);
        ScanUnique(t, m.end, rest);
        ScanAt(t, pos, pos, m);
        assert toks == [] + [Hit(pos, m)] + rest;
      case Gap(a, b) =>
        if |rest| == 0 {
          FirstMatchNone(t, pos);
        } else {
          assert rest[0] == toks[1];
          assert toks[1].Hit? && ValidToken(t, toks[1]);
          var m := rest[0].m;
          FirstMatchAt(t, pos, b);
          TailConditions(t, rest);
          ScanUnique(t, m.end, rest[1..]);
          ScanAt(t, pos, b, m);
          assert toks == [Gap(pos, b)] + [Hit(b, m)] + rest[1..];
        }
    }
  }

  /** The node `_parse_inline` emits for a token (with the classification by matched alternative). */
  function TokenNode(t: string, tok: Token): (r: Node)
    requires ValidToken(t, tok)
    ensures r.Text? && |r.text| > 0 && |r.marks| <= 1
    ensures tok.Gap? <==> r.marks == []
  {
    match tok
    case Gap(a, b) => Plain(t[a..b])
    case Hit(_, m) =>
      match m.alt
      case BoldAlt => Bold(m.inner)
      case StarAlt => Italic(m.inner)
      case UnderscoreAlt => Italic(m.inner)
      case LinkAlt => LinkText(m.inner, m.href)
  }

  function TokenNodes(t: string, toks: seq<Token>): (r: seq<Node>)
    requires forall k :: 0 <= k < |toks| ==> ValidToken(t, toks[k])
    ensures |r| == |toks|
    ensures forall k :: 0 <= k < |toks| ==> r[k] == TokenNode(t, toks[k])
  {
    if |toks| == 0 then [] else [TokenNode(t, toks[0])] + TokenNodes(t, toks[1..])
  }

  /**
   * `_parse_inline(text)`: one text node per token.  Every node carries text,
   * unmatched spans carry no mark and matched spans exactly one, and a
   * non-empty line never gives an empty list.
   */
  function ParseInline(t: string): (r: seq<Node>)
    ensures |t| > 0 <==> |r| > 0
    ensures forall k :: 0 <= k < |r| ==> r[k].Text? && |r[k].text| > 0 && |r[k].marks| <= 1
  {
    var toks := Scan(t, 0);
    var nodes := TokenNodes(t, toks);
    if |nodes| == 0 && |t| > 0 then [Plain(t)] else nodes
  }

  /** A line with no `*`, `_` or `[` comes out as one mark-less text node holding the whole line. */
  lemma PlainLinePassesThrough(t: string)
    requires |t| > 0
    requires forall k :: 0 <= k < |t| ==> t[k] != '*' && t[k] != '_' && t[k] != '['
    ensures ParseInline(t) == [Plain(t)]
  {
    forall q | 0 <= q <= |t| ensures MatchAt(t, q).None? {
      if q < |t| {
        if At(t, q, "**") { AtFirst(t, q, "**"); }
        if At(t, q, "*") { AtFirst(t, q, "*"); }
        if At(t, q, "_") { AtFirst(t, q, "_"); }
      }
    }
    FirstMatchNone(t, 0);
    assert t[0..|t|] == t;
  }

  // --- The classification the source writes ---

  /** A text node as the source builds it: `text` is `None` when it reads a group that did not take part. */
  datatype RawText = RawText(text: Option<string>, marks: seq<Mark>)

  /**
   * The node the source builds for a match: it classifies by the first
   * characters of the matched text (`**` means bold, `[` a link, otherwise
   * italic), reading group 2 for bold, groups 5 and 6 for a link, and group 3
   * or else group 4 for italic.
   */
  function HitAsWritten(t: string, a: nat, m: Match): (r: RawText)
    requires a <= |t| && MatchAt(t, a) == Some(m)
  {
    var full := t[a..m.end];
    if StartsWith(full, "**") then RawText(if m.alt == BoldAlt then Some(m.inner) else None, [Strong])
    else if StartsWith(full, "[") then RawText(Some(m.inner), [Link(m.href, None)])
    else RawText(Some(m.inner), [Em])
  }

  /** How the matched text of each alternative begins: `**` for bold, `[` exactly for a link. */
  lemma MatchOpening(t: string, a: nat, m: Match)
    requires WellShaped(t, a, m)
    ensures var full := t[a..m.end];
            && (m.alt == BoldAlt ==> StartsWith(full, "**"))
            && (m.alt == UnderscoreAlt || m.alt == LinkAlt ==> !StartsWith(full, "**"))
            && (StartsWith(full, "[") <==> m.alt == LinkAlt)
  {
    var full := t[a..m.end];
    match m.alt
    case BoldAlt =>
      assert full == "**" + m.inner + "**";
      assert StartsWith(full, "**") && full[0] == '*';
    case StarAlt =>
      assert full == "*" + m.inner + "*";
      assert full[0] == '*';
    case UnderscoreAlt =>
      assert full == "_" + m.inner + "_";
      assert full[0] == '_';
    case LinkAlt =>
      assert full == "[" + m.inner + "](" + m.href + ")";
      assert full[0] == '[';
  }

  /** Away from a `*` italic match that starts `**`, the source's classification agrees with the alternative that matched. */
  lemma HitAsWrittenAgrees(t: string, a: nat, m: Match)
    requires a <= |t| && MatchAt(t, a) == Some(m)
    requires !(m.alt == StarAlt && StartsWith(t[a..m.end], "**"))
    ensures HitAsWritten(t, a, m) == RawText(Some(TokenNode(t, Hit(a, m)).text), TokenNode(t, Hit(a, m)).marks)
  {
    MatchOpening(t, a, m);
  }

  /**
   * On the line `**a*` the bold alternative finds no closing `**`, the `*`
   * italic alternative matches the whole line with group 3 = `*a`, and the
   * source, seeing `**` at the front, emits a bold text node whose text is
   * group 2, which is `None`.  The corrected classification gives italic `*a`.
   */
  lemma StarItalicMisreadAsBold()
    ensures Scan("**a*", 0) == [Hit(0, Match(StarAlt, 4, "*a", ""))]
    ensures HitAsWritten("**a*", 0, Match(StarAlt, 4, "*a", "")) == RawText(None, [Strong])
    ensures ParseInline("**a*") == [Italic("*a")]
  {
    var t := "**a*";
    assert LazyFrom(t, 2, 5, "**").None?;
    assert !At(t, 4, "**");
    assert LazyFrom(t, 2, 4, "**").None?;
    assert !At(t, 3, "**");
    assert LazyEnd(t, 2, "**").None?;
    assert DelimAt(t, 0, BoldAlt).None?;
    assert At(t, 3, "*");
    assert t[1] == '*' && t[2] == 'a';
    if At(t, 2, "*") { AtFirst(t, 2, "*"); }
    assert LazyFrom(t, 1, 3, "*") == Some(3);
    assert LazyEnd(t, 1, "*") == Some(3);
    assert t[1..3] == "*a";
    assert DelimAt(t, 0, StarAlt) == Some(Match(StarAlt, 4, "*a", ""));
    assert MatchAt(t, 0) == Some(Match(StarAlt, 4, "*a", ""));
    assert FirstMatch(t, 0) == Some(0);
    assert Scan(t, 4) == [];
  }

  // --- Reading the inline constructors back ---

  /** A line that one match covers from its first to its last character reads as that match's node alone. */
  lemma WholeLineMatch(t: string, m: Match)
    requires MatchAt(t, 0) == Some(m) && m.end == |t|
    ensures ParseInline(t) == [TokenNode(t, Hit(0, m))]
  {
    assert FirstMatch(t, 0) == Some(0);
    ScanAt(t, 0, 0, m);
    assert Scan(t, |t|) == [];
    assert Scan(t, 0) == [Hit(0, m)];
  }

  /** The lazy run after an opening delimiter, over text free of the delimiter's character, closes at that text's end. */
  lemma LazyEndAtClose(t: string, c: nat, x: string, d: string)
    requires 0 < |x| && |d| > 0 && '\n' !in x && d[0] !in x
    requires c + |x| + |d| == |t| && t[c..c + |x|] == x && t[c + |x|..] == d
    ensures LazyEnd(t, c, d) == Some(c + |x|)
  {
    assert At(t, c + |x|, d);
    forall j | c <= j < c + |x| ensures t[j] != '\n' && t[j] != d[0] {
      assert t[j] == x[j - c];
    }
    assert Closes(t, c, c + |x|, d);
    var e := LazyEnd(t, c, d).value;
    if e < c + |x| {
      AtFirst(t, e, d);
    }
  }

  /** `**x**` reads back as `bold(x)` when `x` is a non-empty, newline-free text without `*`. */
  lemma BoldReadBack(x: string)
    requires 0 < |x| && '\n' !in x && '*' !in x
    ensures ParseInline("**" + x + "**") == [Bold(x)]
  {
    var t := "**" + x + "**";
    assert t[..2] == "**" && t[2..2 + |x|] == x && t[2 + |x|..] == "**";
    assert At(t, 0, "**");
    LazyEndAtClose(t, 2, x, "**");
    assert DelimAt(t, 0, BoldAlt) == Some(Match(BoldAlt, |t|, x, ""));
    WholeLineMatch(t, Match(BoldAlt, |t|, x, ""));
  }

  /** `_x_` reads back as `italic(x)` when `x` is a non-empty, newline-free text without `_`. */
  lemma ItalicReadBack(x: string)
    requires 0 < |x| && '\n' !in x && '_' !in x
    ensures ParseInline("_" + x + "_") == [Italic(x)]
  {
    var t := "_" + x + "_";
    assert t[..1] == "_" && t[1..1 + |x|] == x && t[1 + |x|..] == "_";
    assert At(t, 0, "_") && t[0] == '_';
    if At(t, 0, "**") { AtFirst(t, 0, "**"); }
    if At(t, 0, "*") { AtFirst(t, 0, "*"); }
    LazyEndAtClose(t, 1, x, "_");
    assert DelimAt(t, 0, UnderscoreAlt) == Some(Match(UnderscoreAlt, |t|, x, ""));
    WholeLineMatch(t, Match(UnderscoreAlt, |t|, x, ""));
  }

  /** `[text](url)` reads back as `link(text, url)` when neither part is empty, `text` has no `]` and `url` no `)`. */
  lemma LinkReadBack(text: string, url: string)
    requires 0 < |text| && 0 < |url| && ']' !in text && ')' !in url
    ensures ParseInline("[" + text + "](" + url + ")") == [LinkText(text, url)]
  {
    var t := "[" + text + "](" + url + ")";
    var q := 1 + |text|;
    var e := q + 2 + |url|;
    assert t[1..q] == text && t[q] == ']' && t[q + 1] == '(' && t[q + 2..e] == url && t[e] == ')';
    forall j | 1 <= j < q ensures t[j] != ']' { assert t[j] == text[j - 1]; }
    forall j | q + 2 <= j < e ensures t[j] != ')' { assert t[j] == url[j - q - 2]; }
    assert FindChar(t, 1, ']') == Some(q);
    assert FindChar(t, q + 2, ')') == Some(e);
    assert t[0] == '[';
    if At(t, 0, "**") { AtFirst(t, 0, "**"); }
    if At(t, 0, "*") { AtFirst(t, 0, "*"); }
    if At(t, 0, "_") { AtFirst(t, 0, "_"); }
    assert LinkAt(t, 0) == Some(Match(LinkAlt, |t|, text, url));
    WholeLineMatch(t, Match(LinkAlt, |t|, text, url));
  }
}
