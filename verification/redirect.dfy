/**
 * The image-redirect fixup of `create_draft` (substack_client.py): once the
 * draft id is known, every `image2` inside a top-level `captionedImage` whose
 * `internalRedirect` is unset gets
 *
 *     https://<publication>/i/<draft id>?img=<quote(src, safe='')>
 *
 * `quote(src, safe='')` keeps the unreserved characters of section 2.3 of
 * RFC 3986 and writes every other character as the `%XX` escapes of its UTF-8
 * bytes, with upper-case hexadecimal digits.
 */
module Redirect {
  import opened Wrappers
  import opened Text
  import opened Document

  type Byte = b: int | 0 <= b < 256

  /** The characters `quote(_, safe='')` never escapes: letters, digits, `_ . - ~`. */
  predicate Unreserved(c: char) {
    ('A' <= c <= 'Z') || ('a' <= c <= 'z') || ('0' <= c <= '9') || c == '_' || c == '.' || c == '-' || c == '~'
  }

  // --- UTF-8 ---

  /** The UTF-8 encoding of one Unicode scalar value. */
  function Utf8Char(c: char): (r: seq<Byte>)
    ensures 1 <= |r| <= 4
    ensures |r| == 1 <==> c as int < 0x80
    ensures |r| == 1 ==> r[0] == c as int
    ensures |r| > 1 ==> 0xC0 <= r[0] && forall k :: 1 <= k < |r| ==> 0x80 <= r[k] < 0xC0
  {
    var n := c as int;
    if n < 0x80 then [n]
    else if n < 0x800 then [0xC0 + n / 64, 0x80 + n % 64]
    else if n < 0x10000 then [0xE0 + n / 4096, 0x80 + (n / 64) % 64, 0x80 + n % 64]
    else [0xF0 + n / 262144, 0x80 + (n / 4096) % 64, 0x80 + (n / 64) % 64, 0x80 + n % 64]
  }

  /** The code point that a complete one-to-four-byte UTF-8 sequence spells. */
  function Utf8Value(r: seq<Byte>): int
    requires 1 <= |r| <= 4
  {
    var b: seq<int> := r;
    if |b| == 1 then b[0]
    else if |b| == 2 then (b[0] - 0xC0) * 64 + (b[1] - 0x80)
    else if |b| == 3 then (b[0] - 0xE0) * 4096 + (b[1] - 0x80) * 64 + (b[2] - 0x80)
    else (b[0] - 0xF0) * 262144 + (b[1] - 0x80) * 4096 + (b[2] - 0x80) * 64 + (b[3] - 0x80)
  }

  /** Splitting off the low six bits: `n` is its quotient by 64 shifted up, plus the remainder. */
  lemma SixBits(n: nat)
    ensures n == (n / 64) * 64 + n % 64 && n / 64 / 64 == n / 4096 && n / 4096 / 64 == n / 262144
  {
    var q := n / 64;
    assert q * 64 <= n < q * 64 + 64;
    assert (q / 64) * 4096 <= n < (q / 64) * 4096 + 4096;
    var p := n / 4096;
    assert (p / 64) * 262144 <= n < (p / 64) * 262144 + 262144;
  }

  /** Three six-bit groups and what is above them put back together give `n`. */
  lemma Groups(n: nat)
    ensures n == (n / 4096) * 4096 + ((n / 64) % 64) * 64 + n % 64
    ensures n == (n / 262144) * 262144 + ((n / 4096) % 64) * 4096 + ((n / 64) % 64) * 64 + n % 64
  {
    SixBits(n);
    var q := n / 64;
    assert q == (q / 64) * 64 + q % 64;
    var p := n / 4096;
    assert p == (p / 64) * 64 + p % 64;
  }

  /** Decoding the bytes of a character gives the character back. */
  lemma Utf8CharValue(c: char)
    ensures Utf8Value(Utf8Char(c)) == c as int
  {
    var n := c as int;
    if n >= 0x80 {
      assert n == (n / 64) * 64 + n % 64 && n == (n / 4096) * 4096 + ((n / 64) % 64) * 64 + n % 64
             && n == (n / 262144) * 262144 + ((n / 4096) % 64) * 4096 + ((n / 64) % 64) * 64 + n % 64 by {
        SixBits(n);
        Groups(n);
      }
    }
  }

  /** `s.encode('utf-8')`. */
  function Utf8(s: string): (r: seq<Byte>)
    ensures |r| >= |s|
  {
    if |s| == 0 then [] else Utf8Char(s[0]) + Utf8(s[1..])
  }

  // --- Percent-encoding ---

  function HexDigit(d: int): char
    requires 0 <= d < 16
  {
    "0123456789ABCDEF"[d]
  }

  predicate IsHexDigit(c: char) {
    ('0' <= c <= '9') || ('A' <= c <= 'F') || ('a' <= c <= 'f')
  }

  function HexValue(c: char): (d: int)
    requires IsHexDigit(c)
    ensures 0 <= d < 16
  {
    if '0' <= c <= '9' then c as int - '0' as int
    else if 'A' <= c <= 'F' then c as int - 'A' as int + 10
    else c as int - 'a' as int + 10
  }

  lemma HexDigitValue(d: int)
    requires 0 <= d < 16
    ensures IsHexDigit(HexDigit(d)) && HexValue(HexDigit(d)) == d
  {
  }

  /** The `%XX` escapes of a byte string. */
  function Escapes(bs: seq<Byte>): (r: string)
    ensures |r| == 3 * |bs|
  {
    if |bs| == 0 then ""
    else ['%', HexDigit(bs[0] / 16), HexDigit(bs[0] % 16)] + Escapes(bs[1..])
  }

  /** One character as `quote(_, safe='')` writes it: unreserved characters stand for themselves. */
  function QuoteChar(c: char): string
  {
    if Unreserved(c) then [c] else Escapes(Utf8Char(c))
  }

  /** `urllib.parse.quote(s, safe='')`. */
  function Quote(s: string): string {
    if |s| == 0 then "" else QuoteChar(s[0]) + Quote(s[1..])
  }

  /**
   * `urllib.parse.unquote_to_bytes(e)`: the text is taken as UTF-8 and every
   * `%` followed by two hexadecimal digits stands for the byte they spell.
   */
  function UnquoteToBytes(e: string): seq<Byte>
    decreases |e|
  {
    if |e| == 0 then []
    else if e[0] == '%' && |e| >= 3 && IsHexDigit(e[1]) && IsHexDigit(e[2]) then
      [HexValue(e[1]) * 16 + HexValue(e[2])] + UnquoteToBytes(e[3..])
    else Utf8Char(e[0]) + UnquoteToBytes(e[1..])
  }

  /** One escape is read back as the byte it was written for. */
  lemma UnquoteEscape(b: Byte, tail: string)
    ensures UnquoteToBytes(['%', HexDigit(b / 16), HexDigit(b % 16)] + tail) == [b] + UnquoteToBytes(tail)
  {
    var e := ['%', HexDigit(b / 16), HexDigit(b % 16)] + tail;
    HexDigitValue(b / 16);
    HexDigitValue(b % 16);
    assert e[1] == HexDigit(b / 16) && e[2] == HexDigit(b % 16);
    assert e[3..] == tail;
  }

  lemma {:induction false} UnquoteEscapes(bs: seq<Byte>, rest: string)
    ensures UnquoteToBytes(Escapes(bs) + rest) == bs + UnquoteToBytes(rest)
    decreases |bs|
  {
    if |bs| > 0 {
      var b := bs[0];
      var tail := Escapes(bs[1..]) + rest;
      assert Escapes(bs) + rest == ['%', HexDigit(b / 16), HexDigit(b % 16)] + tail;
      UnquoteEscape(b, tail);
      UnquoteEscapes(bs[1..], rest);
      assert bs == [b] + bs[1..];
    } else {
      assert Escapes(bs) + rest == rest;
    }
  }

  /** Unquoting the quoted text gives back exactly the UTF-8 bytes of the original. */
  lemma {:induction false} UnquoteQuote(s: string)
    ensures UnquoteToBytes(Quote(s)) == Utf8(s)
    decreases |s|
  {
    if |s| > 0 {
      UnquoteQuote(s[1..]);
      var c := s[0];
      if Unreserved(c) {
        var e := [c] + Quote(s[1..]);
        assert e[1..] == Quote(s[1..]);
      } else {
        UnquoteEscapes(Utf8Char(c), Quote(s[1..]));
      }
    }
  }

  /** What quoted text may contain: unreserved characters, `%` and upper-case hex digits. */
  predicate QuotedAlphabet(c: char) {
    Unreserved(c) || c == '%'
  }

  lemma {:induction false} EscapesAlphabet(bs: seq<Byte>)
    ensures forall k :: 0 <= k < |Escapes(bs)| ==> QuotedAlphabet(Escapes(bs)[k])
    decreases |bs|
  {
    if |bs| > 0 {
      EscapesAlphabet(bs[1..]);
      var e := Escapes(bs);
      var head := ['%', HexDigit(bs[0] / 16), HexDigit(bs[0] % 16)];
      assert e == head + Escapes(bs[1..]);
      forall k | 0 <= k < |e| ensures QuotedAlphabet(e[k]) {
        if k >= 3 {
          assert e[k] == Escapes(bs[1..])[k - 3];
        }
      }
    }
  }

  /**
   * Quoted text holds only unreserved characters and `%`, so it carries no
   * `/`, `?`, `&`, `#` or space into the URL it is placed in.
   */
  lemma {:induction false} QuoteAlphabet(s: string)
    ensures forall k :: 0 <= k < |Quote(s)| ==> QuotedAlphabet(Quote(s)[k])
    decreases |s|
  {
    if |s| > 0 {
      QuoteAlphabet(s[1..]);
      var q := QuoteChar(s[0]);
      if !Unreserved(s[0]) {
        EscapesAlphabet(Utf8Char(s[0]));
      }
      var e := Quote(s);
      forall k | 0 <= k < |e| ensures QuotedAlphabet(e[k]) {
        if k >= |q| {
          assert e[k] == Quote(s[1..])[k - |q|];
        } else {
          assert e[k] == q[k];
        }
      }
    }
  }

  /** Text made only of unreserved characters is left as it is. */
  lemma {:induction false} QuoteUnreserved(s: string)
    requires forall k :: 0 <= k < |s| ==> Unreserved(s[k])
    ensures Quote(s) == s
    decreases |s|
  {
    if |s| > 0 {
      QuoteUnreserved(s[1..]);
      assert s == [s[0]] + s[1..];
    }
  }

  // --- The fixup ---

  /** `f"https://{publication}/i/{draft_id}?img={quote(src, safe='')}"` */
  function RedirectUrl(publication: string, draftId: int, src: string): string {
    "https://" + publication + "/i/" + IntToString(draftId) + "?img=" + Quote(src)
  }

  /** `not attrs.get("internalRedirect")`: a missing, `None` or empty redirect is unset. */
  predicate RedirectUnset(a: ImageAttrs) {
    a.internalRedirect.None? || a.internalRedirect.value == ""
  }

  /** The fixup applied to one child of a `captionedImage`. */
  function FixChild(publication: string, draftId: int, child: Node): Node
  {
    if child.Image2? && |child.attrs.src| > 0 && RedirectUnset(child.attrs) then
      Image2(child.attrs.(internalRedirect := Some(RedirectUrl(publication, draftId, child.attrs.src))))
    else child
  }

  function FixChildren(publication: string, draftId: int, children: seq<Node>): (r: seq<Node>)
    ensures |r| == |children|
    ensures forall k :: 0 <= k < |children| ==> r[k] == FixChild(publication, draftId, children[k])
  {
    if |children| == 0 then []
    else [FixChild(publication, draftId, children[0])] + FixChildren(publication, draftId, children[1..])
  }

  /** The fixup applied to one top-level node: only `captionedImage` nodes are entered. */
  function FixNode(publication: string, draftId: int, n: Node): Node
  {
    if n.CaptionedImage? then CaptionedImage(FixChildren(publication, draftId, n.content)) else n
  }

  /** `fix_internal_redirects(content)` over the top-level nodes of a body. */
  function Fixup(publication: string, draftId: int, content: seq<Node>): (r: seq<Node>)
    ensures |r| == |content|
    ensures forall k :: 0 <= k < |content| ==> r[k] == FixNode(publication, draftId, content[k])
  {
    if |content| == 0 then []
    else [FixNode(publication, draftId, content[0])] + Fixup(publication, draftId, content[1..])
  }

  /** An image that still needs a redirect: inside a top-level `captionedImage`, with a source and no redirect. */
  predicate Pending(content: seq<Node>) {
    exists k, j :: 0 <= k < |content| && content[k].CaptionedImage? && 0 <= j < |content[k].content|
      && content[k].content[j].Image2? && |content[k].content[j].attrs.src| > 0
      && RedirectUnset(content[k].content[j].attrs)
  }

  /** After the fixup no image is left pending, and the fixed ones point at their own source. */
  lemma FixupCompletes(publication: string, draftId: int, content: seq<Node>)
    ensures !Pending(Fixup(publication, draftId, content))
    ensures forall k, j :: 0 <= k < |content| && content[k].CaptionedImage? && 0 <= j < |content[k].content|
              && content[k].content[j].Image2? && |content[k].content[j].attrs.src| > 0
              && RedirectUnset(content[k].content[j].attrs)
              ==> Fixup(publication, draftId, content)[k].content[j].attrs.internalRedirect
                  == Some(RedirectUrl(publication, draftId, content[k].content[j].attrs.src))
  {
  }

  /** A redirect that is already set, and every node outside a `captionedImage`, is left alone. */
  lemma FixupKeeps(publication: string, draftId: int, content: seq<Node>, k: nat, j: nat)
    requires k < |content|
    ensures !content[k].CaptionedImage? ==> Fixup(publication, draftId, content)[k] == content[k]
    ensures content[k].CaptionedImage? && j < |content[k].content|
            && !(content[k].content[j].Image2? && |content[k].content[j].attrs.src| > 0
                 && RedirectUnset(content[k].content[j].attrs))
            ==> Fixup(publication, draftId, content)[k].content[j] == content[k].content[j]
  {
  }

  /** Running the fixup twice changes nothing the first run did not. */
  lemma FixupIdempotent(publication: string, draftId: int, content: seq<Node>)
    ensures Fixup(publication, draftId, Fixup(publication, draftId, content)) == Fixup(publication, draftId, content)
  {
    var once := Fixup(publication, draftId, content);
    var twice := Fixup(publication, draftId, once);
    forall k | 0 <= k < |content| ensures twice[k] == once[k] {
      if content[k].CaptionedImage? {
        var cs := content[k].content;
        var fixed := FixChildren(publication, draftId, cs);
        assert FixChildren(publication, draftId, fixed) == fixed by {
          forall j | 0 <= j < |cs| ensures FixChild(publication, draftId, fixed[j]) == fixed[j] {
            if cs[j].Image2? && |cs[j].attrs.src| > 0 && RedirectUnset(cs[j].attrs) {
              assert |RedirectUrl(publication, draftId, cs[j].attrs.src)| > 0;
            }
          }
        }
      }
    }
  }

  /**
   * The `img` parameter of a redirect gives back the source: the URL is the
   * fixed prefix followed by a parameter that holds no `?`, `&` or `#` and
   * unquotes to the UTF-8 bytes of `src`.
   */
  lemma RedirectCarriesSource(publication: string, draftId: int, src: string)
    ensures var url := RedirectUrl(publication, draftId, src);
            var prefix := "https://" + publication + "/i/" + IntToString(draftId) + "?img=";
            StartsWith(url, prefix) && UnquoteToBytes(url[|prefix|..]) == Utf8(src)
            && forall k :: |prefix| <= k < |url| ==> QuotedAlphabet(url[k])
  {
    var prefix := "https://" + publication + "/i/" + IntToString(draftId) + "?img=";
    AfterPrefix(prefix, Quote(src));
    UnquoteQuote(src);
    QuoteAlphabet(src);
  }

  /** What follows a prefix in a concatenation is the second part, character by character. */
  lemma AfterPrefix(prefix: string, q: string)
    ensures StartsWith(prefix + q, prefix) && (prefix + q)[|prefix|..] == q
    ensures forall k :: |prefix| <= k < |prefix + q| ==> (prefix + q)[k] == q[k - |prefix|]
  {
    assert (prefix + q)[..|prefix|] == prefix;
  }

  /** Quoting works character by character, so it distributes over concatenation. */
  lemma {:induction false} QuoteAppend(a: string, b: string)
    ensures Quote(a + b) == Quote(a) + Quote(b)
    decreases |a|
  {
    if |a| > 0 {
      assert (a + b)[1..] == a[1..] + b;
      QuoteAppend(a[1..], b);
    } else {
      assert a + b == b;
    }
  }

  /** The space and the slash are each escaped as their one UTF-8 byte. */
  lemma ExampleEscapes()
    ensures QuoteChar(' ') == "%20" && QuoteChar('/') == "%2F"
  {
    assert QuoteChar(' ') == Escapes([32]) by { assert Utf8Char(' ') == [32]; }
    assert Escapes([32]) == ['%', HexDigit(2), HexDigit(0)] + Escapes([]) by { assert [32 as Byte][1..] == []; }
    assert QuoteChar('/') == Escapes([47]) by { assert Utf8Char('/') == [47]; }
    assert Escapes([47]) == ['%', HexDigit(2), HexDigit(15)] + Escapes([]) by { assert [47 as Byte][1..] == []; }
  }

  /** The quoting of the worked example's source, one character at a time. */
  lemma ExampleQuote()
    ensures Quote("a b/c") == "a%20b%2Fc"
  {
    ExampleEscapes();
    assert Quote("c") == "c" by { assert "c"[1..] == ""; }
    assert Quote("/c") == "%2Fc" by { assert "/c"[1..] == "c"; }
    assert Quote("b/c") == "b%2Fc" by { assert "b/c"[1..] == "/c"; }
    assert Quote(" b/c") == "%20b%2Fc" by { assert " b/c"[1..] == "b/c"; }
    assert "a b/c"[1..] == " b/c";
  }

  /** A small worked redirect: the space and the slash of the source are escaped. */
  lemma ExampleRedirect()
    ensures RedirectUrl("pub.test", 7, "a b/c") == "https://pub.test/i/7?img=a%20b%2Fc"
  {
    ExampleQuote();
    assert IntToString(7) == "7" by { assert NatToString(7) == [DigitChar(7)]; }
  }
}
