/**
 * The small part of Python's `str` behaviour that the content logic relies on:
 * whitespace, `strip`, `startswith`/`endswith`, `split`/`join` on one separator,
 * `replace(old, "")` and decimal rendering of integers.
 *
 * Python classifies whitespace and digits by Unicode; this model uses the ASCII
 * characters that Python counts as whitespace (`str.isspace`, regex `\s`) and
 * ASCII decimal digits (regex `\d`).
 */
module Text {
  import opened Wrappers

  /** ASCII whitespace as Python's `str.isspace` and the regex class `\s` see it. */
  predicate IsSpace(c: char) {
    c == ' ' || ('\t' <= c <= '\r') || ('\U{1C}' <= c <= '\U{1F}')
  }

  /** ASCII stand-in for the regex class `\d`. */
  predicate IsDigit(c: char) {
    '0' <= c <= '9'
  }

  /** ASCII stand-in for the regex class `\w`: letters, digits and underscore. */
  predicate IsWordChar(c: char) {
    ('a' <= c <= 'z') || ('A' <= c <= 'Z') || IsDigit(c) || c == '_'
  }

  predicate AllSpace(s: string) {
    forall k :: 0 <= k < |s| ==> IsSpace(s[k])
  }

  lemma NotInSlice(t: string, a: nat, b: nat, ch: char)
    requires a <= b <= |t|
    requires forall j :: a <= j < b && 0 <= j < |t| ==> t[j] != ch
    ensures ch !in t[a..b]
  {
  }

  lemma AllSpaceSlice(s: string, a: nat, b: nat)
    requires a <= b <= |s|
    requires forall k :: a <= k < b && 0 <= k < |s| ==> IsSpace(s[k])
    ensures AllSpace(s[a..b])
  {
  }

  /** Python's `s.startswith(p)`. */
  predicate StartsWith(s: string, p: string) {
    |p| <= |s| && s[..|p|] == p
  }

  /** Python's `s.endswith(p)`. */
  predicate EndsWith(s: string, p: string) {
    |p| <= |s| && s[|s| - |p|..] == p
  }

  /** The first index at or after `i` that is not whitespace (`|s|` if none). */
  function SkipSpaces(s: string, i: nat): (j: nat)
    requires i <= |s|
    ensures i <= j <= |s|
    ensures forall k :: i <= k < j ==> IsSpace(s[k])
    ensures j < |s| ==> !IsSpace(s[j])
    decreases |s| - i
  {
    if i == |s| || !IsSpace(s[i]) then i else SkipSpaces(s, i + 1)
  }

  /** The first index at or after `i` holding `ch`. */
  function FindChar(t: string, i: nat, ch: char): (r: Option<nat>)
    requires i <= |t|
    ensures r.Some? ==> i <= r.value < |t| && t[r.value] == ch && forall j :: i <= j < r.value ==> t[j] != ch
    ensures r.None? ==> forall j :: i <= j < |t| ==> t[j] != ch
    decreases |t| - i
  {
    if i == |t| then None else if t[i] == ch then Some(i) else FindChar(t, i + 1, ch)
  }

  /** `s` without its trailing whitespace (Python's `rstrip()`). */
  function TrimEnd(s: string): (r: string)
    ensures |r| <= |s| && r == s[..|r|]
    ensures forall k :: |r| <= k < |s| ==> IsSpace(s[k])
    ensures |r| > 0 ==> !IsSpace(r[|r| - 1])
  {
    if |s| == 0 || !IsSpace(s[|s| - 1]) then s else TrimEnd(s[..|s| - 1])
  }

  /**
   * Python's `s.strip()`: `r` neither starts nor ends with whitespace, and it
   * is a piece of `s` (see `StripSlice`), so it holds no character `s` lacks.
   */
  function Strip(s: string): (r: string)
    ensures |r| <= |s|
    ensures |r| > 0 ==> !IsSpace(r[0]) && !IsSpace(r[|r| - 1])
    ensures '\n' !in s ==> '\n' !in r
  {
    var a := SkipSpaces(s, 0);
    var r := TrimEnd(s[a..]);
    assert forall k :: 0 <= k < |r| ==> r[k] == s[a + k];
    r
  }

  /** `strip()` removes whitespace-only text from both ends and nothing else. */
  lemma StripSlice(s: string)
    ensures var r := Strip(s);
            exists a :: 0 <= a <= |s| - |r| && s[a..a + |r|] == r
                        && AllSpace(s[..a]) && AllSpace(s[a + |r|..])
  {
    var a := SkipSpaces(s, 0);
    var r := TrimEnd(s[a..]);
    assert s[a..a + |r|] == r;
    assert AllSpace(s[..a]) by {
      forall k | 0 <= k < a ensures IsSpace(s[..a][k]) {
        assert s[..a][k] == s[k];
      }
    }
    assert forall k :: a + |r| <= k < |s| ==> IsSpace(s[k]);
    assert AllSpace(s[a + |r|..]);
  }

  /** A stripped string is empty exactly when the input is all whitespace. */
  lemma StripEmptyIff(s: string)
    ensures Strip(s) == "" <==> AllSpace(s)
  {
    var r := Strip(s);
    StripSlice(s);
    var a :| 0 <= a <= |s| - |r| && s[a..a + |r|] == r && AllSpace(s[..a]) && AllSpace(s[a + |r|..]);
    if r == "" {
      forall k | 0 <= k < |s| ensures IsSpace(s[k]) {
        if k < a {
          assert s[..a][k] == s[k];
        } else {
          assert s[a + |r|..][k - a] == s[k];
        }
      }
    } else {
      assert s[a] == r[0];
      assert !IsSpace(s[a]);
    }
  }

  /** A string with no whitespace at either end is its own strip. */
  lemma StripClean(s: string)
    requires |s| > 0 ==> !IsSpace(s[0]) && !IsSpace(s[|s| - 1])
    ensures Strip(s) == s
  {
    assert s[0..] == s;
  }

  /** Python's `s.split(sep)` for a one-character separator: never an empty list. */
  function Split(s: string, sep: char): (r: seq<string>)
    ensures |r| >= 1
    ensures forall k :: 0 <= k < |r| ==> sep !in r[k]
  {
    if |s| == 0 then [""]
    else
      var rest := Split(s[1..], sep);
      if s[0] == sep then [""] + rest else [[s[0]] + rest[0]] + rest[1..]
  }

  /** Python's `sep.join(parts)`. */
  function Join(parts: seq<string>, sep: string): string {
    if |parts| == 0 then ""
    else if |parts| == 1 then parts[0]
    else parts[0] + sep + Join(parts[1..], sep)
  }

  lemma JoinCons(p: string, ps: seq<string>, sep: string)
    requires |ps| >= 1
    ensures Join([p] + ps, sep) == p + sep + Join(ps, sep)
  {
    assert ([p] + ps)[1..] == ps;
  }

  /** Joining the pieces of a split with the separator gives the text back. */
  lemma {:induction false} JoinSplit(s: string, sep: char)
    ensures Join(Split(s, sep), [sep]) == s
    decreases |s|
  {
    if |s| > 0 {
      var rest := Split(s[1..], sep);
      JoinSplit(s[1..], sep);
      if s[0] == sep {
        JoinCons("", rest, [sep]);
        assert s == [sep] + s[1..];
      } else {
        if |rest| == 1 {
          assert Split(s, sep) == [[s[0]] + rest[0]];
        } else {
          JoinCons(rest[0], rest[1..], [sep]);
          assert rest == [rest[0]] + rest[1..];
          JoinCons([s[0]] + rest[0], rest[1..], [sep]);
        }
        assert s == [s[0]] + s[1..];
      }
    }
  }

  /** Splitting a join of separator-free pieces gives the pieces back. */
  lemma {:induction false} SplitJoin(parts: seq<string>, sep: char)
    requires |parts| >= 1
    requires forall k :: 0 <= k < |parts| ==> sep !in parts[k]
    ensures Split(Join(parts, [sep]), sep) == parts
    decreases |parts|, |parts[0]|
  {
    if |parts[0]| == 0 {
      if |parts| > 1 {
        var tail := Join(parts[1..], [sep]);
        JoinCons(parts[0], parts[1..], [sep]);
        assert Join(parts, [sep]) == [sep] + tail;
        assert Join(parts, [sep])[1..] == tail;
        SplitJoin(parts[1..], sep);
        assert parts == [""] + parts[1..];
      }
    } else {
      var c := parts[0][0];
      var shorter := [parts[0][1..]] + parts[1..];
      assert c in parts[0];
      assert forall k :: 0 <= k < |shorter| ==> sep !in shorter[k] by {
        forall k | 0 <= k < |shorter| ensures sep !in shorter[k] {
          if k == 0 {
            assert forall x :: x in parts[0][1..] ==> x in parts[0];
          } else {
            assert shorter[k] == parts[k];
          }
        }
      }
      SplitJoin(shorter, sep);
      var j := Join(parts, [sep]);
      if |parts| == 1 {
        assert j == parts[0];
        assert j[1..] == Join(shorter, [sep]);
      } else {
        JoinCons(parts[0], parts[1..], [sep]);
        JoinCons(parts[0][1..], parts[1..], [sep]);
        assert shorter[1..] == parts[1..];
        assert j[1..] == Join(shorter, [sep]);
      }
      assert j[0] == c;
      assert [c] + parts[0][1..] == parts[0];
      assert [[c] + parts[0][1..]] + parts[1..] == parts;
    }
  }

  /** Python's `s.replace(pat, "")`: occurrences are removed left to right, without overlap. */
  function RemoveAll(s: string, pat: string): (r: string)
    requires |pat| > 0
    ensures |r| <= |s|
    decreases |s|
  {
    if |s| < |pat| then s
    else if s[..|pat|] == pat then RemoveAll(s[|pat|..], pat)
    else [s[0]] + RemoveAll(s[1..], pat)
  }

  /** The decimal digit for `d`. */
  function DigitChar(d: nat): char
    requires d < 10
  {
    ['0', '1', '2', '3', '4', '5', '6', '7', '8', '9'][d]
  }

  /** Python's `str(n)` for a natural number: decimal digits with no leading zero. */
  function NatToString(n: nat): (r: string)
    ensures |r| >= 1
    ensures forall k :: 0 <= k < |r| ==> IsDigit(r[k])
    ensures |r| > 1 ==> r[0] != '0'
  {
    if n < 10 then [DigitChar(n)] else NatToString(n / 10) + [DigitChar(n % 10)]
  }

  /** The value of a string of decimal digits. */
  function DigitsValue(s: string): nat
    requires forall k :: 0 <= k < |s| ==> IsDigit(s[k])
  {
    if |s| == 0 then 0
    else
      assert IsDigit(s[|s| - 1]);
      10 * DigitsValue(s[..|s| - 1]) + (s[|s| - 1] as int - '0' as int)
  }

  /** Reading back the decimal rendering gives the number. */
  lemma {:induction false} NatToStringValue(n: nat)
    ensures DigitsValue(NatToString(n)) == n
  {
    var r := NatToString(n);
    if n >= 10 {
      NatToStringValue(n / 10);
      assert r[..|r| - 1] == NatToString(n / 10);
    }
  }

  /** Python's `str(i)` for an integer: a leading `-` for negative values. */
  function IntToString(i: int): (r: string)
    ensures |r| >= 1
    ensures i < 0 <==> r[0] == '-'
  {
    if i < 0 then "-" + NatToString(-i) else NatToString(i)
  }
}
