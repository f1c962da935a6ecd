/**
shellQuoteJSON (mux/claude_settings.go:46-65): compact JSON as one single-quoted
shell word, without changing what the JSON means.

The shell needs the quoted text to hold no single quote; the prompt extraction
needs it to hold no blank. Both are removed by \u escapes (section 7 of RFC
8259), which mean the same character only inside a JSON string, so this module
reads JSON at the level where that matters: what is inside a string, and which
characters its escapes stand for.
*/
module JsonQuote {
  import opened Wrappers

  const ESC_SPACE := "\\u0020"
  const ESC_QUOTE := "\\u0027"

  function ReplaceAll(s: string, c: char, sub: string): string {
    if s == "" then ""
    else (if s[0] == c then sub else [s[0]]) + ReplaceAll(s[1..], c, sub)
  }

  /** What goes between the quotes. */
  function EscapeJson(compact: string): string {
    ReplaceAll(ReplaceAll(compact, ' ', ESC_SPACE), '\'', ESC_QUOTE)
  }

  // ── JSON text, down to the characters of its strings ─────────────────────

  /** A byte outside any string, or a character inside one, by its code. */
  datatype Sym = Out(c: char) | In(code: nat)

  function HexDigit(c: char): (r: int)
    ensures -1 <= r < 16
  {
    if '0' <= c <= '9' then c as int - '0' as int
    else if 'a' <= c <= 'f' then c as int - 'a' as int + 10
    else if 'A' <= c <= 'F' then c as int - 'A' as int + 10
    else -1
  }

  /** The character a two-byte escape stands for, or -1. */
  function ShortEscape(c: char): (r: int)
    ensures -1 <= r
  {
    match c
    case '"' => 0x22
    case '\\' => 0x5C
    case '/' => 0x2F
    case 'b' => 0x08
    case 'f' => 0x0C
    case 'n' => 0x0A
    case 'r' => 0x0D
    case 't' => 0x09
    case _ => -1
  }

  /** The code of \uXXXX at the start of s, or -1. */
  function HexEscape(s: string): (r: int)
    requires |s| >= 2
    ensures -1 <= r
    ensures r >= 0 ==> |s| >= 6
  {
    if |s| < 6 || HexDigit(s[2]) < 0 || HexDigit(s[3]) < 0 || HexDigit(s[4]) < 0 || HexDigit(s[5]) < 0 then -1
    else 0x1000 * HexDigit(s[2]) + 0x100 * HexDigit(s[3]) + 0x10 * HexDigit(s[4]) + HexDigit(s[5])
  }

  function ConsSym(x: Sym, rest: Option<seq<Sym>>): Option<seq<Sym>> {
    match rest
    case None => None
    case Some(xs) => Some([x] + xs)
  }

  /** s as symbols, starting inside a string or not; None when a string is not
      well formed. */
  function ReadJson(s: string, inString: bool): Option<seq<Sym>> {
    if s == "" then if inString then None else Some([])
    else if s[0] == '"' then ConsSym(Out('"'), ReadJson(s[1..], !inString))
    else if !inString then ConsSym(Out(s[0]), ReadJson(s[1..], false))
    else if s[0] == '\\' then
      if |s| < 2 then None
      else if s[1] == 'u' then
        if HexEscape(s) < 0 then None else ConsSym(In(HexEscape(s)), ReadJson(s[6..], true))
      else if ShortEscape(s[1]) < 0 then None
      else ConsSym(In(ShortEscape(s[1])), ReadJson(s[2..], true))
    else if s[0] < ' ' then None
    else ConsSym(In(s[0] as int), ReadJson(s[1..], true))
  }

  /** c occurs nowhere outside the strings of the text these are. */
  predicate OnlyInside(xs: seq<Sym>, c: char) {
    Out(c) !in xs
  }

  /** Compact JSON: blanks and single quotes only inside strings. */
  predicate IsCompact(s: string) {
    && ReadJson(s, false).Some?
    && OnlyInside(ReadJson(s, false).value, ' ')
    && OnlyInside(ReadJson(s, false).value, '\'')
  }

  lemma {:induction false} ReplaceAllRemoves(s: string, c: char, sub: string)
    requires c !in sub
    ensures c !in ReplaceAll(s, c, sub)
  {
    if s != "" {
      ReplaceAllRemoves(s[1..], c, sub);
    }
  }

  lemma {:induction false} ReplaceAllKeepsOut(s: string, c: char, sub: string, x: char)
    requires x !in s && x !in sub
    ensures x !in ReplaceAll(s, c, sub)
  {
    if s != "" {
      assert x !in s[1..] && s[0] != x;
      ReplaceAllKeepsOut(s[1..], c, sub, x);
    }
  }

  /** The two characters the quoting escapes, each with its escape. */
  predicate IsEscaping(c: char, sub: string) {
    (c == ' ' && sub == ESC_SPACE) || (c == '\'' && sub == ESC_QUOTE)
  }

  lemma EscapeReads(c: char, sub: string, rest: string)
    requires IsEscaping(c, sub)
    ensures ReadJson(sub + rest, true) == ConsSym(In(c as int), ReadJson(rest, true))
  {
    var u := sub + rest;
    assert u[..6] == sub;
    assert u[0] == sub[0] && u[1] == sub[1] && u[2] == sub[2] && u[3] == sub[3] && u[4] == sub[4] && u[5] == sub[5];
    assert u[6..] == rest;
  }

  lemma ReplaceHead(s: string, c: char, sub: string, k: nat)
    requires 1 <= k <= |s| && k <= 6
    requires c !in s[..k]
    ensures ReplaceAll(s, c, sub) == s[..k] + ReplaceAll(s[k..], c, sub)
    decreases k
  {
    assert s[..k][0] == s[0];
    if k > 1 {
      assert s[1..][..k - 1] == s[..k][1..];
      ReplaceHead(s[1..], c, sub, k - 1);
      assert s[1..][k - 1..] == s[k..];
      assert [s[0]] + (s[1..][..k - 1] + ReplaceAll(s[k..], c, sub)) == s[..k] + ReplaceAll(s[k..], c, sub);
    } else {
      assert s[..1] == [s[0]];
    }
  }

  /** One unit of text that is not the escaped character reads alike in front of
      the escaped rest. */
  lemma UnitReads(s: string, inString: bool, k: nat, rest: string)
    requires ReadJson(s, inString).Some? && s != ""
    requires k == if inString && s[0] == '\\' then if s[1] == 'u' then 6 else 2 else 1
    ensures k <= |s|
    ensures exists x: Sym, inString': bool ::
      && ReadJson(s, inString) == ConsSym(x, ReadJson(s[k..], inString'))
      && ReadJson(s[..k] + rest, inString) == ConsSym(x, ReadJson(rest, inString'))
  {
    var w := s[..k] + rest;
    assert w[..k] == s[..k] && w[k..] == rest;
    assert forall i :: 0 <= i < k ==> w[i] == s[i];
    var inString' := if s[0] == '"' then !inString else inString;
    var x := ReadJson(s, inString).value[0];
    assert ReadJson(s, inString) == ConsSym(x, ReadJson(s[k..], inString'));
    assert ReadJson(w, inString) == ConsSym(x, ReadJson(rest, inString'));
  }

  lemma UnitIsClean(s: string, c: char, k: nat)
    requires c == ' ' || c == '\''
    requires s != "" && s[0] != c && ReadJson(s, true).Some?
    requires k == if s[0] == '\\' then if s[1] == 'u' then 6 else 2 else 1
    ensures k <= |s| && c !in s[..k]
  {
    assert forall i :: 0 <= i < k ==> s[..k][i] == s[i];
  }

  /** Escaping a character that occurs only inside strings changes no symbol. */
  lemma {:induction false} ReplaceKeepsMeaning(s: string, inString: bool, c: char, sub: string)
    requires IsEscaping(c, sub)
    requires ReadJson(s, inString).Some? && OnlyInside(ReadJson(s, inString).value, c)
    ensures ReadJson(ReplaceAll(s, c, sub), inString) == ReadJson(s, inString)
    decreases |s|
  {
    hide HexEscape, ShortEscape, IsEscaping;
    if s != "" {
      if s[0] == c {
        assert c == ' ' || c == '\'' by {
          EscapedChars(c, sub);
        }
        assert ReadJson(s, inString).value[0] == if inString then In(c as int) else Out(c);
        OnlyInsideTail(In(c as int), ReadJson(s[1..], true), c);
        ReplaceKeepsMeaning(s[1..], true, c, sub);
        EscapeReads(c, sub, ReplaceAll(s[1..], c, sub));
      } else {
        EscapedChars(c, sub);
        var k := if inString && s[0] == '\\' then if s[1] == 'u' then 6 else 2 else 1;
        if inString {
          UnitIsClean(s, c, k);
        } else {
          assert s[..1] == [s[0]];
        }
        ReplaceHead(s, c, sub, k);
        var rest := ReplaceAll(s[k..], c, sub);
        UnitReads(s, inString, k, rest);
        var x: Sym, inString': bool :|
          && ReadJson(s, inString) == ConsSym(x, ReadJson(s[k..], inString'))
          && ReadJson(s[..k] + rest, inString) == ConsSym(x, ReadJson(rest, inString'));
        OnlyInsideTail(x, ReadJson(s[k..], inString'), c);
        ReplaceKeepsMeaning(s[k..], inString', c, sub);
      }
    }
  }

  lemma EscapedChars(c: char, sub: string)
    requires IsEscaping(c, sub)
    ensures (c == ' ' || c == '\'') && c !in sub
  {}

  lemma OnlyInsideTail(x: Sym, rest: Option<seq<Sym>>, c: char)
    requires ConsSym(x, rest).Some? && OnlyInside(ConsSym(x, rest).value, c)
    ensures rest.Some? && OnlyInside(rest.value, c)
  {
    forall y | y in rest.value
      ensures y in ConsSym(x, rest).value
    {
      assert y in [x] + rest.value;
    }
  }

  /** The quoted text means the same JSON, and holds neither quote nor blank. */
  lemma EscapeJsonMeans(s: string)
    ensures ' ' !in EscapeJson(s) && '\'' !in EscapeJson(s)
    ensures IsCompact(s) ==> ReadJson(EscapeJson(s), false) == ReadJson(s, false)
  {
    hide ReadJson, ReplaceAll;
    var t := ReplaceAll(s, ' ', ESC_SPACE);
    ReplaceAllRemoves(s, ' ', ESC_SPACE);
    ReplaceAllRemoves(t, '\'', ESC_QUOTE);
    ReplaceAllKeepsOut(t, '\'', ESC_QUOTE, ' ');
    if IsCompact(s) {
      ReplaceKeepsMeaning(s, false, ' ', ESC_SPACE);
      ReplaceKeepsMeaning(t, false, '\'', ESC_QUOTE);
    }
  }

  /** Of the texts whose strings are well formed, the quoted one means the same exactly
      when the text is compact: an escape outside a string is not what it stands for. */
  lemma EscapeMeansExactly(s: string)
    requires ReadJson(s, false).Some?
    ensures ReadJson(EscapeJson(s), false) == ReadJson(s, false) <==> IsCompact(s)
  {
    hide ReadJson, ReplaceAll, EscapeJson;
    EscapeJsonMeans(s);
    OutOnlyFromText(EscapeJson(s), ' ');
    OutOnlyFromText(EscapeJson(s), '\'');
  }

  lemma {:induction false} OutOnlyFromText(s: string, c: char)
    requires c !in s
    ensures ReadJson(s, false).Some? ==> OnlyInside(ReadJson(s, false).value, c)
    ensures ReadJson(s, true).Some? ==> OnlyInside(ReadJson(s, true).value, c)
    decreases |s|
  {
    hide HexEscape, ShortEscape;
    if s != "" {
      assert s[0] in s;
      assert forall x :: x in s[1..] ==> x in s;
      OutOnlyFromText(s[1..], c);
      if s[0] == '\\' && |s| > 1 {
        var k := if s[1] == 'u' then 6 else 2;
        if k <= |s| {
          assert forall x :: x in s[k..] ==> x in s;
          OutOnlyFromText(s[k..], c);
        }
      }
    }
  }

  // ── the reader ───────────────────────────────────────────────────────────

  const HEX := "0123456789abcdef"
  const HEX_UPPER := "0123456789ABCDEF"

  lemma HexDigitMeans(c: char)
    ensures HexDigit(c) >= 0 <==> c in HEX || c in HEX_UPPER
    ensures HexDigit(c) >= 0 ==> HEX[HexDigit(c)] == c || HEX_UPPER[HexDigit(c)] == c
  {
    if HexDigit(c) >= 0 {
      assert c == HEX[HexDigit(c)] || c == HEX_UPPER[HexDigit(c)];
    }
    if i :| 0 <= i < 16 && (HEX[i] == c || HEX_UPPER[i] == c) {
      assert HexDigit(c) == i;
    }
  }

  /** \u and four hex digits stand for the character of that number. */
  lemma HexEscapeReads(a: nat, b: nat, c: nat, d: nat, rest: string)
    requires a < 16 && b < 16 && c < 16 && d < 16
    ensures var u := "\\u" + [HEX[a], HEX[b], HEX[c], HEX[d]] + rest;
      ReadJson(u, true) == ConsSym(In(0x1000 * a + 0x100 * b + 0x10 * c + d), ReadJson(rest, true))
  {
    var u := "\\u" + [HEX[a], HEX[b], HEX[c], HEX[d]] + rest;
    assert u[2] == HEX[a] && u[3] == HEX[b] && u[4] == HEX[c] && u[5] == HEX[d];
    assert u[6..] == rest;
    DigitValue(a);
    DigitValue(b);
    DigitValue(c);
    DigitValue(d);
  }

  lemma DigitValue(i: nat)
    requires i < 16
    ensures HexDigit(HEX[i]) == i && HexDigit(HEX_UPPER[i]) == i
  {}

  const SHORT := "\"\\/bfnrt"
  const SHORT_CODES := [0x22, 0x5C, 0x2F, 0x08, 0x0C, 0x0A, 0x0D, 0x09]

  /** Inside a string: the eight short escapes, and no others; a character stands for itself,
      but no control character does; a string ends at its quote and nowhere else. */
  lemma StringReads(c: char, rest: string, k: nat)
    requires k < 8
    ensures ReadJson("\\" + [SHORT[k]] + rest, true) == ConsSym(In(SHORT_CODES[k]), ReadJson(rest, true))
    ensures c !in SHORT && c != 'u' ==> ReadJson("\\" + [c] + rest, true) == None
    ensures c != '"' && c != '\\' && c as int >= 0x20 ==>
      ReadJson([c] + rest, true) == ConsSym(In(c as int), ReadJson(rest, true))
    ensures c as int < 0x20 ==> ReadJson([c] + rest, true) == None
    ensures ReadJson("\"" + rest, true) == ConsSym(Out('"'), ReadJson(rest, false))
    ensures ReadJson("", true) == None && ReadJson("\\", true) == None
  {
    var u := "\\" + [SHORT[k]] + rest;
    assert u[1] == SHORT[k] && u[2..] == rest;
    assert ShortEscape(SHORT[k]) == SHORT_CODES[k];
    var v := "\\" + [c] + rest;
    assert v[1] == c;
    assert c !in SHORT ==> ShortEscape(c) < 0 by {
      assert SHORT == ['"', '\\', '/', 'b', 'f', 'n', 'r', 't'];
    }
    assert ([c] + rest)[1..] == rest && ("\"" + rest)[1..] == rest;
  }

  /** Outside strings every character stands for itself, and a quote begins one. */
  lemma OutsideReads(c: char, rest: string)
    ensures ReadJson([c] + rest, false) == ConsSym(Out(c), ReadJson(rest, c == '"'))
    ensures ReadJson("", false) == Some([])
  {
    assert ([c] + rest)[1..] == rest;
  }
}
