/**
What quoting is worth: every text, quoted in any of the shell's ways, is read back as that
text, whatever stands behind it. Quoted texts side by side are the text of both.
*/
module ShellQuoting {
  import opened Wrappers
  import opened ShellLexer
  import opened ShellGrammar

  /** A backslash before each of the bytes that mean something between double quotes. */
  function Escape(v: string): string {
    if v == "" then ""
    else (if v[0] in "\"\\$`" then "\\" + [v[0]] else [v[0]]) + Escape(v[1..])
  }

  /** A backslash before every byte. */
  function Slash(v: string): string {
    if v == "" then "" else "\\" + [v[0]] + Slash(v[1..])
  }

  /** The quoted text q stands for v in front of anything. */
  predicate StandsFor(q: string, v: string, r: string) {
    ReadWord(q + r) == Cons(|q|, v, true, ReadWord(r))
  }

  /** The body that writes v and goes on as tail. */
  function BodyFor(v: string, tail: Body): Body {
    if v == "" then tail
    else if v[0] in "\"\\$`" then Escaped(v[0], BodyFor(v[1..], tail))
    else Copied(v[0], BodyFor(v[1..], tail))
  }

  lemma {:induction false} BodyForMeans(v: string, tail: Body, r: string)
    requires OkBody(tail)
    ensures var b := BodyFor(v, tail);
      && OkBody(b) && BodyValue(b) == v + BodyValue(tail) && BodyLiteral(b) == BodyLiteral(tail)
      && WriteBody(b, r) == Escape(v) + WriteBody(tail, r)
  {
    hide OkBody, BodyValue, BodyLiteral, WriteBody;
    if v != "" {
      BodyForMeans(v[1..], tail, r);
      var b, q := BodyFor(v[1..], tail), Escape(v[1..]);
      assert v == [v[0]] + v[1..];
      assert [v[0]] + (v[1..] + BodyValue(tail)) == v + BodyValue(tail);
      OneByte(v[0], b, r);
      var e := if v[0] in "\"\\$`" then "\\" + [v[0]] else [v[0]];
      assert e + (q + WriteBody(tail, r)) == e + q + WriteBody(tail, r);
    }
  }

  lemma OneByte(c: char, rest: Body, r: string)
    requires OkBody(rest)
    ensures var b := if c in "\"\\$`" then Escaped(c, rest) else Copied(c, rest);
      && OkBody(b) && BodyValue(b) == [c] + BodyValue(rest) && BodyLiteral(b) == BodyLiteral(rest)
      && WriteBody(b, r) == (if c in "\"\\$`" then "\\" + [c] else [c]) + WriteBody(rest, r)
  {}

  lemma QuotedBody(b: Body, r: string)
    requires OkBody(b) && BodyLiteral(b)
    ensures var q := "\"" + WriteBody(b, "\""); StandsFor(q, BodyValue(b), r)
  {
    hide WordPiece, WriteBody, BodyIsRead;
    BodyInFront(b, "\"", r);
    BodyReads(b, r);
    QuotedTurn(b, r);
    var q := "\"" + WriteBody(b, "\"");
    assert q + r == "\"" + WriteBody(b, "\"" + r);
    assert (q + r)[|q|..] == r;
  }

  /** Between double quotes, with `"`, `\`, `$` and backquote escaped. */
  lemma DoubleQuotes(v: string, r: string)
    ensures StandsFor("\"" + Escape(v) + "\"", v, r)
  {
    hide WriteBody, BodyValue;
    BodyForMeans(v, BodyEnd, "\"");
    assert WriteBody(BodyEnd, "\"") == "\"" && BodyValue(BodyEnd) == "" by {
      EndBody();
    }
    QuotedBody(BodyFor(v, BodyEnd), r);
    assert "\"" + (Escape(v) + "\"") == "\"" + Escape(v) + "\"";
    assert v + "" == v;
  }

  lemma EndBody()
    ensures WriteBody(BodyEnd, "\"") == "\"" && BodyValue(BodyEnd) == ""
  {}

  /** Between double quotes, a backslash before any other byte stays where it is. */
  lemma LoneBackslash(v: string, c: char, w: string, r: string)
    requires c !in "\"\\$`\n"
    ensures var lone := "\\" + [c]; StandsFor("\"" + Escape(v) + lone + Escape(w) + "\"", v + lone + w, r)
  {
    hide WriteBody, BodyValue, BodyFor, Escape;
    var b := BodyFor(w, BodyEnd);
    BodyForMeans(w, BodyEnd, "\"");
    EndBody();
    KeptBody(c, b, "\"");
    BodyForMeans(v, Kept(c, b), "\"");
    QuotedBody(BodyFor(v, Kept(c, b)), r);
    Regrouped("\"", Escape(v), "\\" + [c], Escape(w), "\"");
    assert v + ("\\" + [c] + (w + "")) == v + ("\\" + [c]) + w;
  }

  lemma KeptBody(c: char, b: Body, r: string)
    requires c !in "\"\\$`\n" && OkBody(b)
    ensures OkBody(Kept(c, b)) && BodyLiteral(Kept(c, b)) == BodyLiteral(b)
    ensures WriteBody(Kept(c, b), r) == "\\" + [c] + WriteBody(b, r)
    ensures BodyValue(Kept(c, b)) == "\\" + [c] + BodyValue(b)
  {}

  lemma Regrouped(q: string, a: string, s: string, b: string, z: string)
    ensures q + (a + (s + (b + z))) == q + a + s + b + z
  {}

  /** Outside quotes, a backslash before every byte; before a newline it would be nothing. */
  lemma {:induction false} Backslashes(v: string, r: string)
    requires '\n' !in v
    ensures StandsFor(Slash(v), v, r)
  {
    hide WordPiece;
    if v == "" {
      assert Slash(v) + r == r;
      NothingInFront(r);
    } else {
      var w := Slash(v[1..]) + r;
      Backslashes(v[1..], r);
      assert v[0] in v;
      SlashedByte(v[0], w);
      assert Slash(v) + r == "\\" + [v[0]] + w;
      assert v == [v[0]] + v[1..];
      InFront("\\" + [v[0]], [v[0]], Slash(v[1..]), v[1..], r);
    }
  }

  lemma SlashedByte(c: char, w: string)
    requires c != '\n'
    ensures StandsFor("\\" + [c], [c], w)
  {
    hide WordPiece;
    SlashTurn(c, w);
  }

  lemma NothingInFront(r: string)
    ensures StandsFor("", "", r)
  {
    assert "" + r == r;
    if ReadWord(r).Some? {
      assert "" + ReadWord(r).value.lit == ReadWord(r).value.lit;
    }
  }

  /** Between single quotes. */
  lemma SingleQuotes(v: string, r: string)
    requires '\'' !in v
    ensures StandsFor("'" + v + "'", v, r)
  {
    hide WordPiece;
    SingleTurn(v, r);
  }

  /** Side by side, two quoted texts are the text of both. */
  lemma InFront(p: string, a: string, q: string, b: string, r: string)
    requires StandsFor(p, a, q + r) && StandsFor(q, b, r)
    ensures StandsFor(p + q, a + b, r)
  {
    hide ReadWord;
    assert p + q + r == p + (q + r);
    if ReadWord(r).Some? {
      assert a + (b + ReadWord(r).value.lit) == a + b + ReadWord(r).value.lit;
    }
  }

  /** A text that stands for v is one word of it where a word ends. */
  lemma OneWord(q: string, v: string, r: string)
    requires StandsFor(q, v, r) && (r == "" || IsMeta(r[0]))
    ensures ReadWord(q + r) == Some(Scan(|q|, v, true))
  {
    assert v + "" == v;
  }
}
