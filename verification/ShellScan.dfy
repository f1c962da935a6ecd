/**
The lexer as mux/claude_launch.go runs it: loops that move an index over the
whole line and append to builders. Each is proved against its function of the
remaining text in `ShellLexer`; an error return is `None`.
*/
module ShellScan {
  import opened Wrappers
  import opened ShellLexer
  import opened ShellLocality

  /** Where a scan that appends to a builder stands: the index just past what it
      read, the builder and the literal flag. */
  datatype Cursor = Cursor(i: nat, b: string, literal: bool)

  /** A scan of the text at c, carried out from c. */
  function Advance(c: Cursor, r: Option<Scan>): Option<Cursor> {
    match r
    case None => None
    case Some(d) => Some(Cursor(c.i + d.n, c.b + d.lit, c.literal && d.literal))
  }

  lemma AdvanceCons(c: Cursor, p: Scan, rest: Option<Scan>)
    ensures Advance(c, Cons(p.n, p.lit, p.literal, rest))
         == Advance(Cursor(c.i + p.n, c.b + p.lit, c.literal && p.literal), rest)
  {
    if rest.Some? {
      assert c.b + (p.lit + rest.value.lit) == (c.b + p.lit) + rest.value.lit;
    }
  }

  lemma SuffixDrop(s: string, i: nat, k: nat)
    requires i + k <= |s|
    ensures s[i..][k..] == s[i + k..]
  {}

  /** From cursor c, one turn of a loop and then the rest of it. */
  lemma WordTurn(s: string, c: Cursor)
    requires c.i < |s| && !IsMeta(s[c.i])
    ensures Advance(c, WordPiece(s[c.i..])).None? ==> ReadWord(s[c.i..]).None?
    ensures Advance(c, WordPiece(s[c.i..])).Some? ==>
      var d := Advance(c, WordPiece(s[c.i..])).value;
      && c.i < d.i <= |s|
      && Advance(d, ReadWord(s[d.i..])) == Advance(c, ReadWord(s[c.i..]))
  {
    hide WordPiece;
    var p := WordPiece(s[c.i..]);
    if p.Some? {
      SuffixDrop(s, c.i, p.value.n);
      AdvanceCons(c, p.value, ReadWord(s[c.i + p.value.n..]));
    }
  }

  lemma DoubleTurn(s: string, c: Cursor)
    requires c.i < |s| && s[c.i] != '"'
    ensures Advance(c, DoublePiece(s[c.i..])).None? ==> Double(s[c.i..]).None?
    ensures Advance(c, DoublePiece(s[c.i..])).Some? ==>
      var d := Advance(c, DoublePiece(s[c.i..])).value;
      && c.i < d.i <= |s|
      && Advance(d, Double(s[d.i..])) == Advance(c, Double(s[c.i..]))
  {
    hide DoublePiece;
    var p := DoublePiece(s[c.i..]);
    if p.Some? {
      SuffixDrop(s, c.i, p.value.n);
      AdvanceCons(c, p.value, Double(s[c.i + p.value.n..]));
    }
  }

  lemma NestedTurn(s: string, i: nat, depth: nat, br: Bracket)
    requires i < |s| && depth >= 1 && !(s[i] == br.Close() && depth == 1)
    ensures NestedPiece(s[i..]).None? ==> Nested(s[i..], depth, br).None?
    ensures NestedPiece(s[i..]).Some? ==>
      var j := i + NestedPiece(s[i..]).value;
      && i < j <= |s|
      && Plus(j, Nested(s[j..], DepthAfter(s[i], depth, br), br)) == Plus(i, Nested(s[i..], depth, br))
  {
    hide NestedPiece, DepthAfter;
    var p := NestedPiece(s[i..]);
    if p.Some? {
      SuffixDrop(s, i, p.value);
    }
  }

  lemma NestedStops(s: string, i: nat, depth: nat, br: Bracket)
    requires i <= |s| && depth >= 1
    requires i == |s| || (s[i] == br.Close() && depth == 1)
    ensures Nested(s[i..], depth, br) == if i == |s| then None else Some(1)
  {}

  /** readDouble: the body of "…" from c.i, appended to c.b. */
  method ReadDoubleAt(s: string, start: Cursor) returns (r: Option<Cursor>)
    requires start.i <= |s|
    ensures r == Advance(start, Double(s[start.i..]))
    decreases |s| - start.i, 2
  {
    hide DoublePiece;
    var c := start;
    while c.i < |s|
      invariant start.i <= c.i <= |s|
      invariant Advance(c, Double(s[c.i..])) == Advance(start, Double(s[start.i..]))
    {
      if s[c.i] == '"' {
        assert c.b + "" == c.b;
        return Some(c.(i := c.i + 1));
      }
      DoubleTurn(s, c);
      var d := DoublePieceAt(s, c);
      if d.None? {
        return None;
      }
      c := d.value;
    }
    return None;
  }

  /** The cases of readDouble's loop. */
  method DoublePieceAt(s: string, c: Cursor) returns (r: Option<Cursor>)
    requires c.i < |s| && s[c.i] != '"'
    ensures r == Advance(c, DoublePiece(s[c.i..]))
    decreases |s| - c.i, 1
  {
    if s[c.i] == '\\' {
      if c.i + 1 < |s| && IsDoubleEscape(s[c.i + 1]) {
        return Some(Cursor(c.i + 2, c.b + [s[c.i + 1]], c.literal));
      } else if c.i + 1 < |s| && s[c.i + 1] == '\n' {
        return Some(Cursor(c.i + 2, c.b + "", c.literal));
      }
      return Some(Cursor(c.i + 1, c.b + "\\", c.literal));
    } else if s[c.i] == '$' || s[c.i] == '`' {
      var j := SkipExpansionAt(s, c.i);
      if j.None? {
        return None;
      }
      assert s[c.i..j.value] == s[c.i..][..j.value - c.i];
      return Some(Cursor(j.value, c.b + s[c.i..j.value], false));
    }
    return Some(Cursor(c.i + 1, c.b + [s[c.i]], c.literal));
  }

  /** The loop of skipExpansion over `…`, from just after the opening backtick. */
  method SkipBacktickAt(s: string, start: nat) returns (r: Option<nat>)
    requires start <= |s|
    ensures r == Plus(start, Backtick(s[start..]))
  {
    var j := start;
    while j < |s|
      invariant start <= j
      invariant j <= |s| ==> Plus(j, Backtick(s[j..])) == Plus(start, Backtick(s[start..]))
      invariant j > |s| ==> Backtick(s[start..]).None?
      decreases |s| - j
    {
      if s[j] == '`' {
        return Some(j + 1);
      } else if s[j] == '\\' {
        if j + 2 <= |s| {
          SuffixDrop(s, j, 2);
        }
        j := j + 2;
      } else {
        SuffixDrop(s, j, 1);
        j := j + 1;
      }
    }
    return None;
  }

  /** skipExpansion: the index just past the expansion at i. */
  method SkipExpansionAt(s: string, i: nat) returns (r: Option<nat>)
    requires i < |s| && (s[i] == '$' || s[i] == '`')
    ensures r == Plus(i, Expansion(s[i..]))
    decreases |s| - i, 0
  {
    hide Backtick, Nested;
    SuffixDrop(s, i, 1);
    if s[i] == '`' {
      r := SkipBacktickAt(s, i + 1);
    } else if i + 1 < |s| && s[i + 1] == '(' {
      SuffixDrop(s, i, 2);
      r := SkipNestedAt(s, i + 2, Paren);
    } else if i + 1 < |s| && s[i + 1] == '{' {
      SuffixDrop(s, i, 2);
      r := SkipNestedAt(s, i + 2, Brace);
    } else {
      r := Some(i + 1);
    }
  }

  /** skipNested, begun inside one bracket: the place behind the bracket that ends it. */
  method SkipNestedAt(s: string, start: nat, br: Bracket) returns (r: Option<nat>)
    requires start <= |s|
    ensures r == Plus(start, Nested(s[start..], 1, br))
    decreases |s| - start, 4
  {
    hide NestedPiece, Nested;
    var i, depth := start, 1;
    while i < |s|
      invariant start <= i <= |s| && depth >= 1
      invariant Plus(i, Nested(s[i..], depth, br)) == Plus(start, Nested(s[start..], 1, br))
    {
      var c := s[i];
      if c == br.Close() && depth == 1 {
        NestedStops(s, i, depth, br);
        return Some(i + 1);
      }
      NestedTurn(s, i, depth, br);
      var j := NestedPieceAt(s, i);
      if j.None? {
        return None;
      }
      if c == br.Open() {
        depth := depth + 1;
      } else if c == br.Close() {
        depth := depth - 1;
      }
      i := j.value;
    }
    NestedStops(s, i, depth, br);
    return None;
  }

  /** The quoted and escaped cases of skipNested's loop. */
  method NestedPieceAt(s: string, i: nat) returns (r: Option<nat>)
    requires i < |s|
    ensures r == Plus(i, NestedPiece(s[i..]))
    decreases |s| - i, 3
  {
    hide Double, Expansion;
    SuffixDrop(s, i, 1);
    if s[i] == '\\' {
      return if i + 1 >= |s| then None else Some(i + 2);
    } else if s[i] == '\'' {
      var j := IndexByte(s[i + 1..], '\'');
      return if j < 0 then None else Some(i + j + 2);
    } else if s[i] == '"' {
      var d := ReadDoubleAt(s, Cursor(i + 1, "", true));
      return if d.None? then None else Some(d.value.i);
    } else if s[i] == '`' {
      r := SkipExpansionAt(s, i);
    } else {
      r := Some(i + 1);
    }
  }

  /** The cases of readWord's loop. */
  method WordPieceAt(s: string, c: Cursor) returns (r: Option<Cursor>)
    requires c.i < |s| && !IsMeta(s[c.i])
    ensures r == Advance(c, WordPiece(s[c.i..]))
  {
    hide Double, Expansion;
    SuffixDrop(s, c.i, 1);
    if s[c.i] == '\'' {
      var j := IndexByte(s[c.i + 1..], '\'');
      if j < 0 {
        return None;
      }
      assert s[c.i + 1..c.i + 1 + j] == s[c.i..][1..1 + j];
      return Some(Cursor(c.i + j + 2, c.b + s[c.i + 1..c.i + 1 + j], c.literal));
    } else if s[c.i] == '"' {
      r := ReadDoubleAt(s, Cursor(c.i + 1, c.b, c.literal));
    } else if s[c.i] == '\\' {
      if c.i + 1 >= |s| {
        return None;
      }
      return Some(Cursor(c.i + 2, c.b + (if s[c.i + 1] == '\n' then "" else [s[c.i + 1]]), c.literal));
    } else if s[c.i] == '$' || s[c.i] == '`' {
      var j := SkipExpansionAt(s, c.i);
      if j.None? {
        return None;
      }
      assert s[c.i..j.value] == s[c.i..][..j.value - c.i];
      return Some(Cursor(j.value, c.b + s[c.i..j.value], false));
    } else {
      r := Some(Cursor(c.i + 1, c.b + [s[c.i]], c.literal));
    }
  }

  /** readWord: the word at i, its value and whether that value is literal. */
  method ReadWordAt(s: string, i: nat) returns (r: Option<Cursor>)
    requires i <= |s|
    ensures r == Advance(Cursor(i, "", true), ReadWord(s[i..]))
  {
    hide WordPiece;
    var c := Cursor(i, "", true);
    while c.i < |s| && !IsMeta(s[c.i])
      invariant i <= c.i <= |s|
      invariant Advance(c, ReadWord(s[c.i..])) == Advance(Cursor(i, "", true), ReadWord(s[i..]))
    {
      WordTurn(s, c);
      var d := WordPieceAt(s, c);
      if d.None? {
        return None;
      }
      c := d.value;
    }
    assert c.b + "" == c.b;
    return Some(c);
  }

  /** The loop of lexRedir over the blanks before its target. */
  method SkipBlanksAt(s: string, start: nat) returns (j: nat)
    requires start <= |s|
    ensures j == start + Blanks(s[start..])
  {
    j := start;
    while j < |s| && IsBlank(s[j])
      invariant start <= j <= |s|
      invariant start + Blanks(s[start..]) == j + Blanks(s[j..])
    {
      SuffixDrop(s, j, 1);
      j := j + 1;
    }
  }

  /** lexRedir's target word, from just after the operator. */
  method TargetAt(s: string, start: nat) returns (r: Option<nat>)
    requires start <= |s|
    ensures r == Plus(start, ReadTarget(s[start..]))
  {
    hide ReadWord, StartsTarget, Blanks;
    var j := SkipBlanksAt(s, start);
    SuffixDrop(s, start, j - start);
    if !StartsTarget(s[j..]) {
      return None;
    }
    var w := ReadWordAt(s, j);
    return if w.None? then None else Some(w.value.i);
  }

  /** lexRedir: one redirection whose operator is at op, with its target. */
  method LexRedirAt(s: string, start: nat, op: nat) returns (r: Option<Tok>)
    requires start <= op < |s| && StartsRedir(s[op..])
    ensures ReadRedir(s[op..]).None? ==> r.None?
    ensures ReadRedir(s[op..]).Some? ==>
      r == Some(Tok(Redir, start, op + ReadRedir(s[op..]).value, "", false, false))
  {
    hide StartsRedir, RedirOp, ReadTarget;
    var k := RedirOp(s[op..]);
    if k.None? {
      return None;
    }
    SuffixDrop(s, op, k.value);
    var end := TargetAt(s, op + k.value);
    return if end.None? then None else Some(Tok(Redir, start, end.value, "", false, false));
  }

  /** One turn of the lexer's loop, seen from the whole line. */
  lemma LexTurn(s: string, i: nat, toks: seq<Tok>)
    requires i < |s|
    ensures NextStep(s[i..]).Fail? ==> Lex(s[i..], i).None?
    ensures !NextStep(s[i..]).Fail? ==>
      var st := NextStep(s[i..]);
      && i + st.n <= |s|
      && Append(toks, Lex(s[i..], i))
         == Append(if st.Skip? then toks else toks + [MakeTok(s[i..], i, st)], Lex(s[i + st.n..], i + st.n))
  {
    hide NextStep, AssignName;
    var st := NextStep(s[i..]);
    if !st.Fail? {
      SuffixDrop(s, i, st.n);
      var rest := Lex(s[i + st.n..], i + st.n);
      if st.Token? && rest.Some? {
        var t := MakeTok(s[i..], i, st);
        assert toks + ([t] + rest.value) == (toks + [t]) + rest.value;
      }
    }
  }

  /** The cases of lexShell's loop that read a token. */
  method TokenAt(s: string, i: nat) returns (r: Option<Tok>)
    requires i < |s| && !NextStep(s[i..]).Skip?
    ensures NextStep(s[i..]).Fail? ==> r.None?
    ensures !NextStep(s[i..]).Fail? ==> r == Some(MakeTok(s[i..], i, NextStep(s[i..])))
  {
    hide ReadWord, ReadRedir, AssignName;
    var u := s[i..];
    if StartsRedir(u) {
      r := LexRedirAt(s, i, i);
    } else if IsDigit(s[i]) && IoNumber(u) > 0 {
      SuffixDrop(s, i, IoNumber(u));
      r := LexRedirAt(s, i, i + IoNumber(u));
    } else if IsOpStart(s[i]) {
      r := Some(Tok(Op, i, i + (if IsTwoByteOp(u) then 2 else 1), "", false, false));
    } else {
      var w := ReadWordAt(s, i);
      if w.None? {
        return None;
      }
      assert s[i..w.value.i] == u[..w.value.i - i];
      assert w.value.b == ReadWord(u).value.lit;
      r := Some(Tok(Word, i, w.value.i, w.value.b, w.value.literal, AssignName(s[i..w.value.i])));
    }
  }

  /** lexShell: the tokens of s. */
  method LexShell(s: string) returns (r: Option<seq<Tok>>)
    ensures r == Lex(s, 0)
  {
    hide NextStep, AssignName;
    var toks, i := [], 0;
    assert s[0..] == s;
    assert Lex(s, 0).Some? ==> [] + Lex(s, 0).value == Lex(s, 0).value;
    while i < |s|
      invariant i <= |s|
      invariant Append(toks, Lex(s[i..], i)) == Lex(s, 0)
    {
      LexTurn(s, i, toks);
      var n := SkippedAt(s, i);
      if n > 0 {
        i := i + n;
      } else {
        var t := TokenAt(s, i);
        if t.None? {
          return None;
        }
        toks := toks + [t.value];
        i := t.value.end;
      }
    }
    assert toks + [] == toks;
    return Some(toks);
  }

  /** How many bytes at i are no token: a blank, a line continuation, or a comment
      up to its newline. */
  method SkippedAt(s: string, i: nat) returns (n: nat)
    requires i < |s|
    ensures if n > 0 then NextStep(s[i..]) == Skip(n) else !NextStep(s[i..]).Skip?
  {
    hide ReadWord, ReadRedir;
    var u := s[i..];
    if IsBlank(s[i]) {
      return 1;
    } else if IsContinuation(u) {
      return 2;
    } else if s[i] == '#' {
      var j := i;
      while j < |s| && s[j] != '\n'
        invariant i <= j <= |s|
        invariant i + Comment(s[i..]) == j + Comment(s[j..])
      {
        SuffixDrop(s, j, 1);
        j := j + 1;
      }
      return j - i;
    }
    return 0;
  }
}
