/**
What an edit can change in the tokens of a line: nothing before it.

The scanners of `ShellLexer` see only the text they are given, so text behind
an edit lexes as before, shifted (`LexShift`). This module proves the other
direction, that the tokens in front of an edit do not depend on it
(`LexToStable`), which takes looking at every byte of lookahead the lexer has.
*/
module ShellLocality {
  import opened Wrappers
  import opened ShellLexer

  /** u and w share their first n bytes. */
  predicate Agree(u: string, w: string, n: nat) {
    n <= |u| && n <= |w| && u[..n] == w[..n]
  }

  lemma AgreeAt(u: string, w: string, n: nat, i: nat)
    requires Agree(u, w, n) && i < n
    ensures u[i] == w[i]
  {
    assert u[..n][i] == w[..n][i];
  }

  lemma AgreeTake(u: string, w: string, n: nat, k: nat)
    requires Agree(u, w, n) && k <= n
    ensures Agree(u, w, k)
  {
    assert u[..k] == u[..n][..k];
    assert w[..k] == w[..n][..k];
  }

  lemma AgreeDrop(u: string, w: string, n: nat, k: nat)
    requires Agree(u, w, n) && k <= n
    ensures Agree(u[k..], w[k..], n - k)
  {
    assert u[k..][..n - k] == u[..n][k..];
    assert w[k..][..n - k] == w[..n][k..];
  }

  lemma {:induction false} IndexByteStable(u: string, w: string, c: char)
    requires IndexByte(u, c) >= 0 && Agree(u, w, IndexByte(u, c) + 1)
    ensures IndexByte(w, c) == IndexByte(u, c)
  {
    var k := IndexByte(u, c);
    AgreeAt(u, w, k + 1, 0);
    if u[0] != c {
      AgreeDrop(u, w, k + 1, 1);
      IndexByteStable(u[1..], w[1..], c);
    }
  }

  // ── the scanners that read their own terminator ──────────────────────────

  lemma {:induction false} BacktickStable(u: string, w: string)
    requires Backtick(u).Some? && Agree(u, w, Backtick(u).value)
    ensures Backtick(w) == Backtick(u)
  {
    var n := Backtick(u).value;
    AgreeAt(u, w, n, 0);
    if u[0] == '\\' {
      AgreeDrop(u, w, n, 2);
      BacktickStable(u[2..], w[2..]);
    } else if u[0] != '`' {
      AgreeDrop(u, w, n, 1);
      BacktickStable(u[1..], w[1..]);
    }
  }

  /** `$` alone is the one expansion that does not read its own terminator: it
      looks at the byte behind it, so that byte may not turn into an opening. */
  predicate NoOpening(w: string, n: nat) {
    n < |w| ==> w[n] != '(' && w[n] != '{'
  }

  lemma {:induction false} ExpansionStable(u: string, w: string, n: nat)
    requires u != "" && (u[0] == '$' || u[0] == '`')
    requires Expansion(u) == Some(n) && Agree(u, w, n)
    requires Agree(u, w, n + 1) || NoOpening(w, n)
    ensures w != "" && w[0] == u[0] && Expansion(w) == Some(n)
    decreases |u|, 0
  {
    AgreeAt(u, w, n, 0);
    if u[0] == '`' {
      AgreeDrop(u, w, n, 1);
      BacktickStable(u[1..], w[1..]);
    } else if |u| > 1 && (u[1] == '(' || u[1] == '{') {
      AgreeAt(u, w, n, 1);
      AgreeDrop(u, w, n, 2);
      NestedStable(u[2..], w[2..], 1, if u[1] == '(' then Paren else Brace);
    } else {
      assert n == 1;
      if Agree(u, w, n + 1) {
        AgreeAt(u, w, 2, 1);
      }
    }
  }

  lemma {:induction false} DoublePieceStable(u: string, w: string, n: nat)
    requires u != "" && u[0] != '"'
    requires DoublePiece(u).Some? && DoublePiece(u).value.n < n && Agree(u, w, n)
    ensures w != "" && w[0] == u[0] && DoublePiece(w) == DoublePiece(u)
    decreases |u|, 1
  {
    AgreeAt(u, w, n, 0);
    if u[0] == '\\' {
      AgreeAt(u, w, n, 1);
    } else if u[0] == '$' || u[0] == '`' {
      var e := Expansion(u).value;
      AgreeTake(u, w, n, e);
      AgreeTake(u, w, n, e + 1);
      ExpansionStable(u, w, e);
    }
  }

  lemma {:induction false} DoubleStable(u: string, w: string)
    requires Double(u).Some? && Agree(u, w, Double(u).value.n)
    ensures Double(w) == Double(u)
    decreases |u|, 2
  {
    var n := Double(u).value.n;
    AgreeAt(u, w, n, 0);
    if u[0] != '"' {
      var p := DoublePiece(u).value;
      DoublePieceStable(u, w, n);
      AgreeDrop(u, w, n, p.n);
      DoubleStable(u[p.n..], w[p.n..]);
    }
  }

  lemma {:induction false} NestedPieceStable(u: string, w: string, n: nat)
    requires u != ""
    requires NestedPiece(u).Some? && NestedPiece(u).value < n && Agree(u, w, n)
    ensures w != "" && w[0] == u[0] && NestedPiece(w) == NestedPiece(u)
    decreases |u|, 3
  {
    hide Double, Expansion;
    var p := NestedPiece(u).value;
    AgreeAt(u, w, n, 0);
    AgreeDrop(u, w, n, 1);
    if u[0] == '\'' {
      AgreeTake(u[1..], w[1..], n - 1, p - 1);
      IndexByteStable(u[1..], w[1..], '\'');
    } else if u[0] == '"' {
      AgreeTake(u[1..], w[1..], n - 1, p - 1);
      DoubleStable(u[1..], w[1..]);
    } else if u[0] == '`' {
      AgreeTake(u, w, n, p);
      AgreeTake(u, w, n, p + 1);
      ExpansionStable(u, w, p);
    }
  }

  lemma {:induction false} NestedStable(u: string, w: string, depth: nat, br: Bracket)
    requires depth >= 1
    requires Nested(u, depth, br).Some? && Agree(u, w, Nested(u, depth, br).value)
    ensures Nested(w, depth, br) == Nested(u, depth, br)
    decreases |u|, 4
  {
    var n := Nested(u, depth, br).value;
    AgreeAt(u, w, n, 0);
    if !(u[0] == br.Close() && depth == 1) {
      var p := NestedPiece(u).value;
      NestedPieceStable(u, w, n);
      AgreeDrop(u, w, n, p);
      NestedStable(u[p..], w[p..], DepthAfter(u[0], depth, br), br);
    }
  }

  // ── words, which end at what follows them ────────────────────────────────

  /** What follows the first n bytes of w still ends a word of u there: the same
      byte as in u, the end of the line, or a blank. */
  predicate EndsAlike(u: string, w: string, n: nat) {
    Agree(u, w, n) && (|w| == n || Agree(u, w, n + 1) || IsBlank(w[n]))
  }

  lemma EndsAlikeDrop(u: string, w: string, n: nat, k: nat)
    requires EndsAlike(u, w, n) && k <= n
    ensures EndsAlike(u[k..], w[k..], n - k)
  {
    AgreeDrop(u, w, n, k);
    if Agree(u, w, n + 1) {
      AgreeDrop(u, w, n + 1, k);
    }
  }

  lemma WordPieceStable(u: string, w: string, n: nat)
    requires u != "" && !IsMeta(u[0])
    requires WordPiece(u).Some? && WordPiece(u).value.n <= n && EndsAlike(u, w, n)
    ensures w != "" && w[0] == u[0] && WordPiece(w) == WordPiece(u)
  {
    hide Double, Expansion;
    var p := WordPiece(u).value.n;
    AgreeAt(u, w, n, 0);
    AgreeDrop(u, w, n, 1);
    if u[0] == '\'' {
      AgreeTake(u[1..], w[1..], n - 1, p - 1);
      AgreeTake(u[1..], w[1..], n - 1, p - 2);
      IndexByteStable(u[1..], w[1..], '\'');
      assert u[1..p - 1] == u[1..][..p - 2] == w[1..][..p - 2] == w[1..p - 1];
    } else if u[0] == '"' {
      AgreeTake(u[1..], w[1..], n - 1, p - 1);
      DoubleStable(u[1..], w[1..]);
    } else if u[0] == '\\' {
      AgreeAt(u, w, n, 1);
    } else if u[0] == '$' || u[0] == '`' {
      AgreeTake(u, w, n, p);
      if p < n {
        AgreeTake(u, w, n, p + 1);
      }
      ExpansionStable(u, w, p);
    }
  }

  lemma {:induction false} ReadWordStable(u: string, w: string)
    requires ReadWord(u).Some? && EndsAlike(u, w, ReadWord(u).value.n)
    ensures ReadWord(w) == ReadWord(u)
    decreases |u|
  {
    var n := ReadWord(u).value.n;
    if n == 0 {
      if w != "" && Agree(u, w, 1) {
        AgreeAt(u, w, 1, 0);
      }
    } else {
      var p := WordPiece(u).value.n;
      WordPieceStable(u, w, n);
      EndsAlikeDrop(u, w, n, p);
      ReadWordStable(u[p..], w[p..]);
    }
  }

  lemma {:induction false} BlanksStable(u: string, w: string)
    requires Blanks(u) < |u| && Agree(u, w, Blanks(u) + 1)
    ensures Blanks(w) == Blanks(u)
  {
    AgreeAt(u, w, Blanks(u) + 1, 0);
    if IsBlank(u[0]) {
      AgreeDrop(u, w, Blanks(u) + 1, 1);
      BlanksStable(u[1..], w[1..]);
    }
  }

  lemma {:induction false} DigitsStable(u: string, w: string)
    requires Agree(u, w, Digits(u))
    requires Digits(u) < |w| ==> !IsDigit(w[Digits(u)])
    ensures Digits(w) == Digits(u)
  {
    if Digits(u) > 0 {
      AgreeAt(u, w, Digits(u), 0);
      AgreeDrop(u, w, Digits(u), 1);
      DigitsStable(u[1..], w[1..]);
    }
  }

  lemma {:induction false} CommentStable(u: string, w: string)
    requires Comment(u) < |u| && Agree(u, w, Comment(u) + 1)
    ensures Comment(w) == Comment(u)
  {
    AgreeAt(u, w, Comment(u) + 1, 0);
    if u[0] != '\n' {
      AgreeDrop(u, w, Comment(u) + 1, 1);
      CommentStable(u[1..], w[1..]);
    }
  }

  lemma RedirOpStable(u: string, w: string, n: nat)
    requires StartsRedir(u) && RedirOp(u).Some? && RedirOp(u).value < n && Agree(u, w, n)
    ensures StartsRedir(w) && RedirOp(w) == RedirOp(u)
  {
    AgreeAt(u, w, n, 0);
    AgreeAt(u, w, n, 1);
    if n > 2 {
      AgreeAt(u, w, n, 2);
    }
  }

  lemma TargetWordStable(u: string, w: string)
    requires TargetWord(u).Some? && EndsAlike(u, w, TargetWord(u).value)
    ensures TargetWord(w) == TargetWord(u)
  {
    ReadWordStable(u, w);
    var n := ReadWord(u).value.n;
    AgreeAt(u, w, n, 0);
    if u[0] == '\\' {
      assert WordPiece(u).value.n == 2;
      AgreeAt(u, w, n, 1);
    }
  }

  lemma ReadTargetStable(u: string, w: string)
    requires ReadTarget(u).Some? && EndsAlike(u, w, ReadTarget(u).value)
    ensures ReadTarget(w) == ReadTarget(u)
  {
    var n, t := ReadTarget(u).value, Blanks(u);
    AgreeTake(u, w, n, t + 1);
    BlanksStable(u, w);
    EndsAlikeDrop(u, w, n, t);
    TargetWordStable(u[t..], w[t..]);
  }

  lemma ReadRedirStable(u: string, w: string)
    requires StartsRedir(u) && ReadRedir(u).Some? && EndsAlike(u, w, ReadRedir(u).value)
    ensures StartsRedir(w) && ReadRedir(w) == ReadRedir(u)
  {
    hide RedirOp, ReadTarget, StartsRedir;
    var n, k := ReadRedir(u).value, RedirOp(u).value;
    assert StartsRedir(w) && RedirOp(w) == Some(k) by {
      RedirOpStable(u, w, n);
    }
    assert ReadTarget(w[k..]) == ReadTarget(u[k..]) by {
      EndsAlikeDrop(u, w, n, k);
      ReadTargetStable(u[k..], w[k..]);
    }
  }

  // ── one turn of the lexer ────────────────────────────────────────────────

  /** What follows a step's bytes still ends the step in w: the same byte as in u;
      for a word or a redirection, the end of the line or a blank; or bytes that
      start a word in both. */
  predicate StepEndsAlike(u: string, w: string, st: Step)
    requires !st.Fail?
  {
    Agree(u, w, st.n) &&
    (|| Agree(u, w, st.n + 1)
     || (st.Token? && st.kind != Op && (|w| == st.n || IsBlank(w[st.n])))
     || (st.n < |u| && st.n < |w| && !IsMeta(u[st.n]) && !IsMeta(w[st.n])))
  }

  lemma CommentStepStable(u: string, w: string)
    requires u != "" && u[0] == '#' && StepEndsAlike(u, w, NextStep(u))
    ensures w != "" && NextStep(w) == NextStep(u)
  {
    hide ReadRedir, ReadWord;
    AgreeAt(u, w, Comment(u), 0);
    CommentStable(u, w);
  }

  lemma RedirStepStable(u: string, w: string)
    requires u != "" && StartsRedir(u) && !NextStep(u).Fail? && StepEndsAlike(u, w, NextStep(u))
    ensures w != "" && NextStep(w) == NextStep(u)
  {
    hide ReadRedir, ReadWord;
    ReadRedirStable(u, w);
    AgreeAt(u, w, NextStep(u).n, 0);
  }

  lemma IoNumberStable(u: string, w: string, n: nat)
    requires EndsAlike(u, w, n)
    requires IoNumber(u) > 0 ==> IoNumber(u) < n
    requires IoNumber(u) == 0 ==> n < |u| ==> IsMeta(u[n])
    ensures IoNumber(w) == IoNumber(u)
  {
    var d := Digits(u);
    assert d <= n;
    AgreeTake(u, w, n, d);
    if d < n {
      AgreeAt(u, w, n, d);
    } else if Agree(u, w, n + 1) {
      AgreeAt(u, w, n + 1, d);
    }
    DigitsStable(u, w);
  }

  lemma NumberedRedirStepStable(u: string, w: string)
    requires u != "" && IsDigit(u[0]) && IoNumber(u) > 0
    requires !NextStep(u).Fail? && StepEndsAlike(u, w, NextStep(u))
    ensures w != "" && NextStep(w) == NextStep(u)
  {
    hide ReadRedir, ReadWord, IoNumber;
    var n, k := NextStep(u).n, IoNumber(u);
    AgreeAt(u, w, n, 0);
    IoNumberStable(u, w, n);
    assert ReadRedir(w[k..]) == ReadRedir(u[k..]) by {
      EndsAlikeDrop(u, w, n, k);
      ReadRedirStable(u[k..], w[k..]);
    }
  }

  lemma OpStepStable(u: string, w: string)
    requires u != "" && IsOpStart(u[0]) && !StartsRedir(u) && StepEndsAlike(u, w, NextStep(u))
    ensures w != "" && NextStep(w) == NextStep(u)
  {
    hide ReadRedir, ReadWord;
    var n := NextStep(u).n;
    AgreeAt(u, w, n, 0);
    if n == 2 {
      AgreeAt(u, w, n, 1);
    } else if Agree(u, w, n + 1) {
      AgreeAt(u, w, n + 1, 1);
    }
  }

  lemma WordStepStable(u: string, w: string)
    requires u != "" && NextStep(u).Token? && NextStep(u).kind == Word && StepEndsAlike(u, w, NextStep(u))
    ensures w != "" && NextStep(w) == NextStep(u)
  {
    hide ReadRedir;
    var n := NextStep(u).n;
    AgreeAt(u, w, n, 0);
    if IsDigit(u[0]) {
      IoNumberStable(u, w, n);
    }
    if u[0] == '\\' {
      assert WordPiece(u).value.n == 2;
      AgreeAt(u, w, n, 1);
    }
    ReadWordStable(u, w);
  }

  lemma NextStepStable(u: string, w: string)
    requires u != "" && !NextStep(u).Fail? && StepEndsAlike(u, w, NextStep(u))
    ensures w != "" && NextStep(w) == NextStep(u)
  {
    var n := NextStep(u).n;
    AgreeAt(u, w, n, 0);
    if IsBlank(u[0]) {
    } else if IsContinuation(u) {
      AgreeAt(u, w, n, 1);
    } else if u[0] == '#' {
      CommentStepStable(u, w);
    } else if StartsRedir(u) {
      RedirStepStable(u, w);
    } else if IsDigit(u[0]) && IoNumber(u) > 0 {
      NumberedRedirStepStable(u, w);
    } else if IsOpStart(u[0]) {
      OpStepStable(u, w);
    } else {
      WordStepStable(u, w);
    }
  }

  // ── the token stream around a cut ────────────────────────────────────────

  /** The tokens read by the steps that consume exactly the first p bytes of u;
      None when no step ends there. */
  function LexTo(u: string, off: nat, p: nat): Option<seq<Tok>>
    decreases |u|
  {
    if p == 0 then Some([])
    else if u == "" || NextStep(u).Fail? || NextStep(u).n > p then None
    else
      var st := NextStep(u);
      var rest := LexTo(u[st.n..], off + st.n, p - st.n);
      if st.Skip? then rest else ConsTok(MakeTok(u, off, st), rest)
  }

  function Append(front: seq<Tok>, rest: Option<seq<Tok>>): Option<seq<Tok>> {
    match rest
    case None => None
    case Some(ts) => Some(front + ts)
  }

  /** Lexing resumes at any cut as if the line began there. */
  lemma {:induction false} LexSplit(u: string, off: nat, p: nat)
    requires LexTo(u, off, p).Some?
    ensures p <= |u| && Lex(u, off) == Append(LexTo(u, off, p).value, Lex(u[p..], off + p))
    decreases |u|
  {
    hide NextStep, AssignName;
    if p == 0 {
      assert u[p..] == u;
      assert Lex(u, off).Some? ==> [] + Lex(u, off).value == Lex(u, off).value;
    } else {
      var st := NextStep(u);
      LexSplit(u[st.n..], off + st.n, p - st.n);
      assert u[st.n..][p - st.n..] == u[p..];
      var rest, tail := LexTo(u[st.n..], off + st.n, p - st.n).value, Lex(u[p..], off + p);
      if st.Token? && tail.Some? {
        var t := MakeTok(u, off, st);
        assert [t] + (rest + tail.value) == ([t] + rest) + tail.value;
      }
    }
  }

  /** Every token's start and end are cuts, and the token is the step between. */
  lemma {:induction false} TokenCuts(u: string, off: nat, k: nat)
    requires Lex(u, off).Some? && k < |Lex(u, off).value|
    ensures var ts := Lex(u, off).value;
      var t := ts[k];
      && off <= t.start < t.end <= off + |u|
      && LexTo(u, off, t.start - off) == Some(ts[..k])
      && LexTo(u, off, t.end - off) == Some(ts[..k + 1])
    decreases |u|
  {
    hide NextStep, AssignName;
    var ts := Lex(u, off).value;
    var st := NextStep(u);
    var rest := Lex(u[st.n..], off + st.n).value;
    if st.Skip? {
      TokenCuts(u[st.n..], off + st.n, k);
    } else {
      var t := MakeTok(u, off, st);
      assert ts == [t] + rest;
      if k == 0 {
        assert LexTo(u[st.n..], off + st.n, 0) == Some([]);
        assert ts[..1] == [t] + [];
      } else {
        TokenCuts(u[st.n..], off + st.n, k - 1);
        assert ts[..k] == [t] + rest[..k - 1];
        assert ts[..k + 1] == [t] + rest[..k];
      }
    }
  }

  /** u and w agree up to a cut at p and stay apart there the way an edit at the
      end of a word (wordEnd) or at the start of one needs. */
  predicate CutAlike(u: string, w: string, p: nat, wordEnd: bool) {
    Agree(u, w, p) &&
    if wordEnd then |w| == p || IsBlank(w[p])
    else p < |u| && p < |w| && !IsMeta(u[p]) && !IsMeta(w[p])
  }

  predicate EndsInWord(ts: seq<Tok>, end: nat) {
    ts != [] && ts[|ts| - 1].kind != Op && ts[|ts| - 1].end == end
  }

  lemma CutAlikeDrop(u: string, w: string, p: nat, wordEnd: bool, n: nat)
    requires CutAlike(u, w, p, wordEnd) && n <= p
    ensures CutAlike(u[n..], w[n..], p - n, wordEnd)
  {
    AgreeDrop(u, w, p, n);
  }

  /** The tokens before a cut survive any edit behind it. */
  lemma {:induction false} LexToStable(u: string, w: string, off: nat, p: nat, wordEnd: bool)
    requires LexTo(u, off, p).Some? && CutAlike(u, w, p, wordEnd)
    requires wordEnd ==> EndsInWord(LexTo(u, off, p).value, off + p)
    ensures LexTo(w, off, p) == LexTo(u, off, p)
    decreases |u|
  {
    hide NextStep, AssignName;
    if p > 0 {
      var st := NextStep(u);
      var n := st.n;
      AgreeTake(u, w, p, n);
      if n < p {
        AgreeTake(u, w, p, n + 1);
      }
      NextStepStable(u, w);
      CutAlikeDrop(u, w, p, wordEnd, n);
      var rest := LexTo(u[n..], off + n, p - n).value;
      if wordEnd && n < p {
        assert st.Token? ==> LexTo(u, off, p).value == [MakeTok(u, off, st)] + rest;
      }
      if n < p || !wordEnd {
        LexToStable(u[n..], w[n..], off + n, p - n, wordEnd);
      }
    }
  }

  // ── what lies behind the cut ─────────────────────────────────────────────

  /** A token moved d bytes along the line; nothing else about it changes. */
  function ShiftTok(t: Tok, d: int): Tok
    requires t.start + d >= 0 && t.end + d >= 0
  {
    t.(start := t.start + d, end := t.end + d)
  }

  function ShiftToks(ts: seq<Tok>, d: int): (r: seq<Tok>)
    requires forall i :: 0 <= i < |ts| ==> ts[i].start + d >= 0 && ts[i].end + d >= 0
    ensures |r| == |ts| && forall i :: 0 <= i < |ts| ==> r[i] == ShiftTok(ts[i], d)
  {
    seq(|ts|, i requires 0 <= i < |ts| => ShiftTok(ts[i], d))
  }

  /** The same text lexes to the same tokens wherever it stands in the line. */
  lemma {:induction false} LexShift(u: string, off: nat, d: int)
    requires off + d >= 0
    ensures Lex(u, off).Some? == Lex(u, off + d).Some?
    ensures Lex(u, off).Some? ==>
      && (forall i :: 0 <= i < |Lex(u, off).value| ==>
            Lex(u, off).value[i].start >= off && Lex(u, off).value[i].end >= off)
      && Lex(u, off + d).value == ShiftToks(Lex(u, off).value, d)
    decreases |u|
  {
    hide NextStep, AssignName;
    if u != "" && !NextStep(u).Fail? {
      LexShift(u[NextStep(u).n..], off + NextStep(u).n, d);
    }
  }
}
