/**
The language `ShellLexer` reads, given the other way round: what there is to write, how it
is written, and what each piece is worth. A word is a list of quoted and unquoted pieces;
the theorems say that the reader gets from every written word exactly the value of its
pieces, and that it reads nothing else (sections 2.2, 2.3 and 2.6 of the Shell Command
Language of POSIX.1-2017).

`WriteX(x, r)` is the text of x in front of r.
*/
module ShellGrammar {
  import opened Wrappers
  import opened ShellLexer

  // ── what there is to write ───────────────────────────────────────────────

  /** Between backquotes: escaped bytes and others. */
  datatype Back = BackEnd | BackSlash(c: char, rest: Back) | BackChar(c: char, rest: Back)

  /** An expansion: a `$` on its own, a backquoted command, or $(…) and ${…}. */
  datatype Expn = Lone | Backquoted(back: Back) | Sub(br: Bracket, nest: Nest)

  /** Between the brackets of $(…) or ${…}; a group is a bracket of the same kind. */
  datatype Nest =
    | NestEnd
    | NestSlash(c: char, rest: Nest)
    | NestSingle(text: string, rest: Nest)
    | NestDouble(body: Body, rest: Nest)
    | NestBack(back: Back, rest: Nest)
    | Group(inner: Nest, rest: Nest)
    | NestChar(c: char, rest: Nest)

  /** Between double quotes: a byte, a backslash that escapes the byte behind it, one that
      stays in front of it, a line continuation, an expansion. */
  datatype Body =
    | BodyEnd
    | Copied(c: char, rest: Body)
    | Escaped(c: char, rest: Body)
    | Kept(c: char, rest: Body)
    | Joined(rest: Body)
    | Expands(e: Expn, rest: Body)

  /** A word. */
  datatype Text =
    | TextEnd
    | Bare(c: char, rest: Text)
    | Slashed(c: char, rest: Text)
    | Folded(rest: Text)
    | Single(text: string, rest: Text)
    | Quoted(body: Body, rest: Text)
    | Expanded(e: Expn, rest: Text)

  // ── how it is written ────────────────────────────────────────────────────

  function WriteBack(b: Back, r: string): string {
    match b
    case BackEnd => r
    case BackSlash(c, rest) => "\\" + [c] + WriteBack(rest, r)
    case BackChar(c, rest) => [c] + WriteBack(rest, r)
  }

  function WriteExpn(e: Expn, r: string): string {
    match e
    case Lone => "$" + r
    case Backquoted(b) => "`" + WriteBack(b, "`" + r)
    case Sub(br, n) => "$" + [br.Open()] + WriteNest(n, br, [br.Close()] + r)
  }

  function WriteNest(n: Nest, br: Bracket, r: string): string {
    match n
    case NestEnd => r
    case NestSlash(c, rest) => "\\" + [c] + WriteNest(rest, br, r)
    case NestSingle(t, rest) => "'" + t + "'" + WriteNest(rest, br, r)
    case NestDouble(b, rest) => "\"" + WriteBody(b, "\"" + WriteNest(rest, br, r))
    case NestBack(b, rest) => "`" + WriteBack(b, "`" + WriteNest(rest, br, r))
    case Group(inner, rest) => [br.Open()] + WriteNest(inner, br, [br.Close()] + WriteNest(rest, br, r))
    case NestChar(c, rest) => [c] + WriteNest(rest, br, r)
  }

  function WriteBody(b: Body, r: string): string {
    match b
    case BodyEnd => r
    case Copied(c, rest) => [c] + WriteBody(rest, r)
    case Escaped(c, rest) => "\\" + [c] + WriteBody(rest, r)
    case Kept(c, rest) => "\\" + [c] + WriteBody(rest, r)
    case Joined(rest) => "\\\n" + WriteBody(rest, r)
    case Expands(e, rest) => WriteExpn(e, WriteBody(rest, r))
  }

  function WriteText(t: Text, r: string): string {
    match t
    case TextEnd => r
    case Bare(c, rest) => [c] + WriteText(rest, r)
    case Slashed(c, rest) => "\\" + [c] + WriteText(rest, r)
    case Folded(rest) => "\\\n" + WriteText(rest, r)
    case Single(v, rest) => "'" + v + "'" + WriteText(rest, r)
    case Quoted(b, rest) => "\"" + WriteBody(b, "\"" + WriteText(rest, r))
    case Expanded(e, rest) => WriteExpn(e, WriteText(rest, r))
  }

  // ── what may stand where ─────────────────────────────────────────────────

  predicate OkBack(b: Back) {
    match b
    case BackEnd => true
    case BackSlash(_, rest) => OkBack(rest)
    case BackChar(c, rest) => c !in "\\`" && OkBack(rest)
  }

  /** r is what follows: a bracket behind a `$` would open an expansion. */
  predicate OkExpn(e: Expn, r: string) {
    match e
    case Lone => r == "" || r[0] !in "({"
    case Backquoted(b) => OkBack(b)
    case Sub(br, n) => OkNest(n, br)
  }

  predicate OkNest(n: Nest, br: Bracket) {
    match n
    case NestEnd => true
    case NestSlash(_, rest) => OkNest(rest, br)
    case NestSingle(t, rest) => '\'' !in t && OkNest(rest, br)
    case NestDouble(b, rest) => OkBody(b) && OkNest(rest, br)
    case NestBack(b, rest) => OkBack(b) && OkNest(rest, br)
    case Group(inner, rest) => OkNest(inner, br) && OkNest(rest, br)
    case NestChar(c, rest) => c !in "\\'\"`" && c != br.Open() && c != br.Close() && OkNest(rest, br)
  }

  predicate OkBody(b: Body) {
    match b
    case BodyEnd => true
    case Copied(c, rest) => c !in "\"\\$`" && OkBody(rest)
    case Escaped(c, rest) => c in "\"\\$`" && OkBody(rest)
    case Kept(c, rest) => c !in "\"\\$`\n" && OkBody(rest)
    case Joined(rest) => OkBody(rest)
    case Expands(e, rest) => OkExpn(e, WriteBody(rest, "")) && OkBody(rest)
  }

  predicate OkText(t: Text, r: string) {
    match t
    case TextEnd => r == "" || IsMeta(r[0])
    case Bare(c, rest) => !IsMeta(c) && c !in "'\"\\$`" && OkText(rest, r)
    case Slashed(c, rest) => c != '\n' && OkText(rest, r)
    case Folded(rest) => OkText(rest, r)
    case Single(v, rest) => '\'' !in v && OkText(rest, r)
    case Quoted(b, rest) => OkBody(b) && OkText(rest, r)
    case Expanded(e, rest) => OkExpn(e, WriteText(rest, r)) && OkText(rest, r)
  }

  // ── what it is worth ─────────────────────────────────────────────────────

  /** The value between double quotes; an expansion stands for its own text. */
  function BodyValue(b: Body): string {
    match b
    case BodyEnd => ""
    case Copied(c, rest) => [c] + BodyValue(rest)
    case Escaped(c, rest) => [c] + BodyValue(rest)
    case Kept(c, rest) => "\\" + [c] + BodyValue(rest)
    case Joined(rest) => BodyValue(rest)
    case Expands(e, rest) => WriteExpn(e, "") + BodyValue(rest)
  }

  predicate BodyLiteral(b: Body) {
    match b
    case BodyEnd => true
    case Expands(_, _) => false
    case _ => BodyLiteral(b.rest)
  }

  function TextValue(t: Text): string {
    match t
    case TextEnd => ""
    case Bare(c, rest) => [c] + TextValue(rest)
    case Slashed(c, rest) => [c] + TextValue(rest)
    case Folded(rest) => TextValue(rest)
    case Single(v, rest) => v + TextValue(rest)
    case Quoted(b, rest) => BodyValue(b) + TextValue(rest)
    case Expanded(e, rest) => WriteExpn(e, "") + TextValue(rest)
  }

  predicate TextLiteral(t: Text) {
    match t
    case TextEnd => true
    case Expanded(_, _) => false
    case Quoted(b, rest) => BodyLiteral(b) && TextLiteral(rest)
    case _ => TextLiteral(t.rest)
  }

  // ── writing in front of more ─────────────────────────────────────────────

  lemma {:induction false} BackInFront(b: Back, r: string, q: string)
    ensures WriteBack(b, r + q) == WriteBack(b, r) + q
  {
    if b != BackEnd {
      BackInFront(b.rest, r, q);
    }
  }

  lemma {:induction false} ExpnInFront(e: Expn, r: string, q: string)
    ensures WriteExpn(e, r + q) == WriteExpn(e, r) + q
    decreases e
  {
    match e
    case Lone =>
    case Backquoted(b) =>
      BackInFront(b, "`" + r, q);
      assert "`" + r + q == "`" + (r + q);
    case Sub(br, n) =>
      NestInFront(n, br, [br.Close()] + r, q);
      assert [br.Close()] + r + q == [br.Close()] + (r + q);
  }

  lemma {:induction false} NestInFront(n: Nest, br: Bracket, r: string, q: string)
    ensures WriteNest(n, br, r + q) == WriteNest(n, br, r) + q
    decreases n
  {
    hide WriteBody, WriteBack, WriteNest;
    if n == NestEnd {
      assert WriteNest(n, br, r + q) == r + q && WriteNest(n, br, r) == r by {
        EndsNest(br, r);
        EndsNest(br, r + q);
      }
    } else {
      NestInFront(n.rest, br, r, q);
      var w := WriteNest(n.rest, br, r);
      NestUnit(n, br, r);
      NestUnit(n, br, r + q);
      match n
      case NestDouble(b, _) =>
        BodyInFront(b, "\"" + w, q);
        assert "\"" + w + q == "\"" + (w + q);
      case NestBack(b, _) =>
        BackInFront(b, "`" + w, q);
        assert "`" + w + q == "`" + (w + q);
      case Group(inner, _) =>
        NestInFront(inner, br, [br.Close()] + w, q);
        assert [br.Close()] + w + q == [br.Close()] + (w + q);
      case _ =>
    }
  }

  lemma EndsNest(br: Bracket, r: string)
    ensures WriteNest(NestEnd, br, r) == r
  {}

  /** A unit, in terms of what is written behind it. */
  function NestUnitText(n: Nest, br: Bracket, w: string): string
    requires n != NestEnd
  {
    match n
    case NestSlash(c, _) => "\\" + [c] + w
    case NestSingle(t, _) => "'" + t + "'" + w
    case NestDouble(b, _) => "\"" + WriteBody(b, "\"" + w)
    case NestBack(b, _) => "`" + WriteBack(b, "`" + w)
    case Group(inner, _) => [br.Open()] + WriteNest(inner, br, [br.Close()] + w)
    case NestChar(c, _) => [c] + w
  }

  lemma NestUnit(n: Nest, br: Bracket, r: string)
    requires n != NestEnd
    ensures WriteNest(n, br, r) == NestUnitText(n, br, WriteNest(n.rest, br, r))
  {
    hide WriteBody, WriteBack;
  }

  lemma {:induction false} BodyInFront(b: Body, r: string, q: string)
    ensures WriteBody(b, r + q) == WriteBody(b, r) + q
    decreases b
  {
    if b != BodyEnd {
      BodyInFront(b.rest, r, q);
      if b.Expands? {
        ExpnInFront(b.e, WriteBody(b.rest, r), q);
      }
    }
  }

  // ── every written word is read ───────────────────────────────────────────

  lemma {:induction false} BackReads(b: Back, r: string)
    requires OkBack(b)
    ensures |WriteBack(b, "`" + r)| > |r|
    ensures Backtick(WriteBack(b, "`" + r)) == Some(|WriteBack(b, "`" + r)| - |r|)
  {
    var u := WriteBack(b, "`" + r);
    match b
    case BackEnd =>
    case BackSlash(c, rest) =>
      BackReads(rest, r);
      assert u[2..] == WriteBack(rest, "`" + r);
    case BackChar(c, rest) =>
      BackReads(rest, r);
      assert u[1..] == WriteBack(rest, "`" + r);
  }

  /** In front of r, the expansion is skipped to r. */
  predicate ExpnIsRead(e: Expn, r: string) {
    var u := WriteExpn(e, r);
    |u| > |r| && (u[0] == '$' || u[0] == '`') && Expansion(u) == Some(|u| - |r|) && u[|u| - |r|..] == r
  }

  /** With its close behind it, what is in the brackets is skipped to r, one level up. */
  predicate NestIsRead(n: Nest, br: Bracket, depth: nat, r: string)
    requires depth >= 1
  {
    var u := WriteNest(n, br, [br.Close()] + r);
    && |u| > |r|
    && Nested(u, depth, br) == if depth == 1 then Some(|u| - |r|) else Plus(|u| - |r|, Nested(r, depth - 1, br))
  }

  /** With its quote behind it, the body is read to r, with its value. */
  predicate BodyIsRead(b: Body, r: string) {
    var u := WriteBody(b, "\"" + r);
    && |u| > |r| && u[|u| - |r|..] == r
    && Double(u) == Some(Scan(|u| - |r|, BodyValue(b), BodyLiteral(b)))
  }

  lemma BackquotedReads(b: Back, r: string)
    requires OkBack(b)
    ensures ExpnIsRead(Backquoted(b), r)
  {
    hide Backtick;
    var u := WriteExpn(Backquoted(b), r);
    BackReads(b, r);
    BackInFront(b, "`", r);
    assert u[1..] == WriteBack(b, "`" + r);
  }

  lemma {:induction false} ExpnReads(e: Expn, r: string)
    requires OkExpn(e, r)
    ensures ExpnIsRead(e, r)
    decreases e
  {
    hide Nested, Backtick;
    var u := WriteExpn(e, r);
    match e
    case Lone => assert u[1..] == r;
    case Backquoted(b) => BackquotedReads(b, r);
    case Sub(br, n) =>
      NestReads(n, br, 1, r);
      NestInFront(n, br, [br.Close()], r);
      assert u[2..] == WriteNest(n, br, [br.Close()] + r);
  }

  lemma NestedTurn(u: string, k: nat, w: string, depth: nat, br: Bracket)
    requires u != "" && depth >= 1 && (u[0] == br.Close() ==> depth > 1)
    requires NestedPiece(u) == Some(k) && u[k..] == w
    ensures Nested(u, depth, br) == Plus(k, Nested(w, DepthAfter(u[0], depth, br), br))
  {
    hide NestedPiece;
  }

  lemma SinglePiece(v: string, w: string)
    requires '\'' !in v
    ensures var u := "'" + v + "'" + w; NestedPiece(u) == Some(|v| + 2) && u[|v| + 2..] == w
  {
    hide Double, Expansion, IndexByte;
    var u := "'" + v + "'" + w;
    IndexByteAt(v, '\'', w);
    assert u[1..] == v + "'" + w;
  }

  lemma DoubledPiece(b: Body, w: string)
    requires OkBody(b)
    requires BodyIsRead(b, w)
    ensures var u := "\"" + WriteBody(b, "\"" + w);
      |u| > |w| && NestedPiece(u) == Some(|u| - |w|) && u[|u| - |w|..] == w
  {
    hide Double, Expansion, WriteBody;
    var x := WriteBody(b, "\"" + w);
    var u := "\"" + x;
    assert u[1..] == x;
    assert u[|u| - |w|..] == x[|x| - |w|..];
  }

  lemma SlashedPiece(c: char, w: string)
    ensures var u := "\\" + [c] + w; NestedPiece(u) == Some(2) && u[2..] == w
  {}

  /** Up to the close behind it, at any depth. */
  lemma {:induction false} NestReads(n: Nest, br: Bracket, depth: nat, r: string)
    requires OkNest(n, br) && depth >= 1
    ensures NestIsRead(n, br, depth, r)
    decreases n
  {
    hide Double, Expansion, IndexByte, Nested, NestedPiece, NestIsRead, BodyIsRead, ExpnIsRead, WriteBody, WriteBack;
    if n == NestEnd {
      ClosesNest(br, depth, r);
    } else if n.Group? {
      NestReads(n.rest, br, depth, r);
      NestReads(n.inner, br, depth + 1, WriteNest(n.rest, br, [br.Close()] + r));
      GroupReads(n.inner, n.rest, br, depth, r);
    } else {
      NestReads(n.rest, br, depth, r);
      var w := WriteNest(n.rest, br, [br.Close()] + r);
      match n {
        case NestSlash(c, _) => SlashedPiece(c, w);
        case NestSingle(v, _) => SinglePiece(v, w);
        case NestDouble(b, _) =>
          BodyReads(b, w);
          DoubledPiece(b, w);
        case NestBack(b, _) =>
          BackquotedReads(b, w);
          BackPiece(b, w);
        case NestChar(c, _) => BytePiece(c, w);
      }
      UnitReads(n, br, depth, r);
    }
  }

  /** One unit that is no group, in front of more that is read. */
  lemma UnitReads(n: Nest, br: Bracket, depth: nat, r: string)
    requires !n.NestEnd? && !n.Group? && depth >= 1 && NestIsRead(n.rest, br, depth, r)
    requires OkNest(n, br)
    requires var u, w := WriteNest(n, br, [br.Close()] + r), WriteNest(n.rest, br, [br.Close()] + r);
      |u| > |w| && NestedPiece(u) == Some(|u| - |w|) && u[|u| - |w|..] == w
    ensures NestIsRead(n, br, depth, r)
  {
    hide Nested, NestedPiece, WriteNest, OkNest;
    var u, w := WriteNest(n, br, [br.Close()] + r), WriteNest(n.rest, br, [br.Close()] + r);
    UnitStart(n, br, [br.Close()] + r);
    NestedTurn(u, |u| - |w|, w, depth, br);
  }

  lemma UnitStart(n: Nest, br: Bracket, r: string)
    requires !n.NestEnd? && !n.Group? && OkNest(n, br)
    ensures var u := WriteNest(n, br, r); u != "" && u[0] != br.Open() && u[0] != br.Close()
  {
    hide WriteBody, WriteBack, OkBody, OkBack;
  }

  lemma BackPiece(b: Back, w: string)
    requires ExpnIsRead(Backquoted(b), w)
    ensures var u := "`" + WriteBack(b, "`" + w);
      |u| > |w| && NestedPiece(u) == Some(|u| - |w|) && u[|u| - |w|..] == w
  {
    hide Expansion, WriteBack;
  }

  lemma BytePiece(c: char, w: string)
    requires c !in "\\'\"`"
    ensures var u := [c] + w; NestedPiece(u) == Some(1) && u[1..] == w
  {}

  lemma ClosesNest(br: Bracket, depth: nat, r: string)
    requires depth >= 1
    ensures NestIsRead(NestEnd, br, depth, r)
  {
    var u := [br.Close()] + r;
    assert u[1..] == r;
    assert NestedPiece(u) == Some(1);
    if depth > 1 {
      NestedTurn(u, 1, r, depth, br);
    }
  }

  lemma GroupReads(inner: Nest, rest: Nest, br: Bracket, depth: nat, r: string)
    requires depth >= 1 && NestIsRead(rest, br, depth, r)
    requires NestIsRead(inner, br, depth + 1, WriteNest(rest, br, [br.Close()] + r))
    ensures NestIsRead(Group(inner, rest), br, depth, r)
  {
    hide Nested, NestedPiece, WriteNest;
    NestUnit(Group(inner, rest), br, [br.Close()] + r);
    var w := WriteNest(rest, br, [br.Close()] + r);
    var x := WriteNest(inner, br, [br.Close()] + w);
    var u := [br.Open()] + x;
    assert u[1..] == x;
    OpenIsPiece(br, x);
    NestedTurn(u, 1, x, depth, br);
  }

  lemma OpenIsPiece(br: Bracket, x: string)
    ensures NestedPiece([br.Open()] + x) == Some(1)
  {}

  lemma DoubleTurn(u: string, p: Scan, w: string)
    requires u != "" && u[0] != '"' && DoublePiece(u) == Some(p) && u[p.n..] == w
    ensures Double(u) == Cons(p.n, p.lit, p.literal, Double(w))
  {
    hide DoublePiece;
  }

  /** A double-quoted text has the value of its body, and is literal without expansions. */
  lemma {:induction false} BodyReads(b: Body, r: string)
    requires OkBody(b)
    ensures BodyIsRead(b, r)
    decreases b
  {
    hide Expansion, Double, DoublePiece, BodyIsRead, ExpnIsRead, WriteExpn, OkExpn;
    if b == BodyEnd {
      ClosesBody(r);
    } else {
      BodyReads(b.rest, r);
      var w := WriteBody(b.rest, "\"" + r);
      match b
      case Copied(c, _) =>
        PlainPiece(c, w);
        PieceReads(b, r, Scan(1, [c], true));
      case Escaped(c, _) =>
        EscapedPiece(c, w);
        PieceReads(b, r, Scan(2, [c], true));
      case Joined(_) =>
        JoinedPiece(w);
        PieceReads(b, r, Scan(2, "", true));
      case Kept(c, _) => KeptBodyReads(b, r);
      case Expands(e, rest) =>
        BodyInFront(rest, "", "\"" + r);
        assert "" + ("\"" + r) == "\"" + r;
        FollowsAlike(e, WriteBody(rest, ""), r);
        ExpnReads(e, w);
        ExpnPiece(e, w);
        PieceReads(b, r, Scan(|WriteExpn(e, w)| - |w|, WriteExpn(e, ""), false));
    }
  }

  /** One piece in front of more that is read. */
  lemma PieceReads(b: Body, r: string, p: Scan)
    requires b != BodyEnd && BodyIsRead(b.rest, r)
    requires var u, w := WriteBody(b, "\"" + r), WriteBody(b.rest, "\"" + r);
      |u| > |w| && u[0] != '"' && DoublePiece(u) == Some(p) && p.n == |u| - |w| && u[p.n..] == w
    requires BodyValue(b) == p.lit + BodyValue(b.rest) && BodyLiteral(b) == (p.literal && BodyLiteral(b.rest))
    ensures BodyIsRead(b, r)
  {
    hide Double, DoublePiece, WriteBody, BodyValue, BodyLiteral;
    var u, w := WriteBody(b, "\"" + r), WriteBody(b.rest, "\"" + r);
    DoubleTurn(u, p, w);
    assert u[|u| - |r|..] == w[|w| - |r|..];
  }

  lemma KeptBodyReads(b: Body, r: string)
    requires b.Kept? && OkBody(b) && BodyIsRead(b.rest, r)
    ensures BodyIsRead(b, r)
  {
    hide Double, DoublePiece;
    var w := WriteBody(b.rest, "\"" + r);
    KeptReads(b.c, w);
    var u := "\\" + [b.c] + w;
    assert u[|u| - |r|..] == w[|w| - |r|..];
  }

  lemma ClosesBody(r: string)
    ensures BodyIsRead(BodyEnd, r)
  {}

  lemma PlainPiece(c: char, w: string)
    requires c !in "\"\\$`"
    ensures DoublePiece([c] + w) == Some(Scan(1, [c], true)) && ([c] + w)[1..] == w
  {}

  lemma EscapedPiece(c: char, w: string)
    requires c in "\"\\$`"
    ensures var u := "\\" + [c] + w; DoublePiece(u) == Some(Scan(2, [c], true)) && u[2..] == w
  {}

  lemma JoinedPiece(w: string)
    ensures var u := "\\\n" + w; DoublePiece(u) == Some(Scan(2, "", true)) && u[2..] == w
  {}

  lemma FollowsAlike(e: Expn, w: string, r: string)
    requires OkExpn(e, w)
    ensures OkExpn(e, w + ("\"" + r))
  {}

  lemma ExpnPiece(e: Expn, w: string)
    requires ExpnIsRead(e, w)
    ensures var u := WriteExpn(e, w);
      && |u| > |w| && u[0] != '"' && u[|u| - |w|..] == w
      && DoublePiece(u) == Some(Scan(|u| - |w|, WriteExpn(e, ""), false))
  {
    hide Expansion, WriteExpn;
    ExpnText(e, w);
  }

  /** A backslash that escapes nothing is read on its own, and what is behind it after it. */
  lemma KeptReads(c: char, w: string)
    requires c !in "\"\\$`\n"
    ensures Double("\\" + [c] + w) == Cons(2, "\\" + [c], true, Double(w))
  {
    hide Double, DoublePiece;
    var u := "\\" + [c] + w;
    assert u[1..] == [c] + w;
    assert DoublePiece(u) == Some(Scan(1, "\\", true)) by {
      LonePiece(c, w);
    }
    PlainPiece(c, w);
    DoubleTurn(u, Scan(1, "\\", true), [c] + w);
    DoubleTurn([c] + w, Scan(1, [c], true), w);
    if Double(w).Some? {
      assert "\\" + ([c] + Double(w).value.lit) == "\\" + [c] + Double(w).value.lit;
    }
  }

  lemma LonePiece(c: char, w: string)
    requires c !in "\"\\$`\n"
    ensures DoublePiece("\\" + [c] + w) == Some(Scan(1, "\\", true))
  {}

  lemma ExpnText(e: Expn, r: string)
    ensures var u := WriteExpn(e, r);
      |u| >= |r| && u[..|u| - |r|] == WriteExpn(e, "")
  {
    ExpnInFront(e, "", r);
    assert "" + r == r;
  }

  lemma {:induction false} IndexByteAt(v: string, c: char, rest: string)
    requires c !in v
    ensures IndexByte(v + [c] + rest, c) == |v|
  {
    if v == "" {
      assert v + [c] + rest == [c] + rest;
    } else {
      assert (v + [c] + rest)[1..] == v[1..] + [c] + rest;
      assert v[0] in v;
      IndexByteAt(v[1..], c, rest);
    }
  }

  /** In front of r the word is read to r, with its value. */
  predicate TextIsRead(t: Text, r: string) {
    var u := WriteText(t, r);
    |u| >= |r| && u[|u| - |r|..] == r && ReadWord(u) == Some(Scan(|u| - |r|, TextValue(t), TextLiteral(t)))
  }

  /** Every written word is read, and with the value of its pieces. */
  lemma {:induction false} TextReads(t: Text, r: string)
    requires OkText(t, r)
    ensures TextIsRead(t, r)
    decreases t
  {
    hide Expansion, Double, WordPiece, ReadWord, TextIsRead, BodyIsRead, ExpnIsRead, WriteExpn, WriteBody, OkExpn;
    if t == TextEnd {
      EndsText(r);
    } else {
      TextReads(t.rest, r);
      var w := WriteText(t.rest, r);
      match t
      case Bare(c, _) =>
        BareTurn(c, w);
        TurnReads(t, r, Scan(1, [c], true));
      case Slashed(c, _) =>
        SlashTurn(c, w);
        TurnReads(t, r, Scan(2, [c], true));
      case Folded(_) =>
        FoldedTurn(w);
        TurnReads(t, r, Scan(2, "", true));
      case Single(v, _) =>
        SingleTurn(v, w);
        TurnReads(t, r, Scan(|v| + 2, v, true));
      case Quoted(b, _) =>
        BodyReads(b, w);
        QuotedTurn(b, w);
        TurnReads(t, r, Scan(|WriteText(t, r)| - |w|, BodyValue(b), BodyLiteral(b)));
      case Expanded(e, _) =>
        ExpnReads(e, w);
        ExpandedTurn(e, w);
        TurnReads(t, r, Scan(|WriteText(t, r)| - |w|, WriteExpn(e, ""), false));
    }
  }

  lemma EndsText(r: string)
    requires OkText(TextEnd, r)
    ensures TextIsRead(TextEnd, r)
  {}

  /** One piece in front of more that is read. */
  lemma TurnReads(t: Text, r: string, p: Scan)
    requires t != TextEnd && TextIsRead(t.rest, r)
    requires var u, w := WriteText(t, r), WriteText(t.rest, r);
      |u| > |w| && !IsMeta(u[0]) && WordPiece(u) == Some(p) && p.n == |u| - |w| && u[p.n..] == w
    requires TextValue(t) == p.lit + TextValue(t.rest) && TextLiteral(t) == (p.literal && TextLiteral(t.rest))
    ensures TextIsRead(t, r)
  {
    hide WordPiece, WriteText, TextValue, TextLiteral, IsMeta;
    var u, w := WriteText(t, r), WriteText(t.rest, r);
    assert u[|u| - |r|..] == w[|w| - |r|..];
  }

  lemma BareTurn(c: char, w: string)
    requires !IsMeta(c) && c !in "'\"\\$`"
    ensures WordPiece([c] + w) == Some(Scan(1, [c], true)) && ([c] + w)[1..] == w
  {}

  lemma SlashTurn(c: char, w: string)
    requires c != '\n'
    ensures var u := "\\" + [c] + w; WordPiece(u) == Some(Scan(2, [c], true)) && u[2..] == w
  {}

  lemma FoldedTurn(w: string)
    ensures var u := "\\\n" + w; WordPiece(u) == Some(Scan(2, "", true)) && u[2..] == w
  {}

  lemma SingleTurn(v: string, w: string)
    requires '\'' !in v
    ensures var u := "'" + v + "'" + w; WordPiece(u) == Some(Scan(|v| + 2, v, true)) && u[|v| + 2..] == w
  {
    hide Double, Expansion, IndexByte;
    var u := "'" + v + "'" + w;
    IndexByteAt(v, '\'', w);
    assert u[1..] == v + "'" + w;
    assert u[1..1 + |v|] == v;
  }

  lemma QuotedTurn(b: Body, w: string)
    requires BodyIsRead(b, w)
    ensures var u := "\"" + WriteBody(b, "\"" + w);
      && |u| > |w| && u[|u| - |w|..] == w
      && WordPiece(u) == Some(Scan(|u| - |w|, BodyValue(b), BodyLiteral(b)))
  {
    hide Double, Expansion, WriteBody;
    var x := WriteBody(b, "\"" + w);
    var u := "\"" + x;
    assert u[1..] == x;
    assert u[|u| - |w|..] == x[|x| - |w|..];
  }

  lemma ExpandedTurn(e: Expn, w: string)
    requires ExpnIsRead(e, w)
    ensures var u := WriteExpn(e, w);
      && |u| > |w| && !IsMeta(u[0]) && u[|u| - |w|..] == w
      && WordPiece(u) == Some(Scan(|u| - |w|, WriteExpn(e, ""), false))
  {
    hide Expansion, WriteExpn;
    ExpnText(e, w);
  }

  // ── and nothing else is ──────────────────────────────────────────────────

  lemma {:induction false} BackOf(u: string) returns (b: Back)
    requires Backtick(u).Some?
    ensures OkBack(b) && WriteBack(b, "`" + u[Backtick(u).value..]) == u
    decreases |u|
  {
    var n := Backtick(u).value;
    if u[0] == '`' {
      b := BackEnd;
      assert "`" + u[1..] == u;
    } else {
      var k := if u[0] == '\\' then 2 else 1;
      var rest := BackOf(u[k..]);
      assert u[k..][n - k..] == u[n..];
      b := if k == 2 then BackSlash(u[1], rest) else BackChar(u[0], rest);
      assert u == (if k == 2 then "\\" + [u[1]] else [u[0]]) + u[k..];
    }
  }

  lemma {:induction false} ExpnOf(u: string) returns (e: Expn)
    requires u != "" && (u[0] == '$' || u[0] == '`') && Expansion(u).Some?
    ensures OkExpn(e, u[Expansion(u).value..]) && WriteExpn(e, u[Expansion(u).value..]) == u
    decreases |u|, 0
  {
    hide Backtick, Nested;
    var n := Expansion(u).value;
    if u[0] == '`' {
      var b := BackOf(u[1..]);
      e := Backquoted(b);
      assert u[1..][n - 1..] == u[n..];
      assert u == "`" + u[1..];
    } else if n > 1 {
      var br := if u[1] == '(' then Paren else Brace;
      var nest, w := NestOf(u[2..], 1, br);
      e := Sub(br, nest);
      assert |w| == |u| - n;
      assert w == u[n..] by {
        NestInFront(nest, br, [br.Close()], w);
        assert u[2..][|u[2..]| - |w|..] == u[n..];
      }
      assert u == "$" + [br.Open()] + u[2..];
    } else {
      e := Lone;
      OneByteExpansion(u);
      assert u == "$" + u[1..];
    }
  }

  lemma OneByteExpansion(u: string)
    requires u != "" && u[0] == '$' && Expansion(u) == Some(1)
    ensures |u| > 1 ==> u[1] !in "({"
  {}

  /** What Nested skips first: all up to the next close of its own level. */
  lemma {:induction false} NestOf(u: string, depth: nat, br: Bracket) returns (n: Nest, w: string)
    requires depth >= 1 && Nested(u, depth, br).Some?
    ensures OkNest(n, br) && WriteNest(n, br, [br.Close()] + w) == u && |w| < |u|
    ensures if depth == 1 then |w| == |u| - Nested(u, depth, br).value else Nested(w, depth - 1, br).Some?
    decreases |u|, 4
  {
    hide Nested, NestedPiece;
    NestedCases(u, depth, br);
    if u[0] == br.Close() {
      n, w := NestEnd, u[1..];
      assert [br.Close()] + w == u;
    } else {
      var k := NestedPiece(u).value;
      var x := u[k..];
      if u[0] == br.Open() {
        var inner, y := NestOf(x, depth + 1, br);
        var rest;
        rest, w := NestOf(y, depth, br);
        n := Group(inner, rest);
        assert u == [br.Open()] + x;
        NestReads(inner, br, depth + 1, y);
      } else {
        var rest;
        rest, w := NestOf(x, depth, br);
        n := UnitOf(u, k, br, rest, [br.Close()] + w);
      }
    }
  }

  lemma NestedCases(u: string, depth: nat, br: Bracket)
    requires depth >= 1 && Nested(u, depth, br).Some?
    ensures u != ""
    ensures u[0] == br.Close() && depth == 1 ==> Nested(u, depth, br) == Some(1)
    ensures !(u[0] == br.Close() && depth == 1) ==>
      && NestedPiece(u).Some?
      && var k := NestedPiece(u).value;
         Nested(u, depth, br) == Plus(k, Nested(u[k..], DepthAfter(u[0], depth, br), br))
    ensures u[0] == br.Close() || u[0] == br.Open() ==> NestedPiece(u) == Some(1)
  {}

  /** One unit of the text as it was written. */
  lemma {:induction false} UnitOf(u: string, k: nat, br: Bracket, rest: Nest, r: string) returns (n: Nest)
    requires u != "" && NestedPiece(u) == Some(k) && u[0] != br.Open() && u[0] != br.Close()
    requires OkNest(rest, br) && WriteNest(rest, br, r) == u[k..]
    ensures OkNest(n, br) && WriteNest(n, br, r) == u
    decreases |u|, 3
  {
    hide Double, Expansion, WriteBody, WriteBack, OkBody, OkBack;
    if u[0] == '\\' {
      n := NestSlash(u[1], rest);
      assert u == "\\" + [u[1]] + u[2..];
    } else if u[0] == '\'' {
      var v := u[1..][..k - 2];
      n := NestSingle(v, rest);
      assert u == "'" + v + "'" + u[k..];
    } else if u[0] == '"' {
      var b := BodyOf(u[1..]);
      n := NestDouble(b, rest);
      assert u[1..][k - 1..] == u[k..];
      assert u == "\"" + u[1..];
    } else if u[0] == '`' {
      var e := ExpnOf(u);
      n := NestBack(e.back, rest);
    } else {
      n := NestChar(u[0], rest);
      assert u == [u[0]] + u[1..];
    }
  }

  lemma {:induction false} BodyOf(u: string) returns (b: Body)
    requires Double(u).Some?
    ensures OkBody(b) && WriteBody(b, "\"" + u[Double(u).value.n..]) == u
    decreases |u|, 2
  {
    hide Double, DoublePiece;
    DoubleCases(u);
    var n := Double(u).value.n;
    if u[0] == '"' {
      b := BodyEnd;
      assert "\"" + u[1..] == u;
    } else {
      var p := DoublePiece(u).value;
      var k := if IsKept(u) then 2 else p.n;
      var rest := BodyOf(u[k..]);
      assert u[k..][n - k..] == u[n..];
      b := PieceOf(u, k, rest, "\"" + u[n..]);
    }
  }

  /** A backslash in front of a byte it does not escape. */
  predicate IsKept(u: string) {
    |u| > 1 && u[0] == '\\' && u[1] !in "\"\\$`\n"
  }

  lemma DoubleCases(u: string)
    requires Double(u).Some?
    ensures u != ""
    ensures u[0] == '"' ==> Double(u).value.n == 1
    ensures u[0] != '"' ==> DoublePiece(u).Some?
    ensures u[0] != '"' ==>
      var k := if IsKept(u) then 2 else DoublePiece(u).value.n;
      && k <= |u| && Double(u[k..]).Some? && Double(u).value.n == k + Double(u[k..]).value.n
    ensures u[0] != '"' && !IsKept(u) ==> DoublePieceIs(u)
  {
    hide Expansion;
    if u[0] == '\\' {
      assert u[1..] != "";
      if IsKept(u) {
        assert DoublePiece(u[1..]) == Some(Scan(1, [u[1]], true));
        assert u[1..][1..] == u[2..];
      }
    }
  }

  predicate DoublePieceIs(u: string)
    requires u != "" && u[0] != '"'
  {
    && DoublePiece(u).Some?
    && var n := DoublePiece(u).value.n;
    if u[0] == '\\' then |u| > 1 && n == 2 && u[1] in "\"\\$`\n"
    else if u[0] == '$' || u[0] == '`' then Expansion(u) == Some(n)
    else n == 1
  }

  lemma {:induction false} PieceOf(u: string, k: nat, rest: Body, r: string) returns (b: Body)
    requires u != "" && u[0] != '"' && if IsKept(u) then k == 2 else DoublePieceIs(u) && k == DoublePiece(u).value.n
    requires OkBody(rest) && WriteBody(rest, r) == u[k..]
    ensures OkBody(b) && WriteBody(b, r) == u
    decreases |u|, 1
  {
    hide Expansion, DoublePiece;
    if IsKept(u) {
      b := Kept(u[1], rest);
      assert u == "\\" + [u[1]] + u[2..];
    } else if u[0] == '\\' {
      b := if u[1] == '\n' then Joined(rest) else Escaped(u[1], rest);
      assert u == "\\" + [u[1]] + u[2..];
    } else if u[0] == '$' || u[0] == '`' {
      var e := ExpnOf(u);
      BodyInFront(rest, "", r);
      b := Expands(e, rest);
    } else {
      b := Copied(u[0], rest);
      assert u == [u[0]] + u[1..];
    }
  }

  /** Whatever is read as a word was written as one. */
  lemma {:induction false} TextOf(u: string) returns (t: Text)
    requires ReadWord(u).Some?
    ensures OkText(t, u[ReadWord(u).value.n..]) && WriteText(t, u[ReadWord(u).value.n..]) == u
    decreases |u|
  {
    hide WordPiece;
    var n := ReadWord(u).value.n;
    if u == "" || IsMeta(u[0]) {
      t := TextEnd;
    } else {
      var k := WordPiece(u).value.n;
      var rest := TextOf(u[k..]);
      assert u[k..][n - k..] == u[n..];
      t := TurnOf(u, rest, u[n..]);
    }
  }

  lemma TurnOf(u: string, rest: Text, r: string) returns (t: Text)
    requires u != "" && !IsMeta(u[0]) && WordPiece(u).Some?
    requires OkText(rest, r) && WriteText(rest, r) == u[WordPiece(u).value.n..]
    ensures OkText(t, r) && WriteText(t, r) == u
  {
    hide Double, Expansion, WriteBody, WriteExpn;
    if u[0] == '\'' || u[0] == '"' {
      t := QuotesOf(u, rest, r);
    } else if u[0] == '\\' {
      t := if u[1] == '\n' then Folded(rest) else Slashed(u[1], rest);
      assert u == "\\" + [u[1]] + u[2..];
    } else if u[0] == '$' || u[0] == '`' {
      var e := ExpnOf(u);
      t := Expanded(e, rest);
    } else {
      t := Bare(u[0], rest);
      assert u == [u[0]] + u[1..];
    }
  }

  lemma QuotesOf(u: string, rest: Text, r: string) returns (t: Text)
    requires u != "" && (u[0] == '\'' || u[0] == '"') && WordPiece(u).Some?
    requires OkText(rest, r) && WriteText(rest, r) == u[WordPiece(u).value.n..]
    ensures OkText(t, r) && WriteText(t, r) == u
  {
    hide Double, Expansion, WriteBody, OkBody;
    var k := WordPiece(u).value.n;
    if u[0] == '\'' {
      var v := u[1..][..k - 2];
      t := Single(v, rest);
      assert u == "'" + v + "'" + u[k..];
    } else {
      var b := BodyOf(u[1..]);
      t := Quoted(b, rest);
      assert u[1..][k - 1..] == u[k..];
      assert u == "\"" + u[1..];
    }
  }
}
