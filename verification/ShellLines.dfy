/**
Whole lines, given the other way round: the blanks, comments, operators, redirections and
words there are to write. The lexer gets from every written line exactly the tokens of its
items, and it reads no other line (`LinesLex`, `LexedLine`). So it is known what each
way of quoting is worth (`DoubleQuotes`, `Backslashes`).
*/
module ShellLines {
  import opened Wrappers
  import opened ShellLexer
  import opened ShellGrammar

  datatype Item =
    | Space(c: char)
    | Continued
    | Remark(remark: string)
    | Control(op: string)
    | Redirected(digits: string, op: string, blanks: string, target: Text)
    | AWord(text: Text)

  function WriteItem(i: Item, r: string): string {
    match i
    case Space(c) => [c] + r
    case Continued => "\\\n" + r
    case Remark(t) => "#" + t + r
    case Control(op) => op + r
    case Redirected(digits, op, blanks, target) => digits + op + blanks + WriteText(target, r)
    case AWord(t) => WriteText(t, r)
  }

  const CONTROLS := {"\n", ";", "&", "|", "(", ")", "&&", "||", ";;", "|&"}

  const REDIRECTIONS := {"<", "<>", "<&", ">", ">>", ">|", ">&", "&>", "&>>"}

  predicate AllDigits(s: string) {
    forall i :: 0 <= i < |s| ==> '0' <= s[i] <= '9'
  }

  /** A word of digits alone, without quotes. */
  predicate IsNumber(t: Text) {
    t == TextEnd || (t.Bare? && '0' <= t.c <= '9' && IsNumber(t.rest))
  }

  /** A word where a word may start: it is not empty, no comment and no continuation. */
  predicate StartsWord(t: Text) {
    t != TextEnd && !t.Folded? && !(t.Bare? && t.c == '#')
  }

  /** i may stand in front of r and is read no farther. */
  predicate OkItem(i: Item, r: string) {
    match i
    case Space(c) => c == ' ' || c == '\t'
    case Continued => true
    case Remark(t) => '\n' !in t && (r == "" || r[0] == '\n')
    case Control(op) => op in CONTROLS && (r != "" && |op| == 1 ==> op + [r[0]] !in CONTROLS && op + [r[0]] != "&>")
    case Redirected(digits, op, blanks, target) =>
      && AllDigits(digits) && op in REDIRECTIONS && (digits != "" ==> op[0] != '&')
      && (forall i :: 0 <= i < |blanks| ==> blanks[i] in " \t")
      && OkText(target, r) && StartsWord(target)
    case AWord(t) => OkText(t, r) && StartsWord(t) && (IsNumber(t) && r != "" ==> r[0] != '<' && r[0] != '>')
  }

  function WriteLine(items: seq<Item>): string {
    if items == [] then "" else WriteItem(items[0], WriteLine(items[1..]))
  }

  predicate OkLine(items: seq<Item>) {
    items == [] || (OkItem(items[0], WriteLine(items[1..])) && OkLine(items[1..]))
  }

  // ── what it is worth ─────────────────────────────────────────────────────

  predicate IsName(s: string) {
    && s != ""
    && !('0' <= s[0] <= '9')
    && forall i :: 0 <= i < |s| ==> 'a' <= s[i] <= 'z' || 'A' <= s[i] <= 'Z' || '0' <= s[i] <= '9' || s[i] == '_'
  }

  /** The text as written begins with a name and an equals sign. */
  ghost predicate Assigns(text: string) {
    exists k :: 0 <= k < |text| && text[k] == '=' && IsName(text[..k])
  }

  /** The token of an item that takes n bytes from off on. */
  ghost function TokenOf(i: Item, off: nat, n: nat): Option<Tok> {
    match i
    case Control(_) => Some(Tok(Op, off, off + n, "", false, false))
    case Redirected(_, _, _, _) => Some(Tok(Redir, off, off + n, "", false, false))
    case AWord(t) => Some(Tok(Word, off, off + n, TextValue(t), TextLiteral(t), Assigns(WriteText(t, ""))))
    case _ => None
  }

  ghost function Tokens(items: seq<Item>, off: nat): seq<Tok> {
    if items == [] then []
    else
      var r := WriteLine(items[1..]);
      var n := if |WriteItem(items[0], r)| >= |r| then |WriteItem(items[0], r)| - |r| else 0;
      var rest := Tokens(items[1..], off + n);
      match TokenOf(items[0], off, n)
      case None => rest
      case Some(t) => [t] + rest
  }

  // ── one item ─────────────────────────────────────────────────────────────

  /** In front of r, the item is one turn of the lexer, up to r. */
  ghost predicate ItemIsRead(i: Item, r: string) {
    var u := WriteItem(i, r);
    |u| > |r| && u[|u| - |r|..] == r && NextStep(u) == StepOf(i, |u| - |r|)
  }

  /** The turn that reads the item. */
  function StepOf(i: Item, n: nat): Step {
    match i
    case Control(_) => Token(Op, n, "", false)
    case Redirected(_, _, _, _) => Token(Redir, n, "", false)
    case AWord(t) => Token(Word, n, TextValue(t), TextLiteral(t))
    case _ => Skip(n)
  }

  lemma TailOf(a: string, w: string, r: string)
    requires |w| >= |r| && w[|w| - |r|..] == r
    ensures (a + w)[|a| + |w| - |r|..] == r && (a + w)[|a|..] == w
  {}

  lemma {:induction false} CommentReads(t: string, r: string)
    requires '\n' !in t && (r == "" || r[0] == '\n')
    ensures Comment(t + r) == |t|
  {
    if t == "" {
      assert t + r == r;
    } else {
      assert t[0] in t;
      assert (t + r)[1..] == t[1..] + r;
      CommentReads(t[1..], r);
    }
  }

  lemma {:induction false} BlanksRead(b: string, r: string)
    requires forall i :: 0 <= i < |b| ==> b[i] in " \t"
    requires r != "" ==> !IsBlank(r[0])
    ensures Blanks(b + r) == |b|
  {
    if b == "" {
      assert b + r == r;
    } else {
      assert (b + r)[1..] == b[1..] + r;
      BlanksRead(b[1..], r);
    }
  }

  lemma {:induction false} DigitsRead(d: string, r: string)
    requires AllDigits(d) && (r != "" ==> !IsDigit(r[0]))
    ensures Digits(d + r) == |d|
  {
    if d == "" {
      assert d + r == r;
    } else {
      assert (d + r)[1..] == d[1..] + r;
      DigitsRead(d[1..], r);
    }
  }

  /** The digits a word starts with are its own, and they are all of it only in a number. */
  lemma {:induction false} DigitsOfText(t: Text, r: string)
    requires OkText(t, r)
    ensures var u := WriteText(t, r);
      var k := Digits(u);
      k < |u| && (u[k] == '<' || u[k] == '>') ==> IsNumber(t) && r != "" && u[k] == r[0]
    decreases t
  {
    hide WriteExpn, WriteBody, OkExpn, OkBody;
    var u := WriteText(t, r);
    if t.Bare? && '0' <= t.c <= '9' {
      DigitsOfText(t.rest, r);
      assert u[1..] == WriteText(t.rest, r);
    } else if t != TextEnd {
      TextStart(t, r);
    }
  }

  /** The first byte of a word. */
  lemma TextStart(t: Text, r: string)
    requires OkText(t, r) && t != TextEnd
    ensures var u := WriteText(t, r);
      && u != "" && !IsMeta(u[0])
      && (u[0] == '#' ==> t.Bare? && t.c == '#')
      && (IsContinuation(u) ==> t.Folded?)
      && (IsDigit(u[0]) ==> t.Bare? && t.c == u[0])
  {
    hide WriteBody, WriteNest, WriteBack, OkBody, OkNest, OkBack;
  }

  lemma ItemReads(i: Item, r: string)
    requires OkItem(i, r)
    ensures ItemIsRead(i, r)
  {
    hide OkItem, ItemIsRead;
    match i
    case Space(c) => SpaceReads(c, r);
    case Continued => ContinuedReads(r);
    case Remark(t) => RemarkReads(t, r);
    case Control(op) => ControlReads(op, r);
    case Redirected(digits, op, blanks, target) => RedirectedReads(digits, op, blanks, target, r);
    case AWord(t) => WordReads(t, r);
  }

  lemma RemarkReads(t: string, r: string)
    requires OkItem(Remark(t), r)
    ensures ItemIsRead(Remark(t), r)
  {
    hide ReadWord, ReadRedir, Comment;
    var u := "#" + t + r;
    assert '\n' !in "#" + t;
    CommentReads("#" + t, r);
    assert u[|t| + 1..] == r;
  }

  lemma SpaceReads(c: char, r: string)
    requires OkItem(Space(c), r)
    ensures ItemIsRead(Space(c), r)
  {
    hide ReadWord, ReadRedir, Comment;
    assert ([c] + r)[1..] == r;
  }

  lemma ContinuedReads(r: string)
    ensures ItemIsRead(Continued, r)
  {
    hide ReadWord, ReadRedir, Comment;
    assert ("\\\n" + r)[2..] == r;
  }

  lemma ControlReads(op: string, r: string)
    requires OkItem(Control(op), r)
    ensures ItemIsRead(Control(op), r)
  {
    hide ReadWord, ReadRedir, Comment, IoNumber;
    var u := op + r;
    assert u[|op|..] == r;
    if |op| == 1 && r != "" {
      assert op + [r[0]] == [u[0], u[1]];
    }
  }

  lemma WordReads(t: Text, r: string)
    requires OkItem(AWord(t), r)
    ensures ItemIsRead(AWord(t), r)
  {
    hide ReadWord, ReadRedir, WriteText, OkText, TextIsRead, Digits, TextValue, TextLiteral;
    TextStart(t, r);
    DigitsOfText(t, r);
    TextReads(t, r);
    TextIsReadMeans(t, r);
  }

  lemma TextIsReadMeans(t: Text, r: string)
    requires TextIsRead(t, r) && t != TextEnd && OkText(t, r)
    ensures var u := WriteText(t, r);
      && |u| > |r| && u[|u| - |r|..] == r && ReadWord(u) == Some(Scan(|u| - |r|, TextValue(t), TextLiteral(t)))
  {
    hide WriteText, OkText;
    TextStart(t, r);
  }

  lemma RedirectedReads(digits: string, op: string, blanks: string, target: Text, r: string)
    requires OkItem(Redirected(digits, op, blanks, target), r)
    ensures ItemIsRead(Redirected(digits, op, blanks, target), r)
  {
    hide ReadWord, ReadRedir, WriteText, OkText, NextStep, StartsRedir, StartsWord, ItemIsRead;
    var w := op + blanks + WriteText(target, r);
    OperatorReads(op, blanks, target, r);
    NumberReads(digits, w, r);
    NumberedReads(digits, op, blanks, target, r);
  }

  lemma NumberedReads(digits: string, op: string, blanks: string, target: Text, r: string)
    requires var u := digits + (op + blanks + WriteText(target, r));
      |u| > |r| && u[|u| - |r|..] == r && NextStep(u) == Token(Redir, |u| - |r|, "", false)
    ensures ItemIsRead(Redirected(digits, op, blanks, target), r)
  {
    hide WriteText, NextStep;
    Regrouped(digits, op, blanks, WriteText(target, r));
  }

  lemma Regrouped(a: string, b: string, c: string, d: string)
    ensures a + b + c + d == a + (b + c + d)
  {}

  lemma NumberReads(digits: string, w: string, r: string)
    requires AllDigits(digits) && |w| > |r| && w[|w| - |r|..] == r && !IsDigit(w[0])
    requires StartsRedir(w) && ReadRedir(w) == Some(|w| - |r|) && (digits != "" ==> w[0] != '&')
    ensures var u := digits + w;
      |u| > |r| && u[|u| - |r|..] == r && NextStep(u) == Token(Redir, |u| - |r|, "", false)
  {
    hide ReadWord, ReadRedir, Digits, NextStep, StartsRedir;
    var u := digits + w;
    DigitsRead(digits, w);
    TailOf(digits, w, r);
    assert digits != "" ==> u[0] == digits[0];
    RedirStep(u, |digits|);
  }

  lemma RedirStep(u: string, k: nat)
    requires k < |u| && StartsRedir(u[k..]) && ReadRedir(u[k..]).Some?
    requires k > 0 ==> IsDigit(u[0]) && u[k] != '&' && Digits(u) == k
    ensures NextStep(u) == Token(Redir, k + ReadRedir(u[k..]).value, "", false)
  {
    hide ReadWord, ReadRedir, Digits, Comment;
    assert k == 0 ==> u[k..] == u;
  }

  /** A redirection without its number. */
  lemma OperatorReads(op: string, blanks: string, target: Text, r: string)
    requires op in REDIRECTIONS && OkText(target, r) && StartsWord(target)
    requires forall i :: 0 <= i < |blanks| ==> blanks[i] in " \t"
    ensures var w := op + blanks + WriteText(target, r);
      && |w| > |r| && w[|w| - |r|..] == r && w[0] == op[0] && !IsDigit(w[0])
      && StartsRedir(w) && ReadRedir(w) == Some(|w| - |r|)
  {
    hide ReadTarget, WriteText, OkText, RedirOp, StartsRedir, StartsWord;
    var w := op + blanks + WriteText(target, r);
    var x := blanks + WriteText(target, r);
    TargetReads(blanks, target, r);
    assert w == op + x;
    TailOf(op, x, r);
    OperatorIs(op, x);
  }

  lemma OperatorIs(op: string, x: string)
    requires op in REDIRECTIONS && x != "" && (IsBlank(x[0]) || !IsMeta(x[0]))
    ensures StartsRedir(op + x) && RedirOp(op + x) == Some(|op|)
  {}

  lemma TargetReads(blanks: string, target: Text, r: string)
    requires forall i :: 0 <= i < |blanks| ==> blanks[i] in " \t"
    requires OkText(target, r) && StartsWord(target)
    ensures var x := blanks + WriteText(target, r);
      && |x| > |r| && x[|x| - |r|..] == r && (IsBlank(x[0]) || !IsMeta(x[0]))
      && ReadTarget(x) == Some(|x| - |r|)
  {
    hide ReadWord, WriteText, OkText, TextIsRead, Blanks, TextValue, TextLiteral;
    var w := WriteText(target, r);
    var x := blanks + w;
    TextStart(target, r);
    TextReads(target, r);
    TextIsReadMeans(target, r);
    BlanksRead(blanks, w);
    TailOf(blanks, w, r);
  }

  // ── the line ─────────────────────────────────────────────────────────────

  lemma {:induction false} FirstIndex(s: string, c: char, k: nat)
    requires k < |s| && s[k] == c && c !in s[..k]
    ensures IndexByte(s, c) == k
  {
    if k > 0 {
      assert s[..k][0] == s[0];
      assert s[1..][..k - 1] == s[..k][1..];
      FirstIndex(s[1..], c, k - 1);
    }
  }

  lemma AssignNameMeans(s: string)
    ensures AssignName(s) <==> Assigns(s)
  {
    if AssignName(s) {
      assert IsName(s[..IndexByte(s, '=')]);
    }
    if Assigns(s) {
      var k :| 0 <= k < |s| && s[k] == '=' && IsName(s[..k]);
      assert forall i :: 0 <= i < k ==> s[i] == s[..k][i];
      FirstIndex(s, '=', k);
      assert forall i :: 0 <= i < k ==> IsNameChar(s[i], i == 0);
    }
  }

  lemma {:induction false} TextInFront(t: Text, r: string)
    ensures WriteText(t, r) == WriteText(t, "") + r
    decreases t
  {
    hide WriteBody, WriteExpn;
    if t != TextEnd {
      TextInFront(t.rest, r);
      var w := WriteText(t.rest, "");
      match t
      case Single(v, _) => assert "'" + v + "'" + (w + r) == "'" + v + "'" + w + r;
      case Quoted(b, _) =>
        BodyInFront(b, "\"" + w, r);
        assert "\"" + w + r == "\"" + (w + r);
      case Expanded(e, _) => ExpnInFront(e, w, r);
      case _ =>
    }
  }

  /** The token a turn makes is the item's. */
  lemma TokenIs(i: Item, r: string, off: nat)
    requires ItemIsRead(i, r)
    ensures var u := WriteItem(i, r);
      && NextStep(u) == StepOf(i, |u| - |r|)
      && (if StepOf(i, |u| - |r|).Token? then TokenOf(i, off, |u| - |r|) == Some(MakeTok(u, off, NextStep(u)))
          else TokenOf(i, off, |u| - |r|) == None)
  {
    hide NextStep, WriteText, AssignName, Assigns, TextValue, TextLiteral;
    var u := WriteItem(i, r);
    if i.AWord? {
      TextInFront(i.text, r);
      assert u[..|u| - |r|] == WriteText(i.text, "");
      AssignNameMeans(WriteText(i.text, ""));
    }
  }

  /** Every written line is read, and as the tokens of its items. */
  lemma {:induction false} LinesLex(items: seq<Item>, off: nat)
    requires OkLine(items)
    ensures Lex(WriteLine(items), off) == Some(Tokens(items, off))
    decreases |items|
  {
    hide NextStep, WriteItem, OkItem, MakeTok, TokenOf, StepOf;
    if items != [] {
      var i, r := items[0], WriteLine(items[1..]);
      ItemReads(i, r);
      TokenIs(i, r, off);
      var u := WriteItem(i, r);
      var n := |u| - |r|;
      LinesLex(items[1..], off + n);
      assert u == WriteLine(items);
      assert u[n..] == r;
      StepKinds(i, n);
      LexTurn(u, n, off);
    }
  }

  lemma StepKinds(i: Item, n: nat)
    ensures !StepOf(i, n).Fail? && StepOf(i, n).n == n
  {}

  lemma LexTurn(u: string, n: nat, off: nat)
    requires u != "" && !NextStep(u).Fail? && NextStep(u).n == n
    ensures Lex(u, off) ==
      if NextStep(u).Token? then ConsTok(MakeTok(u, off, NextStep(u)), Lex(u[n..], off + n)) else Lex(u[n..], off + n)
  {
    hide NextStep, MakeTok;
  }

  /** Whatever the lexer reads was written so. */
  lemma {:induction false} LexedLine(u: string, off: nat) returns (items: seq<Item>)
    requires Lex(u, off).Some?
    ensures OkLine(items) && WriteLine(items) == u
    decreases |u|
  {
    hide NextStep, MakeTok, WriteItem, OkItem;
    if u == "" {
      items := [];
    } else {
      var n := NextStep(u).n;
      LexTurn(u, n, off);
      var rest := LexedLine(u[n..], off + n);
      var i := ItemOf(u);
      items := [i] + rest;
      assert items[1..] == rest;
    }
  }

  lemma ItemOf(u: string) returns (i: Item)
    requires u != "" && !NextStep(u).Fail?
    ensures OkItem(i, u[NextStep(u).n..]) && WriteItem(i, u[NextStep(u).n..]) == u
  {
    hide ReadWord, ReadRedir, Comment, IoNumber;
    var st := NextStep(u);
    var r := u[st.n..];
    if IsBlank(u[0]) {
      i := Space(u[0]);
      assert u == [u[0]] + u[1..];
    } else if IsContinuation(u) {
      i := Continued;
      assert u == "\\\n" + u[2..];
    } else if u[0] == '#' {
      i := RemarkOf(u);
    } else if StartsRedir(u) {
      assert u[0..] == u;
      i := RedirectedOf(u, 0);
    } else if IsDigit(u[0]) && IoNumber(u) > 0 {
      NumberOf(u);
      i := RedirectedOf(u, IoNumber(u));
    } else if IsOpStart(u[0]) {
      i := Control(u[..st.n]);
      assert u == u[..st.n] + r;
      ControlOf(u);
    } else {
      i := WordOf(u);
    }
  }

  lemma NumberOf(u: string)
    requires IoNumber(u) > 0
    ensures var k := IoNumber(u); k == Digits(u) && k < |u| && StartsRedir(u[k..]) && u[k] != '&'
  {}

  lemma ControlOf(u: string)
    requires u != "" && IsOpStart(u[0]) && !StartsRedir(u)
    ensures var n := if IsTwoByteOp(u) then 2 else 1;
      OkItem(Control(u[..n]), u[n..])
  {
    var n := if IsTwoByteOp(u) then 2 else 1;
    if n == 2 {
      assert u[..2] == [u[0], u[1]];
    } else {
      assert u[..1] == [u[0]];
      if |u| > 1 {
        assert [u[0]] + [u[1]] == [u[0], u[1]];
      }
    }
  }

  lemma RemarkOf(u: string) returns (i: Item)
    requires u != "" && u[0] == '#'
    ensures OkItem(i, u[Comment(u)..]) && WriteItem(i, u[Comment(u)..]) == u
  {
    var k := Comment(u);
    assert u[..k][0] == '#';
    i := Remark(u[1..k]);
    assert forall c :: c in u[1..k] ==> c in u[..k];
    assert u == "#" + u[1..k] + u[k..];
  }

  lemma WordOf(u: string) returns (i: Item)
    requires u != "" && !IsMeta(u[0]) && u[0] != '#' && !IsContinuation(u) && ReadWord(u).Some?
    requires !(IsDigit(u[0]) && IoNumber(u) > 0)
    ensures OkItem(i, u[ReadWord(u).value.n..]) && WriteItem(i, u[ReadWord(u).value.n..]) == u
  {
    hide ReadWord, WriteText, OkText;
    var t := TextOf(u);
    var r := u[ReadWord(u).value.n..];
    i := AWord(t);
    assert StartsWord(t) by {
      TextBegins(t, r);
    }
    if IsNumber(t) && r != "" && (r[0] == '<' || r[0] == '>') {
      NumberIs(t, r);
    }
  }

  lemma TextBegins(t: Text, r: string)
    requires OkText(t, r)
    ensures var u := WriteText(t, r);
      u != "" && !IsMeta(u[0]) && u[0] != '#' && !IsContinuation(u) ==> StartsWord(t)
  {}

  lemma {:induction false} NumberIs(t: Text, r: string)
    requires IsNumber(t) && r != "" && (r[0] == '<' || r[0] == '>')
    ensures var u := WriteText(t, r);
      var k := Digits(u);
      k < |u| && u[k] == r[0] && (t != TextEnd ==> k > 0)
    decreases t
  {
    if t != TextEnd {
      NumberIs(t.rest, r);
      assert WriteText(t, r)[1..] == WriteText(t.rest, r);
    }
  }

  lemma RedirectedOf(u: string, k: nat) returns (i: Item)
    requires k < |u| && StartsRedir(u[k..]) && ReadRedir(u[k..]).Some?
    requires k > 0 ==> Digits(u) == k && u[k] != '&'
    ensures var r := u[k + ReadRedir(u[k..]).value..];
      OkItem(i, r) && WriteItem(i, r) == u
  {
    hide ReadWord, WriteText, OkText, Digits, RedirOp, StartsRedir, ReadTarget, StartsWord, Blanks;
    var w := u[k..];
    var m := RedirOp(w).value;
    OperatorOf(w);
    var blanks, target := TargetOf(w[m..]);
    var r := w[m..][ReadTarget(w[m..]).value..];
    i := Redirected(u[..k], w[..m], blanks, target);
    Rejoined(u, k, m, blanks, WriteText(target, r));
    assert r == u[k + ReadRedir(w).value..];
    assert OkItem(i, r) by {
      NumberDigits(u, k);
    }
  }

  lemma NumberDigits(u: string, k: nat)
    requires k <= |u| && (k > 0 ==> Digits(u) == k)
    ensures AllDigits(u[..k])
  {}

  lemma TargetOf(x: string) returns (blanks: string, target: Text)
    requires ReadTarget(x).Some?
    ensures var r := x[ReadTarget(x).value..];
      && (forall i :: 0 <= i < |blanks| ==> blanks[i] in " \t")
      && OkText(target, r) && StartsWord(target) && blanks + WriteText(target, r) == x
  {
    hide ReadWord, WriteText, OkText, StartsWord;
    var b := Blanks(x);
    var y := x[b..];
    blanks := x[..b];
    target := TextOf(y);
    TextBegins(target, y[ReadWord(y).value.n..]);
    assert y[ReadWord(y).value.n..] == x[ReadTarget(x).value..];
    assert blanks + y == x;
  }

  lemma Rejoined(u: string, k: nat, m: nat, blanks: string, t: string)
    requires k + m <= |u| && blanks + t == u[k..][m..]
    ensures u[..k] + u[k..][..m] + blanks + t == u
  {
    Regrouped(u[..k], u[k..][..m], blanks, t);
    assert u[k..][..m] + u[k..][m..] == u[k..];
    assert u[k..][..m] + blanks + t == u[k..][..m] + (blanks + t);
    assert u[..k] + u[k..] == u;
  }

  lemma OperatorOf(w: string)
    requires StartsRedir(w) && RedirOp(w).Some?
    ensures w[..RedirOp(w).value] in REDIRECTIONS && w[..RedirOp(w).value][0] == w[0]
  {
    var m := RedirOp(w).value;
    assert w[..m] == if m == 1 then [w[0]] else if m == 2 then [w[0], w[1]] else [w[0], w[1], w[2]];
  }
}
