/**
The POSIX lexer of mux/claude_launch.go, as functions of the text still to be
read.

Every scanner of the source looks only at `s[i..]`, so each one is specified on
that suffix `u` and answers how many bytes it consumed. That makes the lexer
translation invariant by definition: the same bytes give the same tokens,
shifted. `ShellScan` holds the source's own loops over `s` and `i` and proves
them against these functions; `ShellLocality` proves what an edit elsewhere in
the line can and cannot change.

A Go string is a byte string: each `char` here stands for one byte.
*/
module ShellLexer {
  import opened Wrappers

  datatype TokKind = Word | Op | Redir

  /** One token with its byte span. `lit`, `literal` and `assign` are a word's. */
  datatype Tok = Tok(kind: TokKind, start: nat, end: nat, lit: string, literal: bool, assign: bool)

  /** What one word-like scan found: bytes consumed, value with quoting removed,
      and whether that value is literal. */
  datatype Scan = Scan(n: nat, lit: string, literal: bool)

  // ── character classes ────────────────────────────────────────────────────

  predicate IsBlank(c: char) {
    c == ' ' || c == '\t'
  }

  predicate IsDigit(c: char) {
    '0' <= c <= '9'
  }

  predicate IsOpStart(c: char) {
    c == '\n' || c == ';' || c == '&' || c == '|' || c == '(' || c == ')'
  }

  /** A byte that ends an unquoted word. */
  predicate IsMeta(c: char) {
    IsBlank(c) || IsOpStart(c) || c == '<' || c == '>'
  }

  /** The escapes a backslash has inside double quotes. */
  predicate IsDoubleEscape(c: char) {
    c == '"' || c == '\\' || c == '$' || c == '`'
  }

  predicate IsNameChar(c: char, first: bool) {
    c == '_' || 'A' <= c <= 'Z' || 'a' <= c <= 'z' || (!first && IsDigit(c))
  }

  // ── helpers ──────────────────────────────────────────────────────────────

  /** The first index of c in u, or -1. */
  function IndexByte(u: string, c: char): (k: int)
    ensures -1 <= k < |u|
    ensures k >= 0 ==> u[k] == c && c !in u[..k]
    ensures k < 0 ==> c !in u
  {
    if u == "" then -1
    else if u[0] == c then 0
    else
      var k := IndexByte(u[1..], c);
      if k < 0 then -1 else
        assert u[..k + 1] == [u[0]] + u[1..][..k];
        k + 1
  }

  function Plus(k: nat, rest: Option<nat>): Option<nat> {
    match rest
    case None => None
    case Some(m) => Some(k + m)
  }

  /** k more bytes in front of a scan, worth `text`. */
  function Cons(k: nat, text: string, literal: bool, rest: Option<Scan>): Option<Scan> {
    match rest
    case None => None
    case Some(r) => Some(Scan(k + r.n, text + r.lit, literal && r.literal))
  }

  /** Whether u begins with NAME= for a shell name. */
  predicate AssignName(u: string) {
    var eq := IndexByte(u, '=');
    eq > 0 && forall i :: 0 <= i < eq ==> IsNameChar(u[i], i == 0)
  }

  // ── words and expansions ─────────────────────────────────────────────────

  /** The two kinds of bracket an expansion nests. */
  datatype Bracket = Paren | Brace {
    function Open(): char {
      if this == Paren then '(' else '{'
    }

    function Close(): char {
      if this == Paren then ')' else '}'
    }
  }

  /** One turn of the loop over the body of "…", at a byte that is not its end. */
  function DoublePiece(u: string): (r: Option<Scan>)
    requires u != "" && u[0] != '"'
    ensures r.Some? ==> 1 <= r.value.n <= |u|
    decreases |u|, 1
  {
    if u[0] == '\\' then
      if |u| > 1 && IsDoubleEscape(u[1]) then Some(Scan(2, [u[1]], true))
      else if |u| > 1 && u[1] == '\n' then Some(Scan(2, "", true))
      else Some(Scan(1, "\\", true))
    else if u[0] == '$' || u[0] == '`' then
      match Expansion(u)
      case None => None
      case Some(n) => Some(Scan(n, u[..n], false))
    else Some(Scan(1, [u[0]], true))
  }

  /** The body of "…" from just after its opening quote, closing quote included. */
  function Double(u: string): (r: Option<Scan>)
    ensures r.Some? ==> 1 <= r.value.n <= |u|
    decreases |u|, 2
  {
    if u == "" then None
    else if u[0] == '"' then Some(Scan(1, "", true))
    else
      match DoublePiece(u)
      case None => None
      case Some(p) => Cons(p.n, p.lit, p.literal, Double(u[p.n..]))
  }

  /** The rest of `…` from just after its opening backtick. */
  function Backtick(u: string): (r: Option<nat>)
    ensures r.Some? ==> 1 <= r.value <= |u|
    decreases |u|
  {
    if u == "" then None
    else if u[0] == '\\' then
      if |u| < 2 then None else Plus(2, Backtick(u[2..]))
    else if u[0] == '`' then Some(1)
    else Plus(1, Backtick(u[1..]))
  }

  /** The expansion u starts with: $(…), ${…} and `…` whole, any other $ one byte. */
  function Expansion(u: string): (r: Option<nat>)
    requires u != "" && (u[0] == '$' || u[0] == '`')
    ensures r.Some? ==> 1 <= r.value <= |u|
    decreases |u|, 0
  {
    if u[0] == '`' then Plus(1, Backtick(u[1..]))
    else if |u| > 1 && u[1] == '(' then Plus(2, Nested(u[2..], 1, Paren))
    else if |u| > 1 && u[1] == '{' then Plus(2, Nested(u[2..], 1, Brace))
    else Some(1)
  }

  /** One turn of the loop inside $(…) or ${…}: a quoted or escaped unit, or one
      byte. */
  function NestedPiece(u: string): (r: Option<nat>)
    requires u != ""
    ensures r.Some? ==> 1 <= r.value <= |u|
    decreases |u|, 3
  {
    if u[0] == '\\' then
      if |u| < 2 then None else Some(2)
    else if u[0] == '\'' then
      var j := IndexByte(u[1..], '\'');
      if j < 0 then None else Some(j + 2)
    else if u[0] == '"' then
      match Double(u[1..])
      case None => None
      case Some(d) => Some(1 + d.n)
    else if u[0] == '`' then Expansion(u)
    else Some(1)
  }

  /** Up to and including the close that balances `depth` consumed opens. */
  function Nested(u: string, depth: nat, br: Bracket): (r: Option<nat>)
    requires depth >= 1
    ensures r.Some? ==> 1 <= r.value <= |u|
    decreases |u|, 4
  {
    if u == "" then None
    else if u[0] == br.Close() && depth == 1 then Some(1)
    else
      match NestedPiece(u)
      case None => None
      case Some(n) => Plus(n, Nested(u[n..], DepthAfter(u[0], depth, br), br))
  }

  /** The nesting depth past a unit that starts with c. */
  function DepthAfter(c: char, depth: nat, br: Bracket): (d: nat)
    requires depth >= 1 && (c == br.Close() ==> depth > 1)
    ensures d >= 1
  {
    if c == br.Open() then depth + 1 else if c == br.Close() then depth - 1 else depth
  }

  /** One turn of the word loop, at a byte that does not end the word. */
  function WordPiece(u: string): (r: Option<Scan>)
    requires u != "" && !IsMeta(u[0])
    ensures r.Some? ==> 1 <= r.value.n <= |u|
  {
    if u[0] == '\'' then
      var j := IndexByte(u[1..], '\'');
      if j < 0 then None else Some(Scan(j + 2, u[1..1 + j], true))
    else if u[0] == '"' then
      match Double(u[1..])
      case None => None
      case Some(d) => Some(Scan(1 + d.n, d.lit, d.literal))
    else if u[0] == '\\' then
      if |u| < 2 then None
      else Some(Scan(2, if u[1] == '\n' then "" else [u[1]], true))
    else if u[0] == '$' || u[0] == '`' then
      match Expansion(u)
      case None => None
      case Some(n) => Some(Scan(n, u[..n], false))
    else Some(Scan(1, [u[0]], true))
  }

  /** The word u starts with; it ends at a metacharacter or at the end of u. */
  function ReadWord(u: string): (r: Option<Scan>)
    ensures r.Some? ==> r.value.n <= |u|
    ensures r.Some? && u != "" && !IsMeta(u[0]) ==> r.value.n >= 1
    ensures r.Some? && r.value.n < |u| ==> IsMeta(u[r.value.n])
    decreases |u|
  {
    if u == "" || IsMeta(u[0]) then Some(Scan(0, "", true))
    else
      match WordPiece(u)
      case None => None
      case Some(p) => Cons(p.n, p.lit, p.literal, ReadWord(u[p.n..]))
  }

  // ── redirections and comments ────────────────────────────────────────────

  /** How many digits u starts with. */
  function Digits(u: string): (k: nat)
    ensures k <= |u|
    ensures forall i :: 0 <= i < k ==> IsDigit(u[i])
    ensures k < |u| ==> !IsDigit(u[k])
  {
    if u == "" || !IsDigit(u[0]) then 0 else 1 + Digits(u[1..])
  }

  /** The offset of the < or > that u's leading digits are the IO number of, or 0. */
  function IoNumber(u: string): (k: nat)
    ensures k < |u| || k == 0
    ensures k > 0 ==> u[k] == '<' || u[k] == '>'
  {
    var k := Digits(u);
    if k < |u| && (u[k] == '<' || u[k] == '>') then k else 0
  }

  function Blanks(u: string): (k: nat)
    ensures k <= |u|
    ensures forall i :: 0 <= i < k ==> IsBlank(u[i])
    ensures k < |u| ==> !IsBlank(u[k])
  {
    if u == "" || !IsBlank(u[0]) then 0 else 1 + Blanks(u[1..])
  }

  predicate StartsRedir(u: string) {
    u != "" && (u[0] == '<' || u[0] == '>' || (u[0] == '&' && |u| > 1 && u[1] == '>'))
  }

  /** The bytes of the redirection operator u starts with; None for a heredoc or
      a process substitution. */
  function RedirOp(u: string): (r: Option<nat>)
    requires StartsRedir(u)
    ensures r.Some? ==> 1 <= r.value <= |u|
  {
    var second := if |u| > 1 then u[1] else '\0';
    if u[0] == '&' then Some(if |u| > 2 && u[2] == '>' then 3 else 2)
    else if u[0] == '<' then
      if second == '<' || second == '(' then None
      else Some(if second == '>' || second == '&' then 2 else 1)
    else
      if second == '(' then None
      else Some(if second == '>' || second == '|' || second == '&' then 2 else 1)
  }

  /** Whether a redirection target may start at u. */
  predicate StartsTarget(u: string) {
    u != "" && !IsMeta(u[0]) && u[0] != '#' && !(u[0] == '\\' && |u| > 1 && u[1] == '\n')
  }

  /** A redirection's target word. */
  function TargetWord(u: string): (r: Option<nat>)
    ensures r.Some? ==> 1 <= r.value <= |u|
    ensures r.Some? && r.value < |u| ==> IsMeta(u[r.value])
  {
    if !StartsTarget(u) then None
    else
      match ReadWord(u)
      case None => None
      case Some(w) => Some(w.n)
  }

  /** Blanks and a redirection's target word. */
  function ReadTarget(u: string): (r: Option<nat>)
    ensures r.Some? ==> 1 <= r.value <= |u|
    ensures r.Some? && r.value < |u| ==> IsMeta(u[r.value])
  {
    Plus(Blanks(u), TargetWord(u[Blanks(u)..]))
  }

  /** A redirection operator with its target word. */
  function ReadRedir(u: string): (r: Option<nat>)
    requires StartsRedir(u)
    ensures r.Some? ==> 2 <= r.value <= |u|
    ensures r.Some? && r.value < |u| ==> IsMeta(u[r.value])
  {
    match RedirOp(u)
    case None => None
    case Some(k) => Plus(k, ReadTarget(u[k..]))
  }

  /** The bytes of a comment, its newline excluded. */
  function Comment(u: string): (k: nat)
    ensures k <= |u|
    ensures '\n' !in u[..k]
    ensures k < |u| ==> u[k] == '\n'
  {
    if u == "" || u[0] == '\n' then 0
    else
      var k := Comment(u[1..]);
      assert u[..k + 1] == [u[0]] + u[1..][..k];
      k + 1
  }

  // ── the lexer ────────────────────────────────────────────────────────────

  datatype Step = Fail | Skip(n: nat) | Token(kind: TokKind, n: nat, lit: string, literal: bool)

  predicate IsTwoByteOp(u: string) {
    |u| > 1 && ((u[0] == u[1] && (u[0] == '&' || u[0] == '|' || u[0] == ';')) || (u[0] == '|' && u[1] == '&'))
  }

  predicate IsContinuation(u: string) {
    |u| > 1 && u[0] == '\\' && u[1] == '\n'
  }

  /** One turn of the lexer's loop. */
  function NextStep(u: string): (r: Step)
    requires u != ""
    ensures !r.Fail? ==> 1 <= r.n <= |u|
    ensures r.Token? && r.kind != Op && r.n < |u| ==> IsMeta(u[r.n])
  {
    if IsBlank(u[0]) then Skip(1)
    else if IsContinuation(u) then Skip(2)
    else if u[0] == '#' then Skip(Comment(u))
    else if StartsRedir(u) then
      match ReadRedir(u)
      case None => Fail
      case Some(n) => Token(Redir, n, "", false)
    else if IsDigit(u[0]) && IoNumber(u) > 0 then
      var k := IoNumber(u);
      match ReadRedir(u[k..])
      case None => Fail
      case Some(n) => Token(Redir, k + n, "", false)
    else if IsOpStart(u[0]) then
      Token(Op, if IsTwoByteOp(u) then 2 else 1, "", false)
    else
      match ReadWord(u)
      case None => Fail
      case Some(w) => Token(Word, w.n, w.lit, w.literal)
  }

  /** The token a step read, when the step started at offset off of the line. */
  function MakeTok(u: string, off: nat, st: Step): Tok
    requires st.Token? && st.n <= |u|
  {
    Tok(st.kind, off, off + st.n, st.lit, st.literal, st.kind == Word && AssignName(u[..st.n]))
  }

  function ConsTok(t: Tok, rest: Option<seq<Tok>>): Option<seq<Tok>> {
    match rest
    case None => None
    case Some(ts) => Some([t] + ts)
  }

  /** The tokens of u, whose first byte is at offset off of the line; None when
      any part of it cannot be read with certainty. */
  function Lex(u: string, off: nat): Option<seq<Tok>>
    decreases |u|
  {
    if u == "" then Some([])
    else
      var st := NextStep(u);
      match st
      case Fail => None
      case Skip(n) => Lex(u[n..], off + n)
      case Token(_, n, _, _) => ConsTok(MakeTok(u, off, st), Lex(u[n..], off + n))
  }
}
