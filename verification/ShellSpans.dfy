/**
What lexShell's tokens leave out of a line: nothing but blanks, line
continuations and comments.
*/
module ShellSpans {
  import opened Wrappers
  import opened ShellLexer

  /** Text between tokens: blanks and line continuations, then at most one
      comment, which runs to its newline. */
  predicate Gap(g: string) {
    || g == ""
    || (IsBlank(g[0]) && Gap(g[1..]))
    || (IsContinuation(g) && Gap(g[2..]))
    || (g[0] == '#' && '\n' !in g)
  }

  /** ts are the tokens of u, which starts at offset off of the line: their spans
      are non-empty, in bounds and increasing, and all that is outside them is gap. */
  predicate Spanned(u: string, off: nat, ts: seq<Tok>)
    decreases |ts|
  {
    if ts == [] then Gap(u)
    else
      var t := ts[0];
      && off <= t.start < t.end <= off + |u|
      && Gap(u[..t.start - off])
      && Spanned(u[t.end - off..], t.end, ts[1..])
  }

  lemma FirstTokenAtNewline(u: string, off: nat)
    requires u != "" && u[0] == '\n' && Lex(u, off).Some?
    ensures Lex(u, off).value != [] && Lex(u, off).value[0].start == off
  {}

  lemma BlankGap(u: string, k: nat, n: nat)
    requires 1 <= k <= |u| - n
    requires (k == 1 && IsBlank(u[0])) || (k == 2 && IsContinuation(u))
    requires Gap(u[k..][..n])
    ensures Gap(u[..k + n])
  {
    assert u[..k + n][k..] == u[k..][..n];
  }

  /** Putting skipped text in front of spanned text keeps it spanned. */
  lemma SkipSpanned(u: string, off: nat, ts: seq<Tok>)
    requires u != "" && NextStep(u).Skip?
    requires Lex(u, off) == Some(ts)
    requires Spanned(u[NextStep(u).n..], off + NextStep(u).n, ts)
    ensures Spanned(u, off, ts)
  {
    hide ReadWord, ReadRedir, Lex, Spanned, Gap;
    if u[0] == '#' && !IsBlank(u[0]) && !IsContinuation(u) {
      SkipComment(u, off, ts);
    } else {
      SkipBlank(u, off, ts);
    }
  }

  lemma SkipComment(u: string, off: nat, ts: seq<Tok>)
    requires u != "" && NextStep(u).Skip? && u[0] == '#' && !IsBlank(u[0]) && !IsContinuation(u)
    requires Lex(u, off) == Some(ts)
    requires Spanned(u[NextStep(u).n..], off + NextStep(u).n, ts)
    ensures Spanned(u, off, ts)
  {
    hide ReadWord, ReadRedir;
    var n := NextStep(u).n;
    if n < |u| {
      FirstTokenAtNewline(u[n..], off + n);
      assert u[n..][ts[0].end - (off + n)..] == u[ts[0].end - off..];
    } else {
      assert u[..n] == u;
      assert ts == [];
    }
  }

  lemma SkipBlank(u: string, off: nat, ts: seq<Tok>)
    requires u != "" && NextStep(u).Skip? && (u[0] != '#' || IsBlank(u[0]) || IsContinuation(u))
    requires Spanned(u[NextStep(u).n..], off + NextStep(u).n, ts)
    ensures Spanned(u, off, ts)
  {
    hide ReadWord, ReadRedir, Lex;
    var n := NextStep(u).n;
    var v := u[n..];
    if ts == [] {
      assert v[..|v|] == v && u[..n + |v|] == u;
      BlankGap(u, n, |v|);
    } else {
      BlankGap(u, n, ts[0].start - (off + n));
      assert u[n..][ts[0].end - (off + n)..] == u[ts[0].end - off..];
    }
  }

  /** Every line that lexes is its tokens plus gaps. */
  lemma {:induction false} LexSpanned(u: string, off: nat)
    requires Lex(u, off).Some?
    ensures Spanned(u, off, Lex(u, off).value)
    decreases |u|
  {
    hide NextStep;
    if u != "" {
      var st := NextStep(u);
      LexSpanned(u[st.n..], off + st.n);
      if st.Skip? {
        SkipSpanned(u, off, Lex(u, off).value);
      } else {
        assert u[..0] == "";
        var ts := Lex(u, off).value;
        assert ts[1..] == Lex(u[st.n..], off + st.n).value;
      }
    }
  }

  /** The same as a statement about indices: spans are ordered and disjoint. */
  lemma {:induction false} SpannedOrdered(u: string, off: nat, ts: seq<Tok>, i: nat, j: nat)
    requires Spanned(u, off, ts) && i < j < |ts|
    ensures off <= ts[i].start < ts[i].end <= ts[j].start < ts[j].end <= off + |u|
    decreases |ts|
  {
    var t := ts[0];
    if i > 0 {
      SpannedOrdered(u[t.end - off..], t.end, ts[1..], i - 1, j - 1);
    } else if j > 1 {
      SpannedOrdered(u[t.end - off..], t.end, ts[1..], 0, j - 1);
    }
  }
}
