/**
A spliced `--settings=…` word does not move or hide THE claude word, nor add one.
*/
module ClaudeSplice {
  import opened ShellLexer
  import opened ShellLocality
  import opened ClaudeLaunch
  import opened SettingsSplice

  predicate NoOp(ts: seq<Tok>) {
    forall i :: 0 <= i < |ts| ==> ts[i].kind != Op
  }

  /** Tokens alike but for where they stand. */
  predicate SameToks(xs: seq<Tok>, ys: seq<Tok>) {
    |xs| == |ys| && forall i :: 0 <= i < |xs| ==> ys[i] == xs[i].(start := ys[i].start, end := ys[i].end)
  }

  // ── the command word does not depend on spans, nor on later words ────────

  lemma {:induction false} SkipAssignmentsSame(xs: seq<Tok>, ys: seq<Tok>)
    requires SameToks(xs, ys)
    ensures SkipAssignments(xs) == SkipAssignments(ys)
  {
    if xs != [] {
      SkipAssignmentsSame(xs[1..], ys[1..]);
    }
  }

  lemma {:induction false} PastPrefixesSame(xs: seq<Tok>, ys: seq<Tok>)
    requires SameToks(xs, ys)
    ensures PastPrefixes(xs) == PastPrefixes(ys)
    decreases |xs|
  {
    if xs != [] {
      SkipAssignmentsSame(xs[1..], ys[1..]);
      var k := 1 + SkipAssignments(xs[1..]);
      PastPrefixesSame(xs[1..], ys[1..]);
      PastPrefixesSame(xs[k..], ys[k..]);
    }
  }

  lemma CommandWordSame(xs: seq<Tok>, ys: seq<Tok>)
    requires SameToks(xs, ys)
    ensures CommandWord(xs) == CommandWord(ys)
  {
    SkipAssignmentsSame(xs, ys);
    var k := SkipAssignments(xs);
    PastPrefixesSame(xs[k..], ys[k..]);
  }

  lemma {:induction false} CommandWordConcat(ws: seq<Tok>, vs: seq<Tok>)
    requires CommandWord(ws) >= 0
    ensures CommandWord(ws + vs) == CommandWord(ws)
    decreases |vs|
  {
    hide CommandWord;
    if vs == [] {
      assert ws + vs == ws;
    } else {
      CommandWordAppend(ws, vs[0]);
      CommandWordConcat(ws + [vs[0]], vs[1..]);
      assert ws + [vs[0]] + vs[1..] == ws + vs;
    }
  }

  // ── the current command across a cut ─────────────────────────────────────

  lemma {:induction false} CurrentConcat(ys: seq<Tok>, xs: seq<Tok>)
    ensures Current(ys + xs) == if NoOp(xs) then Current(ys) + Current(xs) else Current(xs)
    decreases |xs|
  {
    if xs == [] {
      assert ys + xs == ys;
    } else {
      var t := xs[|xs| - 1];
      var front := xs[..|xs| - 1];
      assert (ys + xs)[..|ys + xs| - 1] == ys + front;
      assert (ys + xs)[|ys + xs| - 1] == t;
      CurrentConcat(ys, front);
      assert NoOp(xs) <==> NoOp(front) && t.kind != Op by {
        assert xs == front + [t];
      }
    }
  }

  lemma {:induction false} CurrentSame(xs: seq<Tok>, ys: seq<Tok>)
    requires SameToks(xs, ys)
    ensures SameToks(Current(xs), Current(ys))
    decreases |xs|
  {
    if xs != [] {
      CurrentSame(xs[..|xs| - 1], ys[..|ys| - 1]);
    }
  }

  /** Behind a claude word, no word of the same command is one. */
  lemma NoClaudeBehind(ys: seq<Tok>, xs: seq<Tok>)
    requires ys != [] && ClaudeAt(ys) && xs != [] && NoOp(xs)
    ensures !ClaudeAt(ys + xs)
  {
    hide CommandWord, Base;
    CurrentConcat(ys, xs);
    var t := xs[|xs| - 1];
    assert (ys + xs)[|ys + xs| - 1] == t;
    if t.kind == Word {
      CommandWordConcat(Current(ys), Current(xs));
      assert Current(xs) != [];
    }
  }

  /** In another command, only that command's words count. */
  lemma ClaudeBehindOp(ys: seq<Tok>, xs: seq<Tok>, zs: seq<Tok>, vs: seq<Tok>)
    requires xs != [] && SameToks(xs, vs) && !NoOp(xs)
    ensures ClaudeAt(ys + xs) == ClaudeAt(zs + vs)
  {
    hide CommandWord, Base;
    CurrentConcat(ys, xs);
    CurrentConcat(zs, vs);
    CurrentSame(xs, vs);
    CommandWordSame(Current(xs), Current(vs));
    assert !NoOp(vs) by {
      var i :| 0 <= i < |xs| && xs[i].kind == Op;
      assert vs[i].kind == Op;
    }
    assert (ys + xs)[|ys + xs| - 1] == xs[|xs| - 1];
    assert (zs + vs)[|zs + vs| - 1] == vs[|vs| - 1];
  }

  // ── the claude words as a set of positions ───────────────────────────────

  predicate IsClaude(toks: seq<Tok>, i: nat)
    requires i < |toks|
  {
    ClaudeAt(toks[..i + 1])
  }

  lemma {:induction false} ClaudeWordsAre(toks: seq<Tok>, i: nat)
    requires i < |toks|
    ensures IsClaude(toks, i) <==> i in ClaudeWords(toks)
    decreases |toks|
  {
    hide ClaudeAt;
    var n := |toks| - 1;
    if i < n {
      ClaudeWordsAre(toks[..n], i);
      assert toks[..n][..i + 1] == toks[..i + 1];
    } else {
      assert toks[..i + 1] == toks;
    }
  }

  /** If exactly position c of toks holds a claude word, that is the answer. */
  lemma {:induction false} OnlyClaude(toks: seq<Tok>, c: nat)
    requires forall i :: 0 <= i < |toks| ==> (IsClaude(toks, i) <==> i == c)
    ensures ClaudeWords(toks) == if c < |toks| then [c] else []
    decreases |toks|
  {
    hide ClaudeAt;
    if toks != [] {
      var n := |toks| - 1;
      var front := toks[..n];
      forall i | 0 <= i < |front|
        ensures IsClaude(front, i) <==> i == c
      {
        assert IsClaude(toks, i) <==> i == c;
        assert front[..i + 1] == toks[..i + 1];
      }
      OnlyClaude(front, c);
      assert IsClaude(toks, n) <==> n == c;
      assert toks[..n + 1] == toks;
    }
  }

  /** The text after the splice point of a command that starts before it. */
  lemma SplicedPrefix(toks: seq<Tok>, c: nat, a: nat, b: nat, t: Tok, d: int, i: nat)
    requires c < a <= b <= |toks| && t.kind == Word
    requires forall k :: b <= k < |toks| ==> toks[k].start + d >= 0 && toks[k].end + d >= 0
    requires NoOp(toks[c + 1..b])
    requires IsClaude(toks, c)
    requires forall k :: 0 <= k < |toks| ==> (IsClaude(toks, k) <==> k == c)
    requires i < |Spliced(toks, a, b, t, d)|
    ensures IsClaude(Spliced(toks, a, b, t, d), i) <==> i == c
  {
    hide ClaudeAt;
    var out := Spliced(toks, a, b, t, d);
    if i < a {
      assert IsClaude(toks, i) <==> i == c;
      assert out[..i + 1] == toks[..i + 1];
    } else {
      var head := toks[..c + 1];
      var mid := toks[c + 1..a] + [t];
      var xs := toks[b..b + (i - a)];
      var vs := ShiftToks(toks[b..], d)[..i - a];
      assert SameToks(xs, vs);
      assert out[..i + 1] == head + (mid + vs);
      if NoOp(xs) {
        assert NoOp(mid + vs) by {
          assert forall k :: 0 <= k < |vs| ==> vs[k].kind == xs[k].kind;
          assert forall k :: c + 1 <= k < a ==> toks[k] == toks[c + 1..b][k - (c + 1)];
        }
        NoClaudeBehind(head, mid + vs);
      } else {
        var j := b + (i - a) - 1;
        assert IsClaude(toks, j) <==> j == c;
        assert toks[..j + 1] == toks[..b] + xs;
        assert out[..i + 1] == (head + mid) + vs;
        ClaudeBehindOp(toks[..b], xs, head + mid, vs);
      }
    }
  }

  /** The claude word survives the splice, where it was, as the only one. */
  lemma ClaudeWordsSpliced(toks: seq<Tok>, c: nat, a: nat, b: nat, t: Tok, d: int)
    requires ClaudeWords(toks) == [c]
    requires c < a <= b <= |toks| && t.kind == Word
    requires forall k :: b <= k < |toks| ==> toks[k].start + d >= 0 && toks[k].end + d >= 0
    requires NoOp(toks[c + 1..b])
    ensures ClaudeWords(Spliced(toks, a, b, t, d)) == [c]
  {
    hide ClaudeAt, ClaudeWords;
    forall k | 0 <= k < |toks|
      ensures IsClaude(toks, k) <==> k == c
    {
      ClaudeWordsAre(toks, k);
    }
    var out := Spliced(toks, a, b, t, d);
    forall i | 0 <= i < |out|
      ensures IsClaude(out, i) <==> i == c
    {
      SplicedPrefix(toks, c, a, b, t, d, i);
    }
    OnlyClaude(out, c);
  }

  // ── the argument values ──────────────────────────────────────────────────

  /** What the words of ts are worth, in order. */
  function WordVals(ts: seq<Tok>): seq<string> {
    if ts == [] then []
    else (if ts[0].kind == Word then [Val(ts[0])] else []) + WordVals(ts[1..])
  }

  /** The argument values from token i on. */
  function ArgVals(toks: seq<Tok>, i: nat): seq<string> {
    Vals(toks, ArgWords(toks, i))
  }

  lemma ArgValsTurn(toks: seq<Tok>, i: nat)
    requires i < |toks| && toks[i].kind != Op
    ensures ArgVals(toks, i) == (if toks[i].kind == Word then [Val(toks[i])] else []) + ArgVals(toks, i + 1)
  {}

  lemma {:induction false} ArgValsSplit(toks: seq<Tok>, i: nat, j: nat)
    requires i <= j <= |toks| && NoOp(toks[i..j])
    ensures ArgVals(toks, i) == WordVals(toks[i..j]) + ArgVals(toks, j)
    decreases j - i
  {
    hide ArgVals;
    if i < j {
      assert toks[i..j][0] == toks[i];
      assert toks[i..j][1..] == toks[i + 1..j];
      ArgValsTurn(toks, i);
      ArgValsSplit(toks, i + 1, j);
    }
  }

  lemma {:induction false} ArgValsSame(xs: seq<Tok>, i: nat, ys: seq<Tok>, j: nat)
    requires i <= |xs| && j <= |ys| && SameToks(xs[i..], ys[j..])
    ensures ArgVals(xs, i) == ArgVals(ys, j)
    decreases |xs| - i
  {
    hide ArgVals;
    if i < |xs| {
      assert xs[i..][0] == xs[i] && ys[j..][0] == ys[j];
      assert xs[i..][1..] == xs[i + 1..] && ys[j..][1..] == ys[j + 1..];
      if xs[i].kind == Op {
        ArgValsEnd(xs, i);
        ArgValsEnd(ys, j);
      } else {
        ArgValsTurn(xs, i);
        ArgValsTurn(ys, j);
        ArgValsSame(xs, i + 1, ys, j + 1);
      }
    } else {
      ArgValsEnd(xs, i);
      ArgValsEnd(ys, j);
    }
  }

  lemma ArgValsEnd(toks: seq<Tok>, i: nat)
    requires i >= |toks| || toks[i].kind == Op
    ensures ArgVals(toks, i) == []
  {}

  /** The invocation's arguments are the old ones with the spliced-out words
      replaced by the flag. */
  lemma ArgValsSpliced(toks: seq<Tok>, c: nat, a: nat, b: nat, t: Tok, d: int)
    requires c < a <= b <= |toks| && t.kind == Word
    requires forall k :: b <= k < |toks| ==> toks[k].start + d >= 0 && toks[k].end + d >= 0
    requires NoOp(toks[c + 1..b])
    ensures ArgVals(toks, c + 1)
         == WordVals(toks[c + 1..a]) + WordVals(toks[a..b]) + ArgVals(toks, b)
    ensures ArgVals(Spliced(toks, a, b, t, d), c + 1)
         == WordVals(toks[c + 1..a]) + [Val(t)] + ArgVals(toks, b)
  {
    hide ArgVals, WordVals;
    var out := Spliced(toks, a, b, t, d);
    assert forall k :: c + 1 <= k < b ==> toks[k] == toks[c + 1..b][k - (c + 1)];
    ArgValsSplit(toks, c + 1, a);
    ArgValsSplit(toks, a, b);
    assert out[c + 1..a] == toks[c + 1..a];
    ArgValsSplit(out, c + 1, a);
    ArgValsTurn(out, a);
    assert SameToks(toks[b..], out[a + 1..]);
    ArgValsSame(toks, b, out, a + 1);
    assert WordVals(toks[c + 1..a]) + (WordVals(toks[a..b]) + ArgVals(toks, b))
        == WordVals(toks[c + 1..a]) + WordVals(toks[a..b]) + ArgVals(toks, b);
    assert WordVals(toks[c + 1..a]) + ([Val(t)] + ArgVals(toks, b))
        == WordVals(toks[c + 1..a]) + [Val(t)] + ArgVals(toks, b);
  }
}
