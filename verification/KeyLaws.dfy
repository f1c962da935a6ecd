/**
The parts of the key of `InputKey`, said of the characters (mux/claude_screen.go:175-345).
*/
module KeyLaws {
  import opened InputKey

  /** The characters with the White_Space property of Unicode. */
  const WHITE_SPACE := {
    0x09, 0x0A, 0x0B, 0x0C, 0x0D, 0x20, 0x85, 0xA0, 0x1680, 0x2000, 0x2001, 0x2002, 0x2003, 0x2004, 0x2005, 0x2006,
    0x2007, 0x2008, 0x2009, 0x200A, 0x2028, 0x2029, 0x202F, 0x205F, 0x3000}

  /** A raw key leaves out white space and nothing else; a rendered one also the three marks
      that are gone once Markdown is rendered. */
  lemma DropMeans(c: char)
    ensures Dropped(c, KeyRaw) <==> c as int in WHITE_SPACE
    ensures Dropped(c, KeyRendered) <==> c as int in WHITE_SPACE || c in "`*~"
  {}

  /** Rendering after stripping is stripping for rendering. */
  lemma {:induction false} RenderedOfRaw(s: string)
    ensures Stripped(Stripped(s, KeyRaw), KeyRendered) == Stripped(s, KeyRendered)
  {
    if s != "" {
      RenderedOfRaw(s[1..]);
      assert !Dropped(s[0], KeyRaw) ==> ([s[0]] + Stripped(s[1..], KeyRaw))[1..] == Stripped(s[1..], KeyRaw);
    }
  }

  /** How many numbers the shortest forms of UTF-8 reach: 7, 11, 16 and 21 bits. */
  function Reach(bytes: nat): nat {
    if bytes == 0 then 0 else if bytes == 1 then 0x80 else if bytes == 2 then 0x800
    else if bytes == 3 then 0x1_0000 else 0x20_0000
  }

  /** A character takes the fewest bytes that reach it. */
  lemma RuneLenIsLeast(c: char)
    ensures 1 <= RuneLen(c) <= 4 && Reach(RuneLen(c) - 1) <= c as int < Reach(RuneLen(c))
  {}

  /** As much of a text as fits 65536 bytes, and no less. */
  lemma {:induction false} BoundedIsMost(t: string)
    ensures Bounded(t) <= t && Size(Bounded(t)) <= 65536
    ensures |Bounded(t)| < |t| ==> Size(t[..|Bounded(t)| + 1]) > 65536
    decreases |t|
  {
    if Size(t) > INPUT_KEY_MAX {
      var init := t[..|t| - 1];
      BoundedIsMost(init);
      var n := |Bounded(init)|;
      assert n < |init| ==> t[..n + 1] == init[..n + 1];
      assert n == |init| ==> t[..n + 1] == t;
    }
  }

  // ── rows ─────────────────────────────────────────────────────────────────

  predicate IsEnd(c: char, newline: bool) {
    if newline then c as int == 10 else c as int == 0x20 || c as int == 0xA0
  }

  /** Trimming takes the blanks, or the newlines, off the end, all of them, and nothing
      else. */
  lemma {:induction false} TrimRightIs(s: string, newline: bool)
    ensures var t := TrimRight(s, newline);
      && t <= s && (forall i :: |t| <= i < |s| ==> IsEnd(s[i], newline))
      && (t != "" ==> !IsEnd(t[|t| - 1], newline))
    decreases |s|
  {
    if s != "" && IsEnd(s[|s| - 1], newline) {
      TrimRightIs(s[..|s| - 1], newline);
    }
  }

  /** A faint rune is not read; every other one is, in its place. */
  lemma VisibleMeans(r: StyledRow, i: nat)
    requires i < |r.text|
    ensures (i < |r.faint| && r.faint[i]) ==> Visible(r, i) == Visible(r, i + 1)
    ensures !(i < |r.faint| && r.faint[i]) ==> Visible(r, i) == [r.text[i]] + Visible(r, i + 1)
    ensures Visible(r, |r.text|) == ""
  {}

  /** An indent is two spaces, and only a whole one is skipped. */
  lemma SkipMeans(r: StyledRow)
    ensures SkipOf(r) == if |r.text| >= 2 && r.text[0] == ' ' && r.text[1] == ' ' then 2 else 0
  {}

  /** A prompt row begins with the prompt's mark, or the shell's, and a blank behind it, which
      may be missing only where the row ends. */
  lemma PromptRowMeans(r: StyledRow)
    ensures PromptRowStart(r) ==
      if |r.text| >= 1 && (r.text[0] as int == 0x276F || r.text[0] == '!')
         && (|r.text| == 1 || r.text[1] as int == 0x20 || r.text[1] as int == 0xA0)
      then PromptAt(if |r.text| == 1 then 1 else 2, r.text[0] == '!')
      else NoPrompt
  {}
}
