/** Text post-processing of the recognised text.

    Two variants share one line pass (split on newlines, strip every line,
    drop the lines left empty, join with newlines):
    - clean_ocr_text of the enhanced script, an accumulating loop followed by a
      final strip (CleanOcrText, specified by CleanText);
    - the inline post-pass of the improved script's main, which first applies
      three character corrections (PostProcess). */
module Cleanup {
  import opened PyStr

  /** [line.strip() for line in pieces if line.strip()] */
  function KeptLines(pieces: seq<string>): (r: seq<string>)
    ensures forall i :: 0 <= i < |r| ==> r[i] != "" && Stripped(r[i])
  {
    if pieces == [] then []
    else
      var line := Strip(pieces[0]);
      (if line != "" then [line] else []) + KeptLines(pieces[1..])
  }

  /** The line pass: the stripped non-empty lines of s, in order, joined by newlines. */
  function Lines(s: string): string {
    Join(KeptLines(Split(s)))
  }

  /** What clean_ocr_text returns. */
  function CleanText(text: string): string {
    if text == "" then text else Strip(Lines(text))
  }

  /** clean_ocr_text: the loop collects the stripped non-empty lines, then they
      are joined and the whole is stripped. */
  method CleanOcrText(text: string) returns (cleaned: string)
    ensures cleaned == CleanText(text)
  {
    if text == "" {
      return text;
    }
    assert CleanText(text) == Strip(Lines(text));
    var pieces := Split(text);
    var lines: seq<string> := [];
    for i := 0 to |pieces|
      invariant lines == KeptLines(pieces[..i])
    {
      var line := Strip(pieces[i]);
      KeptLinesSnoc(pieces, i);
      if line != "" {
        lines := lines + [line];
      }
    }
    assert pieces[..|pieces|] == pieces;
    cleaned := Join(lines);
    cleaned := Strip(cleaned);
  }

  /** One more piece extends the kept lines by that piece's stripped line, if any. */
  lemma {:induction false} KeptLinesSnoc(pieces: seq<string>, i: nat)
    requires i < |pieces|
    ensures KeptLines(pieces[..i + 1])
            == KeptLines(pieces[..i]) + (if Strip(pieces[i]) != "" then [Strip(pieces[i])] else [])
  {
    var x := pieces[i];
    KeptLinesAppend(pieces[..i], [x]);
    assert pieces[..i + 1] == pieces[..i] + [x];
    KeptLinesSingle(x);
  }

  lemma KeptLinesSingle(x: string)
    ensures KeptLines([x]) == if Strip(x) != "" then [Strip(x)] else []
  {
    assert [x][1..] == [];
  }

  // ---------------------------------------------------------------------------
  // The improved script's post-pass

  /** text.replace('\n\n', '\n'): occurrences are replaced left to right
      without overlap, so a run of three newlines becomes two. */
  function CollapseBlankLines(s: string): string {
    if |s| >= 2 && s[0] == '\n' && s[1] == '\n' then "\n" + CollapseBlankLines(s[2..])
    else if s == [] then []
    else [s[0]] + CollapseBlankLines(s[1..])
  }

  /** The corrections applied before the line pass, in source order:
      blank-line collapse, '|' to 'I', and '0' to 'O' only when the text
      (after the first two) is upper case. */
  function FixConfusions(text: string): string {
    var t := ReplaceChar(CollapseBlankLines(text), '|', 'I');
    if IsUpper(t) then ReplaceChar(t, '0', 'O') else t
  }

  /** The post-pass of the improved script, run only on non-empty text. */
  function PostProcess(text: string): string {
    if text == "" then text else Lines(FixConfusions(text))
  }

  // ---------------------------------------------------------------------------
  // Lemmas about the line pass

  lemma {:induction false} KeptLinesAppend(a: seq<string>, b: seq<string>)
    ensures KeptLines(a + b) == KeptLines(a) + KeptLines(b)
  {
    if a == [] {
      assert a + b == b;
    } else {
      assert (a + b)[0] == a[0] && (a + b)[1..] == a[1..] + b;
      KeptLinesAppend(a[1..], b);
    }
  }

  /** Lines cut out of newline-free pieces hold no newline. */
  lemma {:induction false} KeptLinesNoNewline(pieces: seq<string>)
    requires forall i :: 0 <= i < |pieces| ==> '\n' !in pieces[i]
    ensures forall i :: 0 <= i < |KeptLines(pieces)| ==> '\n' !in KeptLines(pieces)[i]
  {
    if pieces != [] {
      KeptLinesNoNewline(pieces[1..]);
      StripMembers(pieces[0]);
    }
  }

  /** Lines that are already non-empty and stripped are all kept, unchanged. */
  lemma {:induction false} KeptLinesFixed(lines: seq<string>)
    requires forall i :: 0 <= i < |lines| ==> lines[i] != "" && Stripped(lines[i])
    ensures KeptLines(lines) == lines
  {
    if lines != [] {
      StripStripped(lines[0]);
      KeptLinesFixed(lines[1..]);
      assert [lines[0]] + lines[1..] == lines;
    }
  }

  /** Joining non-empty stripped lines gives a non-empty stripped text. */
  lemma {:induction false} JoinStripped(lines: seq<string>)
    requires forall i :: 0 <= i < |lines| ==> lines[i] != "" && Stripped(lines[i])
    ensures Stripped(Join(lines))
    ensures |lines| > 0 ==> Join(lines) != ""
  {
    if |lines| > 1 {
      JoinStripped(lines[1..]);
      var j := Join(lines[1..]);
      var s := lines[0] + "\n" + j;
      assert s[0] == lines[0][0];
      assert s[|s| - 1] == j[|j| - 1];
    }
  }

  /** The non-whitespace content of a join is that of its first line followed by that of the rest. */
  lemma NonSpaceJoinCons(q: string, lines: seq<string>)
    ensures NonSpace(Join([q] + lines)) == NonSpace(q) + NonSpace(Join(lines))
  {
    if lines == [] {
      assert [q] + lines == [q];
      assert NonSpace(q) + [] == NonSpace(q);
    } else {
      assert ([q] + lines)[1..] == lines;
      assert Join([q] + lines) == q + "\n" + Join(lines);
      NonSpaceAppend(q + "\n", Join(lines));
      NonSpaceAppend(q, "\n");
      assert NonSpace("\n") == [];
    }
  }

  /** Filtering and stripping lines removes whitespace only. */
  lemma {:induction false} NonSpaceKeptLines(pieces: seq<string>)
    ensures NonSpace(Join(KeptLines(pieces))) == NonSpace(Join(pieces))
  {
    if pieces != [] {
      var p := pieces[0];
      var rest := pieces[1..];
      NonSpaceKeptLines(rest);
      assert pieces == [p] + rest;
      NonSpaceJoinCons(p, rest);
      NonSpaceStrip(p);
      var line := Strip(p);
      if line != "" {
        assert KeptLines(pieces) == [line] + KeptLines(rest);
        NonSpaceJoinCons(line, KeptLines(rest));
      } else {
        assert KeptLines(pieces) == KeptLines(rest);
      }
    }
  }

  /** The line pass keeps every non-whitespace character, in order, and adds none. */
  lemma LinesKeepsText(s: string)
    ensures NonSpace(Lines(s)) == NonSpace(s)
  {
    NonSpaceKeptLines(Split(s));
    JoinSplit(s);
  }

  /** The shape of the line pass's result: stripped as a whole, and its lines
      are exactly the stripped non-empty input lines, none of them empty or
      carrying leading or trailing whitespace. */
  lemma LinesShape(s: string)
    ensures Stripped(Lines(s))
    ensures Lines(s) == "" <==> KeptLines(Split(s)) == []
    ensures Lines(s) != "" ==> Split(Lines(s)) == KeptLines(Split(s))
    ensures Lines(s) != "" ==>
              forall i :: 0 <= i < |Split(Lines(s))| ==>
                Split(Lines(s))[i] != "" && Stripped(Split(Lines(s))[i])
  {
    var k := KeptLines(Split(s));
    JoinStripped(k);
    KeptLinesNoNewline(Split(s));
    if k != [] {
      SplitJoin(k);
    }
  }

  /** The line pass is idempotent. */
  lemma LinesIdempotent(s: string)
    ensures Lines(Lines(s)) == Lines(s)
  {
    LinesShape(s);
    var u := Lines(s);
    if u == "" {
      assert Split(u) == [""];
    } else {
      KeptLinesFixed(Split(u));
    }
  }

  /** The result of the line pass never holds two newlines in a row. */
  lemma LinesNoBlankLine(s: string, i: nat)
    requires i + 1 < |Lines(s)|
    ensures !(Lines(s)[i] == '\n' && Lines(s)[i + 1] == '\n')
  {
    var u := Lines(s);
    if u[i] == '\n' && u[i + 1] == '\n' {
      var k := SplitAtBlankLine(u, i);
      LinesShape(s);
      assert false;
    }
  }

  // ---------------------------------------------------------------------------
  // clean_ocr_text

  /** clean_ocr_text returns empty input unchanged; otherwise its final strip
      has nothing left to remove, so the result is the line pass. */
  lemma CleanTextIsLines(text: string)
    ensures text == "" ==> CleanText(text) == ""
    ensures CleanText(text) == Lines(text)
  {
    LinesShape(text);
    StripStripped(Lines(text));
    if text == "" {
      assert Split(text) == [""];
    }
  }

  /** The result of clean_ocr_text: no leading or trailing whitespace; its
      lines are the stripped non-empty input lines in their original order,
      each non-empty and without leading or trailing whitespace; and it holds
      the same non-whitespace characters as the input, in the same order. */
  lemma CleanTextShape(text: string)
    ensures Stripped(CleanText(text))
    ensures CleanText(text) == Join(KeptLines(Split(text)))
    ensures CleanText(text) != "" ==> Split(CleanText(text)) == KeptLines(Split(text))
    ensures CleanText(text) != "" ==>
              forall i :: 0 <= i < |Split(CleanText(text))| ==>
                Split(CleanText(text))[i] != "" && Stripped(Split(CleanText(text))[i])
    ensures NonSpace(CleanText(text)) == NonSpace(text)
  {
    CleanTextIsLines(text);
    LinesShape(text);
    LinesKeepsText(text);
  }

  /** clean_ocr_text is idempotent. */
  lemma CleanTextIdempotent(text: string)
    ensures CleanText(CleanText(text)) == CleanText(text)
  {
    CleanTextIsLines(text);
    CleanTextIsLines(Lines(text));
    LinesIdempotent(text);
  }

  // ---------------------------------------------------------------------------
  // The improved script's post-pass

  /** Collapsing a blank-line pair changes no other character's presence. */
  lemma {:induction false} CollapseMembers(s: string, c: char)
    requires c != '\n'
    ensures c in CollapseBlankLines(s) <==> c in s
  {
    if |s| >= 2 && s[0] == '\n' && s[1] == '\n' {
      CollapseMembers(s[2..], c);
      assert s == "\n\n" + s[2..];
    } else if s != [] {
      CollapseMembers(s[1..], c);
      assert s == [s[0]] + s[1..];
    }
  }

  /** Text without a newline pair is left alone by the collapse. */
  lemma {:induction false} CollapseIdentity(s: string)
    requires forall i :: 0 <= i < |s| - 1 ==> !(s[i] == '\n' && s[i + 1] == '\n')
    ensures CollapseBlankLines(s) == s
  {
    if s != [] {
      CollapseIdentity(s[1..]);
      assert s == [s[0]] + s[1..];
    }
  }

  /** The split before and after the collapse agree on the first piece and,
      once empty pieces are dropped, on the rest. */
  lemma {:induction false} CollapseSplit(s: string)
    ensures Split(s)[0] == Split(CollapseBlankLines(s))[0]
    ensures KeptLines(Split(s)[1..]) == KeptLines(Split(CollapseBlankLines(s))[1..])
  {
    if |s| >= 2 && s[0] == '\n' && s[1] == '\n' {
      CollapseSplit(s[2..]);
      CollapseSplitPair(s[2..]);
      assert s == "\n\n" + s[2..];
    } else if s != [] {
      CollapseSplit(s[1..]);
      CollapseSplitOne(s[0], s[1..]);
      assert s == [s[0]] + s[1..];
    }
  }

  /** The step of CollapseSplit for a first character that starts no newline pair. */
  lemma CollapseSplitOne(c: char, t: string)
    requires !(c == '\n' && |t| > 0 && t[0] == '\n')
    requires Split(t)[0] == Split(CollapseBlankLines(t))[0]
    requires KeptLines(Split(t)[1..]) == KeptLines(Split(CollapseBlankLines(t))[1..])
    ensures Split([c] + t)[0] == Split(CollapseBlankLines([c] + t))[0]
    ensures KeptLines(Split([c] + t)[1..]) == KeptLines(Split(CollapseBlankLines([c] + t))[1..])
  {
    var s := [c] + t;
    assert s[0] == c && s[1..] == t;
    assert CollapseBlankLines(s) == [c] + CollapseBlankLines(t);
    SplitCons(c, t);
    SplitCons(c, CollapseBlankLines(t));
    if c == '\n' {
      KeptHeadTail(Split(t));
      KeptHeadTail(Split(CollapseBlankLines(t)));
    }
  }

  /** The step of CollapseSplit for a leading newline pair. */
  lemma CollapseSplitPair(t: string)
    requires Split(t)[0] == Split(CollapseBlankLines(t))[0]
    requires KeptLines(Split(t)[1..]) == KeptLines(Split(CollapseBlankLines(t))[1..])
    ensures Split("\n\n" + t)[0] == Split(CollapseBlankLines("\n\n" + t))[0]
    ensures KeptLines(Split("\n\n" + t)[1..]) == KeptLines(Split(CollapseBlankLines("\n\n" + t))[1..])
  {
    var ct := CollapseBlankLines(t);
    var s := "\n\n" + t;
    assert s[2..] == t;
    assert CollapseBlankLines(s) == "\n" + ct;
    SplitCons('\n', t);
    SplitCons('\n', "\n" + t);
    assert s == ['\n'] + ("\n" + t);
    SplitCons('\n', ct);
    KeptHeadTail(Split(t));
    KeptHeadTail(Split(ct));
    KeptHeadTail([""] + Split(t));
    assert ([""] + Split(t))[1..] == Split(t);
  }

  lemma KeptHeadTail(x: seq<string>)
    requires |x| >= 1
    ensures KeptLines(x) == KeptLines([x[0]]) + KeptLines(x[1..])
  {
    KeptLinesAppend([x[0]], x[1..]);
    assert x == [x[0]] + x[1..];
  }

  /** The blank-line collapse never changes what the line pass produces: the
      pass drops empty lines anyway. */
  lemma CollapseIsRedundant(s: string)
    ensures Lines(CollapseBlankLines(s)) == Lines(s)
  {
    CollapseSplit(s);
    KeptHeadTail(Split(s));
    KeptHeadTail(Split(CollapseBlankLines(s)));
  }

  /** The post-pass is clean_ocr_text applied to the corrected text. */
  lemma PostProcessIsClean(text: string)
    ensures PostProcess(text) == CleanText(FixConfusions(text))
  {
    CleanTextIsLines(FixConfusions(text));
    if text == "" {
      assert CleanText(FixConfusions(text)) == Lines(FixConfusions(text));
      assert CollapseBlankLines(text) == "";
      assert FixConfusions(text) == "";
    }
  }

  /** After the post-pass the text has no '|', no empty line, no line with
      leading or trailing whitespace, and no leading or trailing whitespace;
      its non-whitespace characters are those of the corrected text. */
  lemma PostProcessShape(text: string)
    ensures '|' !in PostProcess(text)
    ensures Stripped(PostProcess(text))
    ensures PostProcess(text) != "" ==>
              forall i :: 0 <= i < |Split(PostProcess(text))| ==>
                Split(PostProcess(text))[i] != "" && Stripped(Split(PostProcess(text))[i])
    ensures NonSpace(PostProcess(text)) == NonSpace(FixConfusions(text))
  {
    var x := FixConfusions(text);
    PostProcessIsClean(text);
    CleanTextShape(x);
    NoPipeAfterFix(text);
    NonSpaceMembers(x);
    NonSpaceMembers(PostProcess(text));
  }

  lemma NoPipeAfterFix(text: string)
    ensures '|' !in FixConfusions(text)
  {
    var t := ReplaceChar(CollapseBlankLines(text), '|', 'I');
    ReplaceCharRemoves(CollapseBlankLines(text), '|', 'I');
    if IsUpper(t) {
      ReplaceCharMembers(t, '0', 'O', '|');
    }
  }

  /** '0' becomes 'O' only when the text, after the first two corrections, is
      upper case; otherwise every '0' survives the post-pass. */
  lemma PostProcessZeros(text: string)
    ensures '0' in PostProcess(text) <==>
              '0' in text && !IsUpper(ReplaceChar(CollapseBlankLines(text), '|', 'I'))
  {
    var t := ReplaceChar(CollapseBlankLines(text), '|', 'I');
    var x := FixConfusions(text);
    PostProcessShape(text);
    NonSpaceMembers(x);
    NonSpaceMembers(PostProcess(text));
    CollapseMembers(text, '0');
    ReplaceCharMembers(CollapseBlankLines(text), '|', 'I', '0');
    if IsUpper(t) {
      ReplaceCharRemoves(t, '0', 'O');
    }
    if text == "" {
      assert PostProcess(text) == "";
    }
  }

  /** The corrections have nothing left to correct in post-processed text. */
  lemma PostProcessFixed(text: string)
    requires text != ""
    ensures FixConfusions(PostProcess(text)) == PostProcess(text)
  {
    var u := PostProcess(text);
    var x := FixConfusions(text);
    var t := ReplaceChar(CollapseBlankLines(text), '|', 'I');
    PostProcessShape(text);
    forall i | 0 <= i < |u| - 1 ensures !(u[i] == '\n' && u[i + 1] == '\n') {
      LinesNoBlankLine(x, i);
    }
    CollapseIdentity(u);
    ReplaceCharAbsent(u, '|', 'I');
    if IsUpper(t) {
      ReplaceCharRemoves(t, '0', 'O');
      NonSpaceMembers(x);
      NonSpaceMembers(u);
      assert '0' !in u;
      ReplaceCharAbsent(u, '0', 'O');
    } else {
      IsUpperNonSpace(u);
      IsUpperNonSpace(x);
    }
  }

  /** The post-pass is idempotent. */
  lemma PostProcessIdempotent(text: string)
    ensures PostProcess(PostProcess(text)) == PostProcess(text)
  {
    if text != "" && PostProcess(text) != "" {
      PostProcessFixed(text);
      LinesIdempotent(FixConfusions(text));
    }
  }
}
