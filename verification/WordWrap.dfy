/** The help text's word wrapper: it walks a description with three positions (the current character,
    the start of the line, the last space) and flushes a line when too many characters went by. */
module WordWrap {
  import opened Outcomes
  import opened OptionSyntax

  /** What the wrapper reads of an option's help details. */
  datatype HelpOption = HelpOption(desc: string, hasDefault: bool, defaultValue: string, isBoolean: bool)

  /** The description with the default appended. */
  function FullDescription(o: HelpOption): string {
    if o.hasDefault && (!o.isBoolean || o.defaultValue != "false") then
      o.desc + if o.defaultValue != "" then " (default: " + o.defaultValue + ")" else " (default: \"\")"
    else o.desc
  }

  /** What becomes of a stretch of the description: a flushed line, cut after a character or at a space
      that is dropped, or the text before a line break, which is lost together with the break. */
  datatype Line = Cut(text: string) | AtSpace(text: string) | Dropped(text: string)

  function Blanks(n: nat): string {
    seq(n, i => ' ')
  }

  /** What is printed: every flushed line is followed by a line break and the margin. */
  function Printed(lines: seq<Line>, margin: nat): string {
    if lines == [] then ""
    else
      var before, last := Printed(lines[..|lines| - 1], margin), lines[|lines| - 1];
      if last.Dropped? then before else before + last.text + "\n" + Blanks(margin)
  }

  /** The character that is dropped at the end of a line. */
  function Separator(line: Line): string {
    match line
    case Cut(_) => ""
    case AtSpace(_) => " "
    case Dropped(_) => "\n"
  }

  /** What the lines were made of: all that was dropped put back. */
  function Unwrapped(lines: seq<Line>): string {
    if lines == [] then ""
    else
      var last := lines[|lines| - 1];
      Unwrapped(lines[..|lines| - 1]) + last.text + Separator(last)
  }

  predicate NothingDropped(lines: seq<Line>) {
    forall i | 0 <= i < |lines| :: !lines[i].Dropped?
  }

  predicate NoLineBreak(s: string) {
    forall i | 0 <= i < |s| :: s[i] != '\n'
  }

  /** A line is short, and a word is cut only where the line has no space to break at. */
  predicate GoodLine(line: Line, width: nat) {
    && |line.text| <= 2 * width + 3
    && NoLineBreak(line.text)
    && (line.Cut? ==> forall i | 1 <= i < |line.text| :: line.text[i] != ' ')
  }

  predicate GoodLines(lines: seq<Line>, width: nat) {
    forall i | 0 <= i < |lines| :: GoodLine(lines[i], width)
  }

  /** The last space after `from` and up to `at`, or `from` if there is none. */
  function LastSpace(desc: string, from: nat, at: nat): (s: nat)
    requires from <= at < |desc|
    ensures from <= s <= at
    ensures s > from ==> desc[s] == ' '
    ensures forall i | s < i <= at :: desc[i] != ' '
  {
    if at == from || desc[at] == ' ' then at else LastSpace(desc, from, at - 1)
  }

  /** The first line break from `from` on, or the end. */
  function NextBreak(desc: string, from: nat): (p: nat)
    requires from <= |desc|
    ensures from <= p <= |desc|
    ensures p < |desc| ==> desc[p] == '\n'
    ensures forall i | from <= i < p :: desc[i] != '\n'
    decreases |desc| - from
  {
    if from == |desc| || desc[from] == '\n' then from else NextBreak(desc, from + 1)
  }

  /** The lines of a description.  One is due at every `width + 2`nd character, line breaks not counted,
      wherever the one before it ended, and is broken at its last space if it has one; but if a line
      break comes first, what stands before that is dropped. */
  function LinesFrom(desc: string, from: nat, at: nat, width: nat): seq<Line>
    requires from <= at && from <= |desc|
    decreases |desc| - from
  {
    var p := NextBreak(desc, from);
    if p < |desc| && p <= at then [Dropped(desc[from..p])] + LinesFrom(desc, p + 1, at + 1, width)
    else if at >= |desc| then []
    else
      var s := LastSpace(desc, from, at);
      if s == from then [Cut(desc[from..at + 1])] + LinesFrom(desc, at + 1, at + width + 2, width)
      else [AtSpace(desc[from..s])] + LinesFrom(desc, s + 1, at + width + 2, width)
  }

  /** The wrapper's positions, between two turns of its loop: the lines before `start` are flushed,
      and the next line is due when `left` more characters have gone by. */
  datatype Scan = Scan(lines: seq<Line>, start: nat, lastSpace: nat, current: nat, left: nat)

  ghost predicate InScan(desc: string, s: Scan, width: nat) {
    && s.start <= s.lastSpace <= s.current <= |desc|
    && s.left <= width + 1
    && s.current - s.start + s.left <= 2 * width + 2
    && (s.lastSpace > s.start ==>
          s.lastSpace < s.current <= s.lastSpace + (width + 1 - s.left) && desc[s.lastSpace] == ' ')
    && (forall i | s.lastSpace < i < s.current :: desc[i] != ' ')
    && (forall i | s.start <= i < s.current :: desc[i] != '\n')
    && GoodLines(s.lines, width)
    && desc[..s.start] == Unwrapped(s.lines)
    && s.lines + LinesFrom(desc, s.start, s.current + s.left, width) == LinesFrom(desc, 0, width + 1, width)
  }

  /** The last space, once the current character was looked at. */
  function SeenSpace(desc: string, lastSpace: nat, current: nat): nat
    requires current < |desc|
  {
    if desc[current] == ' ' then current else lastSpace
  }

  lemma ScanStarts(desc: string, width: nat)
    ensures InScan(desc, Scan([], 0, 0, 0, width + 1), width)
  {
    assert [] + LinesFrom(desc, 0, width + 1, width) == LinesFrom(desc, 0, width + 1, width);
  }

  lemma ScanPassesLineBreak(desc: string, s: Scan, width: nat)
    requires InScan(desc, s, width) && s.current < |desc| && desc[s.current] == '\n'
    ensures var next := s.current + 1;
            InScan(desc, Scan(s.lines + [Dropped(desc[s.start..s.current])], next, next, next, s.left), width)
  {
    hide LinesFrom, Unwrapped, GoodLines, NoLineBreak;
    var line := Dropped(desc[s.start..s.current]);
    FlushLine(desc, s.lines, line, s.start, s.current, width);
    DroppedLine(desc, s.start, s.current, s.current + s.left, width);
    Regroup(s.lines, line, LinesFrom(desc, s.current + 1, s.current + s.left + 1, width));
  }

  lemma ScanPassesCharacter(desc: string, s: Scan, width: nat)
    requires InScan(desc, s, width) && s.current < |desc| && desc[s.current] != '\n' && s.left > 0
    ensures var space := SeenSpace(desc, s.lastSpace, s.current);
            InScan(desc, Scan(s.lines, s.start, space, s.current + 1, s.left - 1), width)
  {
    hide LinesFrom, Unwrapped, GoodLines, NoLineBreak;
  }

  /** A line is due, and has no space to break at. */
  lemma CutIsDue(desc: string, s: Scan, width: nat)
    requires InScan(desc, s, width) && s.current < |desc| && desc[s.current] != '\n' && s.left == 0
    requires SeenSpace(desc, s.lastSpace, s.current) == s.start
    ensures s.start <= s.current && s.current + 1 - s.start <= 2 * width + 3
    ensures forall i | s.start <= i <= s.current :: desc[i] != '\n'
    ensures forall i | s.start < i <= s.current :: desc[i] != ' '
    ensures GoodLines(s.lines, width) && desc[..s.start] == Unwrapped(s.lines)
    ensures s.lines + LinesFrom(desc, s.start, s.current, width) == LinesFrom(desc, 0, width + 1, width)
  {
    hide LinesFrom, Unwrapped, GoodLines, NoLineBreak;
  }

  lemma ScanCuts(desc: string, s: Scan, width: nat)
    requires InScan(desc, s, width) && s.current < |desc| && desc[s.current] != '\n' && s.left == 0
    requires SeenSpace(desc, s.lastSpace, s.current) == s.start
    ensures var next := s.current + 1;
            InScan(desc, Scan(s.lines + [Cut(desc[s.start..next])], next, next, next, width + 1), width)
  {
    hide InScan, LinesFrom, Unwrapped, GoodLines, NoLineBreak, Separator, NextBreak, SeenSpace;
    var next := s.current + 1;
    CutIsDue(desc, s, width);
    var line := Cut(desc[s.start..next]);
    FlushLine(desc, s.lines, line, s.start, next, width);
    NextLine(desc, s.lines, s.start, s.current, s.start, width);
    assert s.current + width + 2 == next + (width + 1);
    FreshLine(desc, s.lines + [line], next, width);
  }

  /** The positions after a flush at the current character. */
  lemma FreshLine(desc: string, lines: seq<Line>, next: nat, width: nat)
    requires next <= |desc| && GoodLines(lines, width) && desc[..next] == Unwrapped(lines)
    requires lines + LinesFrom(desc, next, next + (width + 1), width) == LinesFrom(desc, 0, width + 1, width)
    ensures InScan(desc, Scan(lines, next, next, next, width + 1), width)
  {
    hide LinesFrom, Unwrapped, GoodLines;
  }

  lemma ScanBreaks(desc: string, s: Scan, width: nat)
    requires InScan(desc, s, width) && s.current < |desc| && desc[s.current] != '\n' && s.left == 0
    requires SeenSpace(desc, s.lastSpace, s.current) != s.start
    ensures var space := SeenSpace(desc, s.lastSpace, s.current);
            var lines := s.lines + [AtSpace(desc[s.start..space])];
            InScan(desc, Scan(lines, space + 1, space + 1, s.current + 1, width + 1), width)
  {
    hide LinesFrom, Unwrapped, GoodLines, NoLineBreak;
    var space := SeenSpace(desc, s.lastSpace, s.current);
    FlushLine(desc, s.lines, AtSpace(desc[s.start..space]), s.start, space, width);
    NextLine(desc, s.lines, s.start, s.current, space, width);
  }

  /** `desc` was wrapped into the lines above and a last line `tail`.  The lines are short.  With what was
      dropped put back they are the description, and nothing but spaces at line ends was dropped exactly
      when it has no line break of its own. */
  ghost predicate Wrapped(desc: string, width: nat, lines: seq<Line>, tail: string) {
    && lines == LinesFrom(desc, 0, width + 1, width)
    && GoodLines(lines, width)
    && |tail| <= 2 * width + 2 && NoLineBreak(tail)
    && desc == Unwrapped(lines) + tail
    && (NothingDropped(lines) <==> NoLineBreak(desc))
  }

  lemma PrintedMore(lines: seq<Line>, line: Line, margin: nat)
    ensures Printed(lines + [line], margin)
         == var before := Printed(lines, margin);
            if line.Dropped? then before else before + line.text + "\n" + Blanks(margin)
  {
    assert (lines + [line])[..|lines|] == lines;
  }

  lemma NothingPrinted(margin: nat)
    ensures Printed([], margin) == ""
  {}

  // ---------- reading the output ----------

  /** Taking an output apart at its line breaks, each of which must have `margin` spaces behind it. */
  function CutAtMargin(text: string, margin: nat): Option<seq<string>>
    decreases |text|
  {
    var i := IndexOf(text, '\n');
    if i == |text| then Some([text])
    else if i + 1 + margin > |text| || !IsBlank(text[i + 1..i + 1 + margin]) then None
    else
      var rest := CutAtMargin(text[i + 1 + margin..], margin);
      if rest.None? then None else Some([text[..i]] + rest.value)
  }

  /** The texts of the lines that are printed. */
  function Kept(lines: seq<Line>): seq<string> {
    if lines == [] then []
    else
      var last := lines[|lines| - 1];
      Kept(lines[..|lines| - 1]) + if last.Dropped? then [] else [last.text]
  }

  lemma CutFirst(first: string, margin: nat, rest: string)
    requires NoLineBreak(first)
    ensures var cut := CutAtMargin(rest, margin);
            CutAtMargin(first + "\n" + Blanks(margin) + rest, margin)
            == if cut.Some? then Some([first] + cut.value) else None
  {
    var blanks := Blanks(margin);
    var text := first + "\n" + blanks + rest;
    IndexOfFirst(first, '\n', blanks + rest);
    AtLineBreak(first, blanks, rest);
    assert IsBlank(blanks) && |blanks| == margin;
    hide Blanks, IndexOf, NoLineBreak;
    assert IndexOf(text, '\n') == |first|;
  }

  lemma AtLineBreak(first: string, blanks: string, rest: string)
    ensures var text, i := first + "\n" + blanks + rest, |first| + 1;
            && first + ['\n'] + (blanks + rest) == text
            && text[..|first|] == first && text[i..i + |blanks|] == blanks && text[i + |blanks|..] == rest
  {}

  lemma CutLast(tail: string, margin: nat)
    requires NoLineBreak(tail)
    ensures CutAtMargin(tail, margin) == Some([tail])
  {
    IndexOfAbsent(tail, '\n');
  }

  /** The output, cut at its margins, is the kept lines and the last line, in order. */
  lemma {:induction false} PrintedIsCut(lines: seq<Line>, margin: nat, tail: string, width: nat)
    requires GoodLines(lines, width) && CutAtMargin(tail, margin).Some?
    ensures CutAtMargin(Printed(lines, margin) + tail, margin)
         == Some(Kept(lines) + CutAtMargin(tail, margin).value)
    decreases |lines|
  {
    hide CutAtMargin, Blanks, NoLineBreak;
    if lines == [] {
      assert Printed(lines, margin) + tail == tail;
      assert [] + CutAtMargin(tail, margin).value == CutAtMargin(tail, margin).value;
    } else {
      var init, last := lines[..|lines| - 1], lines[|lines| - 1];
      var cut := CutAtMargin(tail, margin).value;
      if last.Dropped? {
        PrintedIsCut(init, margin, tail, width);
        assert Kept(lines) == Kept(init);
      } else {
        assert GoodLine(last, width);
        CutFirst(last.text, margin, tail);
        PrintedIsCut(init, margin, last.text + "\n" + Blanks(margin) + tail, width);
        assert Printed(lines, margin) + tail == Printed(init, margin) + (last.text + "\n" + Blanks(margin) + tail);
        assert Kept(init) + ([last.text] + cut) == Kept(lines) + cut;
      }
    }
  }

  lemma OutputIsCut(desc: string, lines: seq<Line>, tail: string, margin: nat, width: nat)
    requires Wrapped(desc, width, lines, tail)
    ensures CutAtMargin(Printed(lines, margin) + tail, margin) == Some(Kept(lines) + [tail])
  {
    hide CutAtMargin, Printed, Unwrapped, LinesFrom;
    CutLast(tail, margin);
    PrintedIsCut(lines, margin, tail, width);
  }

  /** What is appended to a description: nothing, or the default in brackets. */
  lemma DefaultIsShown(o: HelpOption)
    ensures o.desc <= FullDescription(o)
    ensures var appended := FullDescription(o)[|o.desc|..];
            if !o.hasDefault || (o.isBoolean && o.defaultValue == "false") then appended == ""
            else
              && |appended| >= 12
              && appended[..11] == " (default: " && appended[|appended| - 1] == ')'
              && appended[11..|appended| - 1] == if o.defaultValue == "" then ['\"', '\"'] else o.defaultValue
  {}

  method FormatDescription(o: HelpOption, start: nat, width: nat) returns (result: string)
    ensures exists lines, tail ::
              && Wrapped(FullDescription(o), width, lines, tail)
              && result == Printed(lines, start) + tail
              && CutAtMargin(result, start) == Some(Kept(lines) + [tail])
  {
    hide Unwrapped, GoodLines, NoLineBreak, FullDescription, Blanks, LinesFrom, InScan, Wrapped, Printed,
      CutAtMargin, Kept;
    var desc := FullDescription(o);
    result := "";
    ghost var lines: seq<Line> := [];
    ScanStarts(desc, width);
    NothingPrinted(start);
    var current, startLine, lastSpace, size := 0, 0, 0, 0;
    while current != |desc|
      invariant 0 <= startLine <= lastSpace <= current <= |desc| && size <= width + 1
      invariant InScan(desc, Scan(lines, startLine, lastSpace, current, width + 1 - size), width)
      invariant result == Printed(lines, start)
      decreases |desc| - current
    {
      ghost var before := Scan(lines, startLine, lastSpace, current, width + 1 - size);
      if desc[current] == ' ' {
        lastSpace := current;
      }
      if desc[current] == '\n' {
        ScanPassesLineBreak(desc, before, width);
        PrintedMore(lines, Dropped(desc[startLine..current]), start);
        lines := lines + [Dropped(desc[startLine..current])];
        startLine := current + 1;
        lastSpace := startLine;
      } else if size > width {
        if lastSpace == startLine {
          ScanCuts(desc, before, width);
          result := result + desc[startLine..current + 1];
          result := result + "\n";
          result := result + Blanks(start);
          PrintedMore(lines, Cut(desc[startLine..current + 1]), start);
          lines := lines + [Cut(desc[startLine..current + 1])];
          startLine := current + 1;
          lastSpace := startLine;
        } else {
          ScanBreaks(desc, before, width);
          result := result + desc[startLine..lastSpace];
          result := result + "\n";
          result := result + Blanks(start);
          PrintedMore(lines, AtSpace(desc[startLine..lastSpace]), start);
          lines := lines + [AtSpace(desc[startLine..lastSpace])];
          startLine := lastSpace + 1;
          lastSpace := startLine;
        }
        size := 0;
      } else {
        ScanPassesCharacter(desc, before, width);
        size := size + 1;
      }
      current := current + 1;
    }
    ScanEnds(desc, Scan(lines, startLine, lastSpace, current, width + 1 - size), width);
    result := result + desc[startLine..];
    OutputIsCut(desc, lines, desc[startLine..], start, width);
  }

  /** The characters from the start of the line on are the last line. */
  lemma ScanEnds(desc: string, s: Scan, width: nat)
    requires InScan(desc, s, width) && s.current == |desc|
    ensures Wrapped(desc, width, s.lines, desc[s.start..])
  {
    hide Unwrapped, LinesFrom, GoodLines, NothingDropped, NoLineBreak;
    var tail := desc[s.start..];
    NoBreakFrom(desc, s.start);
    assert desc == desc[..s.start] + tail;
    NoMoreLines(desc, s.start, s.current + s.left, width);
    assert s.lines + [] == s.lines;
    BreaksAreDropped(s.lines, width);
    BreaksAdd(Unwrapped(s.lines), tail);
  }

  lemma NoBreakFrom(desc: string, from: nat)
    requires from <= |desc| && forall i | from <= i < |desc| :: desc[i] != '\n'
    ensures NoLineBreak(desc[from..])
  {}

  lemma NoMoreLines(desc: string, from: nat, at: nat, width: nat)
    requires from <= |desc| <= at && forall i | from <= i < |desc| :: desc[i] != '\n'
    ensures LinesFrom(desc, from, at, width) == []
  {
    hide LastSpace;
  }

  /** The line that is lost at a line break. */
  lemma DroppedLine(desc: string, from: nat, p: nat, at: nat, width: nat)
    requires from <= p <= at && p < |desc| && desc[p] == '\n' && forall i | from <= i < p :: desc[i] != '\n'
    ensures LinesFrom(desc, from, at, width) == [Dropped(desc[from..p])] + LinesFrom(desc, p + 1, at + 1, width)
  {
    hide LastSpace;
    assert NextBreak(desc, from) == p by {
      hide NextBreak;
    }
  }

  lemma Regroup(lines: seq<Line>, line: Line, rest: seq<Line>)
    ensures lines + ([line] + rest) == (lines + [line]) + rest
  {}

  /** The line that is flushed when the current character is `at`. */
  lemma NextLine(desc: string, lines: seq<Line>, from: nat, at: nat, lastSpace: nat, width: nat)
    requires from <= lastSpace <= at < |desc|
    requires lastSpace > from ==> desc[lastSpace] == ' '
    requires forall i | lastSpace < i <= at :: desc[i] != ' '
    requires forall i | from <= i <= at :: desc[i] != '\n'
    ensures lines + LinesFrom(desc, from, at, width)
         == if lastSpace == from
            then (lines + [Cut(desc[from..at + 1])]) + LinesFrom(desc, at + 1, at + width + 2, width)
            else (lines + [AtSpace(desc[from..lastSpace])]) + LinesFrom(desc, lastSpace + 1, at + width + 2, width)
  {
    FirstLine(desc, from, at, lastSpace, width);
    hide LinesFrom;
    if lastSpace == from {
      Regroup(lines, Cut(desc[from..at + 1]), LinesFrom(desc, at + 1, at + width + 2, width));
    } else {
      Regroup(lines, AtSpace(desc[from..lastSpace]), LinesFrom(desc, lastSpace + 1, at + width + 2, width));
    }
  }

  lemma FirstLine(desc: string, from: nat, at: nat, lastSpace: nat, width: nat)
    requires from <= lastSpace <= at < |desc|
    requires lastSpace > from ==> desc[lastSpace] == ' '
    requires forall i | lastSpace < i <= at :: desc[i] != ' '
    requires forall i | from <= i <= at :: desc[i] != '\n'
    ensures LinesFrom(desc, from, at, width)
         == if lastSpace == from then [Cut(desc[from..at + 1])] + LinesFrom(desc, at + 1, at + width + 2, width)
            else [AtSpace(desc[from..lastSpace])] + LinesFrom(desc, lastSpace + 1, at + width + 2, width)
  {
    hide NextBreak;
    assert LastSpace(desc, from, at) == lastSpace by {
      hide LastSpace;
    }
    assert NextBreak(desc, from) > at;
  }

  /** Flushing the characters from `from` up to `to`. */
  lemma FlushLine(desc: string, lines: seq<Line>, line: Line, from: nat, to: nat, width: nat)
    requires from <= to <= |desc| && line.text == desc[from..to] && GoodLines(lines, width)
    requires to - from <= 2 * width + 3 && forall i | from <= i < to :: desc[i] != '\n'
    requires line.Cut? ==> forall i | from < i < to :: desc[i] != ' '
    requires !line.Cut? ==> to < |desc| && Separator(line) == [desc[to]]
    requires desc[..from] == Unwrapped(lines)
    ensures GoodLines(lines + [line], width)
    ensures desc[..if line.Cut? then to else to + 1] == Unwrapped(lines + [line])
  {
    hide GoodLine;
    var longer := lines + [line];
    assert longer[..|lines|] == lines && longer[|lines|] == line;
    FlushedLineIsGood(desc, line, from, to, width);
    assert desc[..to] == desc[..from] + line.text;
    assert !line.Cut? ==> desc[..to + 1] == desc[..from] + line.text + Separator(line);
  }

  lemma FlushedLineIsGood(desc: string, line: Line, from: nat, to: nat, width: nat)
    requires from <= to <= |desc| && line.text == desc[from..to]
    requires to - from <= 2 * width + 3 && forall i | from <= i < to :: desc[i] != '\n'
    requires line.Cut? ==> forall i | from < i < to :: desc[i] != ' '
    ensures GoodLine(line, width)
  {
    assert forall i | 0 <= i < |line.text| :: line.text[i] == desc[from + i];
  }

  lemma BreaksAdd(a: string, b: string)
    ensures NoLineBreak(a + b) <==> NoLineBreak(a) && NoLineBreak(b)
  {
    if NoLineBreak(a + b) {
      assert forall i | 0 <= i < |a| :: a[i] == (a + b)[i];
      assert forall i | 0 <= i < |b| :: b[i] == (a + b)[|a| + i];
    }
  }

  /** The line breaks of a description are the ones that were dropped. */
  lemma {:induction false} BreaksAreDropped(lines: seq<Line>, width: nat)
    requires GoodLines(lines, width)
    ensures NothingDropped(lines) <==> NoLineBreak(Unwrapped(lines))
  {
    hide NoLineBreak;
    if lines == [] {
      assert NoLineBreak("") by { NoBreaksInNothing(); }
    } else {
      var init, last := lines[..|lines| - 1], lines[|lines| - 1];
      BreaksAreDropped(init, width);
      BreaksAdd(Unwrapped(init), last.text);
      BreaksAdd(Unwrapped(init) + last.text, Separator(last));
      assert GoodLine(last, width);
      OnlyBreaksBreak(last);
    }
  }

  lemma NoBreaksInNothing()
    ensures NoLineBreak("")
  {}

  lemma OnlyBreaksBreak(line: Line)
    ensures NoLineBreak(Separator(line)) <==> !line.Dropped?
  {
    assert line.Dropped? ==> Separator(line)[0] == '\n';
  }

  /** A description has one wrapping. */
  lemma WrappingIsUnique(
    desc: string, width: nat, lines: seq<Line>, tail: string, lines': seq<Line>, tail': string)
    requires Wrapped(desc, width, lines, tail) && Wrapped(desc, width, lines', tail')
    ensures lines == lines' && tail == tail'
  {
    assert tail == desc[|Unwrapped(lines)|..] && tail' == desc[|Unwrapped(lines)|..];
  }
}
