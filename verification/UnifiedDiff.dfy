/** Unified diffs built from the edit script, as the vendored Google Test prints
    them: hunks of changed lines with some unchanged context around, each under
    a header that leaves out a side that has no changes. */
module UnifiedDiff {
  import opened Basics
  import opened EditDistance

  datatype Line = Line(mark: char, text: string)

  /** A start line, counted from 1, and a number of lines. */
  datatype Range = Range(start: nat, length: nat)

  /** One hunk as it stands in the output stream. */
  datatype PrintedHunk = PrintedHunk(leftRange: Option<Range>, rightRange: Option<Range>, lines: seq<Line>)

  // ----- Reading a diff: the reference meaning -----

  /** The texts of all lines but those marked `drop`. */
  ghost function Without(drop: char, lines: seq<Line>): seq<string> {
    if lines == [] then []
    else Kept(drop, lines[0]) + Without(drop, lines[1..])
  }

  ghost function Kept(drop: char, line: Line): seq<string> {
    if line.mark != drop then [line.text] else []
  }

  /** The lines a hunk says the old text has. */
  ghost function OldLines(lines: seq<Line>): seq<string> {
    Without('+', lines)
  }

  /** The lines a hunk says the new text has. */
  ghost function NewLines(lines: seq<Line>): seq<string> {
    Without('-', lines)
  }

  ghost function Marks(drop: char, lines: seq<Line>): seq<char> {
    if lines == [] then [] else MarkKept(drop, lines[0]) + Marks(drop, lines[1..])
  }

  ghost function MarkKept(drop: char, line: Line): seq<char> {
    if line.mark != drop then [line.mark] else []
  }

  /** How the lines of the old text are marked: as unchanged or as removed. */
  ghost function OldMarks(lines: seq<Line>): seq<char> {
    Marks('+', lines)
  }

  /** How the lines of the new text are marked: as unchanged or as added. */
  ghost function NewMarks(lines: seq<Line>): seq<char> {
    Marks('-', lines)
  }

  ghost function Blank(n: nat): seq<char> {
    seq(n, _ => ' ')
  }

  /** How a script marks the elements of the left text: matched, or removed or replaced. */
  ghost function LeftMarks(e: seq<EditType>): seq<char> {
    if e == [] then [] else LeftMarks(e[..|e| - 1]) + LeftMark(e[|e| - 1])
  }

  ghost function LeftMark(m: EditType): seq<char> {
    if m == Add then [] else if m == Match then [' '] else ['-']
  }

  /** How a script marks the elements of the right text: matched, or added or put in place. */
  ghost function RightMarks(e: seq<EditType>): seq<char> {
    if e == [] then [] else RightMarks(e[..|e| - 1]) + RightMark(e[|e| - 1])
  }

  ghost function RightMark(m: EditType): seq<char> {
    if m == Remove then [] else if m == Match then [' '] else ['+']
  }

  /** How far a reader has come: `pos` lines of the old text are dealt with, `out`
      is written. */
  datatype Progress = Progress(pos: nat, out: seq<string>)

  /** Applies one hunk.  The unchanged lines before it are copied; how many there
      are is read off whichever start line the header gives.  A hunk that starts
      before the reader's position, whose old lines are not there, or whose header
      disagrees with its own lines or with the text written so far, is refused. */
  ghost function ApplyHunk(left: seq<string>, at: Progress, h: PrintedHunk): Option<Progress> {
    var old', new' := OldLines(h.lines), NewLines(h.lines);
    var copied: int :=
      if h.leftRange.Some? then h.leftRange.value.start - 1 - at.pos
      else if h.rightRange.Some? then h.rightRange.value.start - 1 - |at.out|
      else -1;
    if && 0 <= copied
       && at.pos + copied + |old'| <= |left|
       && left[at.pos + copied..at.pos + copied + |old'|] == old'
       && (h.leftRange.Some? ==> h.leftRange.value.length == |old'|)
       && (h.rightRange.Some? ==> h.rightRange.value == Range(|at.out| + copied + 1, |new'|))
    then Some(Progress(at.pos + copied + |old'|, at.out + left[at.pos..at.pos + copied] + new'))
    else None
  }

  ghost function ApplyHunks(left: seq<string>, hunks: seq<PrintedHunk>): Option<Progress> {
    if hunks == [] then Some(Progress(0, []))
    else
      match ApplyHunks(left, hunks[..|hunks| - 1])
      case None => None
      case Some(at) => ApplyHunk(left, at, hunks[|hunks| - 1])
  }

  /** The text a reader gets from the old text and a diff. */
  ghost function Patch(left: seq<string>, hunks: seq<PrintedHunk>): Option<seq<string>> {
    match ApplyHunks(left, hunks)
    case None => None
    case Some(at) => if at.pos <= |left| then Some(at.out + left[at.pos..]) else None
  }

  /** The unchanged lines that a reader copies before a hunk. */
  ghost function Copied(left: seq<string>, at: Progress, h: PrintedHunk): seq<string> {
    match ApplyHunk(left, at, h)
    case None => []
    case Some(after) => left[at.pos..after.pos - |OldLines(h.lines)|]
  }

  ghost function Unchanged(texts: seq<string>): seq<Line> {
    seq(|texts|, k requires 0 <= k < |texts| => Line(' ', texts[k]))
  }

  /** The hunks with the unchanged lines before each. */
  ghost function Shown(left: seq<string>, hunks: seq<PrintedHunk>): seq<Line> {
    if hunks == [] then []
    else
      var front, last := hunks[..|hunks| - 1], hunks[|hunks| - 1];
      match ApplyHunks(left, front)
      case None => []
      case Some(at) => Shown(left, front) + Unchanged(Copied(left, at, last)) + last.lines
  }

  /** The diff with all unchanged lines: those that the hunks leave out are put in. */
  ghost function Expanded(left: seq<string>, hunks: seq<PrintedHunk>): seq<Line> {
    match ApplyHunks(left, hunks)
    case None => []
    case Some(at) => Shown(left, hunks) + if at.pos <= |left| then Unchanged(left[at.pos..]) else []
  }

  ghost function Count(mark: char, lines: seq<Line>): nat {
    if lines == [] then 0 else Step(lines[0].mark == mark) + Count(mark, lines[1..])
  }

  /** The lines of all hunks that have this mark. */
  ghost function CountAll(mark: char, hunks: seq<PrintedHunk>): nat {
    if hunks == [] then 0 else CountAll(mark, hunks[..|hunks| - 1]) + Count(mark, hunks[|hunks| - 1].lines)
  }

  /** The whole diff shows both texts, and marks their elements as the script does. */
  ghost predicate ShowsScript(left: seq<string>, right: seq<string>, e: seq<EditType>, hunks: seq<PrintedHunk>) {
    var lines := Expanded(left, hunks);
    && OldLines(lines) == left && OldMarks(lines) == LeftMarks(e)
    && NewLines(lines) == right && NewMarks(lines) == RightMarks(e)
  }

  /** No removal directly after an addition: within a block of changes all
      removals come first. */
  ghost predicate Grouped(lines: seq<Line>) {
    forall k :: 0 < k < |lines| ==> !(lines[k - 1].mark == '+' && lines[k].mark == '-')
  }

  /** The number of unchanged lines at the start. */
  ghost function Leading(lines: seq<Line>): (n: nat)
    ensures n <= |lines|
  {
    if lines == [] || lines[0].mark != ' ' then 0 else 1 + Leading(lines[1..])
  }

  /** The number of unchanged lines at the end. */
  ghost function Trailing(lines: seq<Line>): nat {
    if lines == [] || lines[|lines| - 1].mark != ' ' then 0 else 1 + Trailing(lines[..|lines| - 1])
  }

  ghost function Wider(a: nat, b: nat): nat {
    if a < b then b else a
  }

  /** The longest run of unchanged lines between two changes. */
  ghost function Widest(lines: seq<Line>): nat {
    if lines == [] then 0
    else
      var front := lines[..|lines| - 1];
      if lines[|lines| - 1].mark == ' ' || Leading(front) == |front| then Widest(front)
      else Wider(Widest(front), Trailing(front))
  }

  /** The unchanged lines between the last change of one hunk and the first change of
      the next: what they show, and what a reader copies in between. */
  ghost function Gap(left: seq<string>, ss: seq<PrintedHunk>, k: nat): int
    requires 0 < k < |ss|
  {
    var before, after := ApplyHunks(left, ss[..k]), ApplyHunks(left, ss[..k + 1]);
    if before.None? || after.None? then -1
    else
      var skipped := after.value.pos - before.value.pos - |OldLines(ss[k].lines)|;
      Trailing(ss[k - 1].lines) + skipped + Leading(ss[k].lines)
  }

  /** Changes share a hunk exactly if fewer than 2 * `context` unchanged lines are between
      them, that is, if their contexts overlap. */
  ghost predicate JoinsOverlapping(left: seq<string>, ss: seq<PrintedHunk>, context: nat) {
    && (forall k :: 0 <= k < |ss| ==> Widest(ss[k].lines) < 2 * context)
    && (forall k :: 0 < k < |ss| ==> Gap(left, ss, k) >= 2 * context)
  }

  /** Every hunk shows `context` unchanged lines on either side of its changes;
      fewer only at the start and at the end of the text. */
  ghost predicate ShowsContext(ss: seq<PrintedHunk>, context: nat) {
    forall k :: 0 <= k < |ss| ==>
      && Leading(ss[k].lines) <= context && Trailing(ss[k].lines) <= context
      && (Leading(ss[k].lines) < context ==> k == 0 && StartsAtLineOne(ss[k]))
      && (Trailing(ss[k].lines) < context ==> k == |ss| - 1)
  }

  ghost predicate EachShowsContext(ss: seq<PrintedHunk>, context: nat) {
    forall k :: 0 <= k < |ss| ==>
      && Leading(ss[k].lines) <= context && Trailing(ss[k].lines) == context
      && (Leading(ss[k].lines) < context ==> k == 0 && StartsAtLineOne(ss[k]))
  }

  ghost predicate StartsAtLineOne(h: PrintedHunk) {
    (h.leftRange.Some? ==> h.leftRange.value.start == 1) && (h.rightRange.Some? ==> h.rightRange.value.start == 1)
  }

  // ----- Collecting a hunk -----

  ghost predicate AllMarked(lines: seq<Line>, mark: char) {
    forall k :: 0 <= k < |lines| ==> lines[k].mark == mark
  }

  lemma MarkedSnoc(lines: seq<Line>, last: Line)
    requires AllMarked(lines, last.mark)
    ensures AllMarked(lines + [last], last.mark)
  {
  }

  lemma NoneMarked(mark: char)
    ensures AllMarked([], mark)
  {
  }

  class Hunk {
    const leftStart: nat
    const rightStart: nat
    var adds: nat
    var removes: nat
    var common: nat
    var hunk: seq<Line>
    var hunkAdds: seq<Line>
    var hunkRemoves: seq<Line>

    ghost predicate Valid()
      reads this
    {
      && AllMarked(hunkAdds, '+') && AllMarked(hunkRemoves, '-')
      && Grouped(hunk) && (hunk != [] ==> hunk[|hunk| - 1].mark == ' ')
      && (if HasEdits() then hunkRemoves + hunkAdds != [] || Leading(hunk) < |hunk|
          else hunkRemoves + hunkAdds == [] && Leading(hunk) == |hunk|)
      && |Old()| == removes + common
      && |New()| == adds + common
    }

    /** The old lines collected so far, pending removals included. */
    ghost function Old(): seq<string>
      reads this
    {
      OldLines(hunk) + OldLines(hunkRemoves)
    }

    /** The new lines collected so far, pending additions included. */
    ghost function New(): seq<string>
      reads this
    {
      NewLines(hunk) + NewLines(hunkAdds)
    }

    ghost function OldMarked(): seq<char>
      reads this
    {
      OldMarks(hunk) + OldMarks(hunkRemoves)
    }

    ghost function NewMarked(): seq<char>
      reads this
    {
      NewMarks(hunk) + NewMarks(hunkAdds)
    }

    /** The unchanged lines after the last change. */
    ghost function TrailingContext(): nat
      reads this
    {
      if hunkRemoves + hunkAdds == [] then Trailing(hunk) else 0
    }

    /** The longest run of unchanged lines between two changes so far. */
    ghost function InnerContext(): nat
      reads this
    {
      if hunkRemoves + hunkAdds == [] || Leading(hunk) == |hunk| then Widest(hunk)
          else Wider(Widest(hunk), Trailing(hunk))
    }

    constructor (leftStart: nat, rightStart: nat)
      ensures InnerContext() == 0
      ensures Leading(hunk) == TrailingContext() == 0
      ensures Valid() && Old() == [] && New() == [] && !HasEdits()
      ensures OldMarked() == NewMarked() == []
      ensures this.leftStart == leftStart && this.rightStart == rightStart
    {
      this.leftStart, this.rightStart := leftStart, rightStart;
      adds, removes, common := 0, 0, 0;
      hunk, hunkAdds, hunkRemoves := [], [], [];
    }

    method PushLine(edit: char, line: string)
      requires Valid()
      modifies this
      ensures Valid()
      ensures Old() == old(Old()) + if edit == ' ' || edit == '-' then [line] else []
      ensures New() == old(New()) + if edit == ' ' || edit == '+' then [line] else []
      ensures OldMarked() == old(OldMarked()) + if edit == ' ' || edit == '-' then [edit] else []
      ensures NewMarked() == old(NewMarked()) + if edit == ' ' || edit == '+' then [edit] else []
      ensures HasEdits() == (old(HasEdits()) || edit == '-' || edit == '+')
      ensures Leading(hunk) == old(Leading(hunk)) + if edit == ' ' && !old(HasEdits()) then 1 else 0
      ensures edit == ' ' ==> TrailingContext() == old(TrailingContext()) + 1
      ensures edit == '-' || edit == '+' ==> TrailingContext() == 0
      ensures InnerContext() ==
              Wider(old(InnerContext()),
                    if (edit == '-' || edit == '+') && old(HasEdits()) then old(TrailingContext()) else 0)
    {
      hide Old, New, OldMarked, NewMarked, Valid, TrailingContext, InnerContext, Leading;
      if edit == ' ' {
        PushCommon(line);
      } else if edit == '-' {
        PushRemoved(line);
      } else if edit == '+' {
        PushAdded(line);
      }
    }

    method PushCommon(line: string)
      requires Valid()
      modifies this
      ensures Valid() && HasEdits() == old(HasEdits())
      ensures Old() == old(Old()) + [line] && New() == old(New()) + [line]
      ensures OldMarked() == old(OldMarked()) + [' '] && NewMarked() == old(NewMarked()) + [' ']
      ensures Leading(hunk) == old(Leading(hunk)) + if old(HasEdits()) then 0 else 1
      ensures TrailingContext() == old(TrailingContext()) + 1 && InnerContext() == old(InnerContext())
    {
      hide OldLines, NewLines, OldMarks, NewMarks, Leading, Trailing, Widest, Grouped, AllMarked;
      common := common + 1;
      FlushEdits();
      GroupedSnoc(hunk, Line(' ', line));
      LinesOfSnoc(hunk, Line(' ', line));
      MarksOfSnoc(hunk, Line(' ', line));
      RunsOfSnoc(hunk, Line(' ', line));
      WidestOfSnoc(hunk, Line(' ', line));
      hunk := hunk + [Line(' ', line)];
      LinesOfNone();
      NoneMarked('+');
      NoneMarked('-');
    }

    method PushRemoved(line: string)
      requires Valid()
      modifies this`removes, this`hunkRemoves
      ensures Valid() && HasEdits()
      ensures Old() == old(Old()) + [line] && New() == old(New())
      ensures OldMarked() == old(OldMarked()) + ['-'] && NewMarked() == old(NewMarked())
      ensures TrailingContext() == 0
      ensures InnerContext() == Wider(old(InnerContext()), if old(HasEdits()) then old(TrailingContext()) else 0)
    {
      hide OldLines, NewLines, OldMarks, NewMarks, Leading, Trailing, Widest, Grouped, AllMarked;
      removes := removes + 1;
      LinesOfSnoc(hunkRemoves, Line('-', line));
      MarksOfSnoc(hunkRemoves, Line('-', line));
      MarkedSnoc(hunkRemoves, Line('-', line));
      hunkRemoves := hunkRemoves + [Line('-', line)];
    }

    method PushAdded(line: string)
      requires Valid()
      modifies this`adds, this`hunkAdds
      ensures Valid() && HasEdits()
      ensures Old() == old(Old()) && New() == old(New()) + [line]
      ensures OldMarked() == old(OldMarked()) && NewMarked() == old(NewMarked()) + ['+']
      ensures TrailingContext() == 0
      ensures InnerContext() == Wider(old(InnerContext()), if old(HasEdits()) then old(TrailingContext()) else 0)
    {
      hide OldLines, NewLines, OldMarks, NewMarks, Leading, Trailing, Widest, Grouped, AllMarked;
      adds := adds + 1;
      LinesOfSnoc(hunkAdds, Line('+', line));
      MarksOfSnoc(hunkAdds, Line('+', line));
      MarkedSnoc(hunkAdds, Line('+', line));
      hunkAdds := hunkAdds + [Line('+', line)];
    }

    method PrintTo() returns (printed: PrintedHunk)
      requires Valid()
      modifies this
      ensures Grouped(printed.lines)
      ensures Widest(printed.lines) == old(InnerContext())
      ensures Leading(printed.lines) == old(Leading(hunk)) && Trailing(printed.lines) == old(TrailingContext())
      ensures OldLines(printed.lines) == old(Old()) && NewLines(printed.lines) == old(New())
      ensures OldMarks(printed.lines) == old(OldMarked()) && NewMarks(printed.lines) == old(NewMarked())
      ensures old(HasEdits()) ==> Leading(printed.lines) < |printed.lines|
      ensures printed.leftRange == if old(removes) > 0 then Some(Range(leftStart, |old(Old())|)) else None
      ensures old(HasEdits()) ==> printed.leftRange.Some? || printed.rightRange.Some?
      ensures printed.rightRange == if old(adds) > 0 then Some(Range(rightStart, |old(New())|)) else None
    {
      var leftRange := if removes > 0 then Some(Range(leftStart, removes + common)) else None;
      var rightRange := if adds > 0 then Some(Range(rightStart, adds + common)) else None;
      FlushEdits();
      printed := PrintedHunk(leftRange, rightRange, hunk);
    }

    predicate HasEdits()
      reads this
    {
      adds > 0 || removes > 0
    }

    /** Moves the pending lines over, all removals before all additions. */
    method FlushEdits()
      requires AllMarked(hunkAdds, '+') && AllMarked(hunkRemoves, '-')
      requires Grouped(hunk) && (hunk != [] ==> hunk[|hunk| - 1].mark == ' ')
      modifies this`hunk, this`hunkAdds, this`hunkRemoves
      ensures hunkAdds == hunkRemoves == [] && Grouped(hunk)
      ensures OldLines(hunk) == old(Old()) && NewLines(hunk) == old(New())
      ensures OldMarks(hunk) == old(OldMarked()) && NewMarks(hunk) == old(NewMarked())
      ensures Widest(hunk) == old(InnerContext())
      ensures Leading(hunk) == old(Leading(hunk)) && Trailing(hunk) == old(TrailingContext())
      ensures old(hunkRemoves + hunkAdds == []) ==> hunk == old(hunk)
      ensures old(hunkRemoves + hunkAdds != []) ==> Leading(hunk) < |hunk|
    {
      FlushedRuns(hunk, hunkRemoves, hunkAdds);
      FlushedWidest(hunk, hunkRemoves, hunkAdds);
      FlushedLines(hunk, hunkRemoves, hunkAdds);
      FlushedMarks(hunk, hunkRemoves, hunkAdds);
      FlushedIsGrouped(hunk, hunkRemoves, hunkAdds);
      hide OldLines, NewLines, OldMarks, NewMarks, Grouped, Leading, Trailing, Widest;
      hunk := hunk + hunkRemoves;
      hunkRemoves := [];
      hunk := hunk + hunkAdds;
      hunkAdds := [];
    }
  }

  lemma {:induction false} WithoutConcat(drop: char, a: seq<Line>, b: seq<Line>)
    ensures Without(drop, a + b) == Without(drop, a) + Without(drop, b)
  {
    if a == [] {
      assert a + b == b;
    } else {
      hide Kept;
      calc {
        Without(drop, a + b);
        { assert (a + b)[0] == a[0] && (a + b)[1..] == a[1..] + b; }
        Kept(drop, a[0]) + Without(drop, a[1..] + b);
        { WithoutConcat(drop, a[1..], b); }
        Kept(drop, a[0]) + (Without(drop, a[1..]) + Without(drop, b));
        (Kept(drop, a[0]) + Without(drop, a[1..])) + Without(drop, b);
        Without(drop, a) + Without(drop, b);
      }
    }
  }

  lemma {:induction false} WithoutAll(drop: char, lines: seq<Line>)
    requires forall k :: 0 <= k < |lines| ==> lines[k].mark == drop
    ensures Without(drop, lines) == []
  {
    if lines != [] {
      WithoutAll(drop, lines[1..]);
    }
  }

  lemma GroupedSnoc(lines: seq<Line>, last: Line)
    requires Grouped(lines) && last.mark == ' '
    ensures Grouped(lines + [last])
  {
  }

  lemma LinesOfSnoc(lines: seq<Line>, last: Line)
    ensures OldLines(lines + [last]) == OldLines(lines) + if last.mark != '+' then [last.text] else []
    ensures NewLines(lines + [last]) == NewLines(lines) + if last.mark != '-' then [last.text] else []
  {
    WithoutConcat('+', lines, [last]);
    WithoutConcat('-', lines, [last]);
    WithoutOne('+', last);
    WithoutOne('-', last);
    hide Without;
  }

  lemma WithoutOne(drop: char, line: Line)
    ensures Without(drop, [line]) == if line.mark != drop then [line.text] else []
  {
  }

  lemma {:induction false} MarksConcat(drop: char, a: seq<Line>, b: seq<Line>)
    ensures Marks(drop, a + b) == Marks(drop, a) + Marks(drop, b)
  {
    hide MarkKept;
    if a == [] {
      assert a + b == b;
    } else {
      MarksConcat(drop, a[1..], b);
      assert (a + b)[1..] == a[1..] + b;
      assert Marks(drop, a + b) == MarkKept(drop, a[0]) + (Marks(drop, a[1..]) + Marks(drop, b));
    }
  }

  lemma MarksOfOne(drop: char, line: Line)
    ensures Marks(drop, [line]) == MarkKept(drop, line)
  {
  }

  lemma MarksOfSnoc(lines: seq<Line>, last: Line)
    ensures OldMarks(lines + [last]) == OldMarks(lines) + if last.mark != '+' then [last.mark] else []
    ensures NewMarks(lines + [last]) == NewMarks(lines) + if last.mark != '-' then [last.mark] else []
  {
    MarksConcat('+', lines, [last]);
    MarksConcat('-', lines, [last]);
    MarksOfOne('+', last);
    MarksOfOne('-', last);
    hide Marks;
  }

  lemma {:induction false} NoMarks(drop: char, lines: seq<Line>)
    requires forall k :: 0 <= k < |lines| ==> lines[k].mark == drop
    ensures Marks(drop, lines) == []
  {
    if lines != [] {
      NoMarks(drop, lines[1..]);
    }
  }

  lemma FlushedMarks(lines: seq<Line>, removes: seq<Line>, adds: seq<Line>)
    requires AllMarked(removes, '-') && AllMarked(adds, '+')
    ensures OldMarks(lines + removes + adds) == OldMarks(lines) + OldMarks(removes)
    ensures NewMarks(lines + removes + adds) == NewMarks(lines) + NewMarks(adds)
  {
    NoMarks('+', adds);
    NoMarks('-', removes);
    hide Marks, AllMarked;
    FlushedMarksOf('+', lines, removes, adds);
    FlushedMarksOf('-', lines, removes, adds);
    assert OldMarks(lines) + OldMarks(removes) + [] == OldMarks(lines) + OldMarks(removes);
    assert NewMarks(lines) + [] == NewMarks(lines);
  }

  lemma FlushedMarksOf(drop: char, lines: seq<Line>, removes: seq<Line>, adds: seq<Line>)
    ensures Marks(drop, lines + removes + adds) == Marks(drop, lines) + Marks(drop, removes) + Marks(drop, adds)
  {
    hide Marks;
    MarksConcat(drop, lines + removes, adds);
    MarksConcat(drop, lines, removes);
  }

  lemma LinesOfNone()
    ensures OldLines([]) == NewLines([]) == []
    ensures OldMarks([]) == NewMarks([]) == []
  {
  }

  lemma FlushedLines(lines: seq<Line>, removes: seq<Line>, adds: seq<Line>)
    requires forall k :: 0 <= k < |removes| ==> removes[k].mark == '-'
    requires forall k :: 0 <= k < |adds| ==> adds[k].mark == '+'
    ensures OldLines(lines + removes + adds) == OldLines(lines) + OldLines(removes)
    ensures NewLines(lines + removes + adds) == NewLines(lines) + NewLines(adds)
  {
    WithoutAll('+', adds);
    WithoutAll('-', removes);
    hide Without;
    WithoutConcat('+', lines + removes, adds);
    WithoutConcat('+', lines, removes);
    WithoutConcat('-', lines + removes, adds);
    WithoutConcat('-', lines, removes);
    assert OldLines(lines + removes) + [] == OldLines(lines + removes);
    assert NewLines(lines) + [] == NewLines(lines);
  }

  lemma {:induction false} LeadingOfConcat(a: seq<Line>, b: seq<Line>)
    ensures Leading(a + b) == if Leading(a) < |a| then Leading(a) else |a| + Leading(b)
  {
    if a == [] {
      assert a + b == b;
    } else {
      LeadingOfConcat(a[1..], b);
      assert (a + b)[1..] == a[1..] + b;
    }
  }

  lemma RunsOfSnoc(lines: seq<Line>, last: Line)
    requires last.mark == ' '
    ensures Leading(lines + [last]) == Leading(lines) + if Leading(lines) < |lines| then 0 else 1
    ensures Trailing(lines + [last]) == Trailing(lines) + 1
  {
    LeadingOfConcat(lines, [last]);
    assert (lines + [last])[..|lines|] == lines;
  }

  lemma FlushedRuns(lines: seq<Line>, removes: seq<Line>, adds: seq<Line>)
    requires forall k :: 0 <= k < |removes| ==> removes[k].mark == '-'
    requires forall k :: 0 <= k < |adds| ==> adds[k].mark == '+'
    ensures var all := lines + removes + adds;
            if removes + adds == [] then all == lines
            else Leading(all) == Leading(lines) < |all| && Trailing(all) == 0
  {
    assert lines + removes + adds == lines + (removes + adds);
    LeadingOfConcat(lines, removes + adds);
  }

  lemma WidestOfSnoc(lines: seq<Line>, last: Line)
    requires last.mark == ' '
    ensures Widest(lines + [last]) == Widest(lines)
  {
    assert (lines + [last])[..|lines|] == lines;
  }

  /** Changes after some lines close the run at their end, if there was a change before. */
  lemma {:induction false} WidestWithChanges(lines: seq<Line>, changes: seq<Line>)
    requires changes != [] && forall k :: 0 <= k < |changes| ==> changes[k].mark != ' '
    ensures Widest(lines + changes) ==
            if Leading(lines) == |lines| then Widest(lines) else Wider(Widest(lines), Trailing(lines))
  {
    var n := |changes| - 1;
    var all, front := lines + changes, lines + changes[..n];
    assert all[..|all| - 1] == front;
    LeadingOfConcat(lines, changes[..n]);
    if n > 0 {
      WidestWithChanges(lines, changes[..n]);
      assert front[|front| - 1] == changes[n - 1];
    } else {
      assert front == lines;
    }
  }

  lemma FlushedWidest(lines: seq<Line>, removes: seq<Line>, adds: seq<Line>)
    requires forall k :: 0 <= k < |removes| ==> removes[k].mark == '-'
    requires forall k :: 0 <= k < |adds| ==> adds[k].mark == '+'
    ensures Widest(lines + removes + adds) ==
            if removes + adds == [] || Leading(lines) == |lines| then Widest(lines)
                else Wider(Widest(lines), Trailing(lines))
  {
    assert lines + removes + adds == lines + (removes + adds);
    if removes + adds == [] {
      assert lines + (removes + adds) == lines;
    } else {
      WidestWithChanges(lines, removes + adds);
    }
  }

  lemma FlushedIsGrouped(lines: seq<Line>, removes: seq<Line>, adds: seq<Line>)
    requires forall k :: 0 <= k < |removes| ==> removes[k].mark == '-'
    requires forall k :: 0 <= k < |adds| ==> adds[k].mark == '+'
    requires Grouped(lines) && (lines != [] ==> lines[|lines| - 1].mark == ' ')
    ensures Grouped(lines + removes + adds)
  {
  }

  // ----- The diff -----

  /** The next `n` edits are matches, as far as there are any. */
  ghost predicate MatchesAhead(edits: seq<EditType>, i: nat, n: nat) {
    forall k :: i <= k < i + n && k < |edits| ==> edits[k] == Match
  }

  /** Skips to the next edit that is not a match. */
  method SkipMatches(left: seq<string>, right: seq<string>, edits: seq<EditType>, i0: nat, l0: nat, r0: nat)
    returns (i: nat, l: nat, r: nat)
    requires i0 <= |edits| && l0 <= |left| && r0 <= |right|
    requires Leads(edits[i0..], left, right, l0, r0, |left|, |right|)
    ensures i0 <= i <= |edits| && l <= |left| && r <= |right|
    ensures l - l0 == r - r0 == i - i0 && left[l0..l] == right[r0..r]
    ensures Leads(edits[i..], left, right, l, r, |left|, |right|)
    ensures forall k :: i0 <= k < i ==> edits[k] == Match
    ensures i < |edits| ==> edits[i] != Match
  {
    hide Leads;
    i, l, r := i0, l0, r0;
    while i < |edits| && edits[i] == Match
      invariant i0 <= i <= |edits| && l <= |left| && r <= |right|
      invariant l - l0 == r - r0 == i - i0 && left[l0..l] == right[r0..r]
      invariant Leads(edits[i..], left, right, l, r, |left|, |right|)
      invariant forall k :: i0 <= k < i ==> edits[k] == Match
    {
      LeadsNext(edits, i, left, right, l, r);
      SliceSnoc(left, l0, l);
      SliceSnoc(right, r0, r);
      l := l + 1;
      r := r + 1;
      i := i + 1;
    }
  }

  lemma SliceSnoc<T>(s: seq<T>, a: nat, b: nat)
    requires a <= b < |s|
    ensures s[a..b + 1] == s[a..b] + [s[b]]
  {
  }

  lemma LeadsNext(edits: seq<EditType>, i: nat, left: seq<string>, right: seq<string>, l: nat, r: nat)
    requires i < |edits| && Leads(edits[i..], left, right, l, r, |left|, |right|)
    ensures l + Step(edits[i].TakesLeft()) <= |left| && r + Step(edits[i].TakesRight()) <= |right|
    ensures edits[i] == Match ==> left[l] == right[r]
    ensures Leads(edits[i + 1..], left, right, l + Step(edits[i].TakesLeft()), r + Step(edits[i].TakesRight()),
            |left|, |right|)
  {
    assert edits[i..][1..] == edits[i + 1..];
    LeadsForward(edits[i + 1..], left, right, l + Step(edits[i].TakesLeft()), r + Step(edits[i].TakesRight()), |left|,
        |right|);
  }

  /** Starts a hunk with the `prefix` unchanged lines before position (l, r). */
  method StartHunk(left: seq<string>, right: seq<string>, l: nat, r: nat, prefix: nat) returns (hunk: Hunk)
    requires prefix <= l <= |left| && prefix <= r <= |right|
    ensures fresh(hunk) && hunk.Valid() && !hunk.HasEdits()
    ensures hunk.leftStart == l - prefix + 1 && hunk.rightStart == r - prefix + 1
    ensures hunk.Old() == hunk.New() == left[l - prefix..l]
    ensures Leading(hunk.hunk) == hunk.TrailingContext() == prefix && hunk.InnerContext() == 0
    ensures hunk.OldMarked() == hunk.NewMarked() == Blank(prefix)
  {
    hide OldLines, NewLines, Leading, Trailing, Hunk.Old, Hunk.New, Hunk.OldMarked, Hunk.NewMarked, Hunk.Valid,
         Hunk.TrailingContext, Hunk.HasEdits, Hunk.InnerContext;
    hunk := new Hunk(l - prefix + 1, r - prefix + 1);
    for i := prefix downto 0
      invariant fresh(hunk) && hunk.Valid() && !hunk.HasEdits()
      invariant hunk.Old() == hunk.New() == left[l - prefix..l - i]
      invariant Leading(hunk.hunk) == hunk.TrailingContext() == prefix - i && hunk.InnerContext() == 0
      invariant hunk.OldMarked() == hunk.NewMarked() == Blank(prefix - i)
    {
      hunk.PushLine(' ', left[l - i - 1]);
      SliceSnoc(left, l - prefix, l - i - 1);
    }
  }

  /** Whether, after a long enough run of unchanged lines, the next change is too
      far away to belong to the same hunk. */
  method NextEditIsFar(edits: seq<EditType>, context: nat, i: nat) returns (far: bool)
    requires i < |edits|
    ensures far <==> MatchesAhead(edits, i, context)
  {
    var it := i;
    while it < |edits| && edits[it] == Match
      invariant i <= it <= |edits|
      invariant forall k :: i <= k < it ==> edits[k] == Match
    {
      it := it + 1;
    }
    far := it == |edits| || it - i >= context;
  }

  /** The edits from `i0`, at (l0, r0), up to `i`, at (l, r), are in the hunk; beyond
      `oldBase` and `newBase` it holds the lines between the two positions, and the
      last `nSuffix` of these edits are matches. */
  ghost predicate Taken(hunk: Hunk, edits: seq<EditType>, left: seq<string>, right: seq<string>,
                        i0: nat, l0: nat, r0: nat, oldBase: seq<string>, newBase: seq<string>, leading: nat,
                        i: nat, l: nat, r: nat, nSuffix: nat)
    reads hunk
  {
    && i0 <= i <= |edits| && l0 <= l <= |left| && r0 <= r <= |right|
    && Leads(edits[i..], left, right, l, r, |left|, |right|)
    && hunk.Valid() && (hunk.HasEdits() <==> i0 < i)
    && hunk.Old() == oldBase + left[l0..l] && hunk.New() == newBase + right[r0..r]
    && hunk.OldMarked() == Blank(|oldBase|) + LeftMarks(edits[i0..i])
    && hunk.NewMarked() == Blank(|newBase|) + RightMarks(edits[i0..i])
    && Leading(hunk.hunk) == leading
    && nSuffix <= l && nSuffix <= r
    && if i0 < i then hunk.TrailingContext() == nSuffix else l == l0 && r == r0 && nSuffix == 0
  }

  /** A hunk that was just started. */
  lemma NothingTaken(hunk: Hunk, edits: seq<EditType>, left: seq<string>, right: seq<string>, i: nat, l: nat, r: nat)
    requires i <= |edits| && l <= |left| && r <= |right| && Leads(edits[i..], left, right, l, r, |left|, |right|)
    requires hunk.Valid() && !hunk.HasEdits() && |hunk.Old()| == |hunk.New()|
    requires hunk.OldMarked() == hunk.NewMarked() == Blank(|hunk.Old()|)
    ensures Taken(hunk, edits, left, right, i, l, r, hunk.Old(), hunk.New(), Leading(hunk.hunk), i, l, r, 0)
  {
    hide Leads, OldLines, NewLines, Leading, Hunk.Old, Hunk.New, Hunk.OldMarked, Hunk.NewMarked, Hunk.Valid,
         Hunk.HasEdits, Blank;
    assert edits[i..i] == [] && left[l..l] == [] && right[r..r] == [];
  }

  /** What a filled hunk holds, that was started with `prefix` lines. */
  ghost predicate Holding(hunk: Hunk, edits: seq<EditType>, left: seq<string>, right: seq<string>, prefix: nat,
                          i0: nat, l0: nat, r0: nat, i: nat, l: nat, r: nat, nSuffix: nat)
    reads hunk
  {
    && prefix <= l0 <= l <= |left| && prefix <= r0 <= r <= |right| && i0 <= i <= |edits|
    && hunk.Valid() && hunk.HasEdits()
    && hunk.Old() == left[l0 - prefix..l0] + left[l0..l] && hunk.New() == left[l0 - prefix..l0] + right[r0..r]
    && hunk.OldMarked() == Blank(prefix) + LeftMarks(edits[i0..i])
    && hunk.NewMarked() == Blank(prefix) + RightMarks(edits[i0..i])
    && Leading(hunk.hunk) == prefix && hunk.TrailingContext() == nSuffix
    && hunk.leftStart == l0 - prefix + 1 && hunk.rightStart == r0 - prefix + 1
  }

  lemma TakenIsHeld(hunk: Hunk, edits: seq<EditType>, left: seq<string>, right: seq<string>, i0: nat, l0: nat, r0: nat,
                    base: seq<string>, prefix: nat, i: nat, l: nat, r: nat, nSuffix: nat)
    requires prefix <= r0 && prefix <= l0 <= |left| && base == left[l0 - prefix..l0] && |base| == prefix
    requires hunk.leftStart == l0 - prefix + 1 && hunk.rightStart == r0 - prefix + 1
    requires Taken(hunk, edits, left, right, i0, l0, r0, base, base, prefix, i, l, r, nSuffix) && hunk.HasEdits()
    ensures Holding(hunk, edits, left, right, prefix, i0, l0, r0, i, l, r, nSuffix)
    ensures i0 < i <= |edits| && l0 <= l <= |left| && r0 <= r <= |right|
    ensures nSuffix <= l && nSuffix <= r && Leads(edits[i..], left, right, l, r, |left|, |right|)
  {
    hide Leads, OldLines, NewLines, Leading, Hunk.Old, Hunk.New, Hunk.OldMarked, Hunk.NewMarked, Hunk.Valid,
         Hunk.TrailingContext, Hunk.HasEdits, Blank, LeftMarks, RightMarks;
  }

  lemma NothingIsTaken(hunk: Hunk, edits: seq<EditType>, left: seq<string>, right: seq<string>, i0: nat, l0: nat,
                       r0: nat, oldBase: seq<string>, newBase: seq<string>, leading: nat, i: nat, l: nat, r: nat,
                       nSuffix: nat)
    requires Taken(hunk, edits, left, right, i0, l0, r0, oldBase, newBase, leading, i, l, r, nSuffix)
    requires !hunk.HasEdits()
    ensures i == i0 && l == l0 && r == r0 && Leads(edits[i..], left, right, l, r, |left|, |right|)
  {
    hide Leads, OldLines, NewLines, Leading, Hunk.Old, Hunk.New, Hunk.OldMarked, Hunk.NewMarked, Hunk.Valid,
         Hunk.TrailingContext, Hunk.HasEdits, Blank, LeftMarks, RightMarks;
  }

  /** The printed form of such a hunk. */
  ghost predicate Prints(h: PrintedHunk, edits: seq<EditType>, left: seq<string>, right: seq<string>, prefix: nat,
                         i0: nat, l0: nat, r0: nat, i: nat, l: nat, r: nat, nSuffix: nat) {
    && prefix <= l0 <= l <= |left| && prefix <= r0 <= r <= |right| && i0 <= i <= |edits|
    && OldLines(h.lines) == left[l0 - prefix..l0] + left[l0..l]
    && NewLines(h.lines) == left[l0 - prefix..l0] + right[r0..r]
    && OldMarks(h.lines) == Blank(prefix) + LeftMarks(edits[i0..i])
    && NewMarks(h.lines) == Blank(prefix) + RightMarks(edits[i0..i])
    && (h.leftRange == None || h.leftRange == Some(Range(l0 - prefix + 1, |OldLines(h.lines)|)))
    && (h.rightRange == None || h.rightRange == Some(Range(r0 - prefix + 1, |NewLines(h.lines)|)))
    && (h.leftRange.Some? || h.rightRange.Some?)
    && Leading(h.lines) == prefix && Trailing(h.lines) == nSuffix && Grouped(h.lines) && HasChange(h)
  }

  method PrintHeld(hunk: Hunk, ghost edits: seq<EditType>, ghost left: seq<string>, ghost right: seq<string>,
                   ghost prefix: nat, ghost i0: nat, ghost l0: nat, ghost r0: nat, ghost i: nat, ghost l: nat,
                   ghost r: nat, ghost nSuffix: nat) returns (h: PrintedHunk)
    requires Holding(hunk, edits, left, right, prefix, i0, l0, r0, i, l, r, nSuffix)
    modifies hunk
    ensures Prints(h, edits, left, right, prefix, i0, l0, r0, i, l, r, nSuffix)
    ensures Widest(h.lines) == old(hunk.InnerContext())
  {
    hide OldLines, NewLines, OldMarks, NewMarks, LeftMarks, RightMarks, Blank, Leading, Trailing, Widest, Grouped,
         Hunk.Old, Hunk.New, Hunk.OldMarked, Hunk.NewMarked, Hunk.Valid, Hunk.TrailingContext, Hunk.InnerContext;
    h := hunk.PrintTo();
  }

  method TakeEdit(hunk: Hunk, edits: seq<EditType>, i: nat, left: seq<string>, right: seq<string>, l: nat, r: nat,
                  ghost i0: nat, ghost l0: nat, ghost r0: nat,
                  ghost oldBase: seq<string>, ghost newBase: seq<string>, ghost leading: nat, ghost nSuffix: nat)
    returns (l': nat, r': nat)
    requires Taken(hunk, edits, left, right, i0, l0, r0, oldBase, newBase, leading, i, l, r, nSuffix)
    requires i < |edits| && (i == i0 ==> edits[i] != Match)
    modifies hunk
    ensures Taken(hunk, edits, left, right, i0, l0, r0, oldBase, newBase, leading, i + 1, l', r',
                  if edits[i] == Match then nSuffix + 1 else 0)
    ensures hunk.InnerContext() == Wider(old(hunk.InnerContext()), if edits[i] == Match || i == i0 then 0 else nSuffix)
  {
    hide Leads, OldLines, NewLines, Leading, Trailing, Hunk.Old, Hunk.New, Hunk.OldMarked, Hunk.NewMarked, Hunk.Valid,
         Hunk.TrailingContext, Hunk.HasEdits, Hunk.InnerContext, LeftMarks, RightMarks, Blank;
    LeadsNext(edits, i, left, right, l, r);
    MarksNext(edits, i0, i);
    ThreePieces(Blank(|oldBase|), LeftMarks(edits[i0..i]), LeftMark(edits[i]));
    ThreePieces(Blank(|newBase|), RightMarks(edits[i0..i]), RightMark(edits[i]));
    var edit := edits[i];
    if edit == Match || edit == Remove || edit == Replace {
      hunk.PushLine(if edit == Match then ' ' else '-', left[l]);
    }
    if edit == Add || edit == Replace {
      hunk.PushLine('+', right[r]);
    }
    l' := l + Step(edit != Add);
    r' := r + Step(edit != Remove);
    SliceGrows(oldBase, left, l0, l, l');
    SliceGrows(newBase, right, r0, r, r');
  }

  lemma MarksNext(edits: seq<EditType>, i0: nat, i: nat)
    requires i0 <= i < |edits|
    ensures LeftMarks(edits[i0..i + 1]) == LeftMarks(edits[i0..i]) + LeftMark(edits[i])
    ensures RightMarks(edits[i0..i + 1]) == RightMarks(edits[i0..i]) + RightMark(edits[i])
  {
    hide LeftMark, RightMark;
    var e := edits[i0..i + 1];
    assert e[..|e| - 1] == edits[i0..i] && e[|e| - 1] == edits[i];
  }

  lemma SliceGrows<T>(base: seq<T>, s: seq<T>, a: nat, b: nat, c: nat)
    requires a <= b <= c <= |s|
    ensures base + s[a..b] + s[b..c] == base + s[a..c]
  {
    assert s[a..b] + s[b..c] == s[a..c];
  }

  lemma AheadEnd(edits: seq<EditType>, n: nat)
    ensures MatchesAhead(edits, |edits|, n)
  {
  }

  lemma AheadStep(edits: seq<EditType>, i: nat, n: nat)
    requires i < |edits|
    ensures edits[i] == Match && !MatchesAhead(edits, i, n) ==> !MatchesAhead(edits, i + 1, n)
    ensures n == 0 ==> MatchesAhead(edits, i, n)
  {
  }

  lemma AheadShrinks(edits: seq<EditType>, i: nat, n: nat)
    requires i < |edits|
    ensures edits[i] == Match && !MatchesAhead(edits, i, n) ==> n > 1 && !MatchesAhead(edits, i + 1, n - 1)
  {
  }

  /** Adds edits until enough unchanged lines follow or the input is over. */
  method FillHunk(left: seq<string>, right: seq<string>, edits: seq<EditType>, context: nat,
                  i0: nat, l0: nat, r0: nat, hunk: Hunk) returns (i: nat, l: nat, r: nat, ghost nSuffix: nat)
    requires Taken(hunk, edits, left, right, i0, l0, r0, hunk.Old(), hunk.New(), Leading(hunk.hunk), i0, l0, r0, 0)
    requires i0 <= |edits| && (i0 < |edits| ==> edits[i0] != Match) && hunk.InnerContext() == 0
    modifies hunk
    ensures hunk.InnerContext() == 0 || hunk.InnerContext() < 2 * context
    ensures Taken(hunk, edits, left, right, i0, l0, r0, old(hunk.Old()), old(hunk.New()), old(Leading(hunk.hunk)),
                  i, l, r, nSuffix)
    ensures i0 < i <==> i0 < |edits| && context > 0
    ensures i <= |edits| && MatchesAhead(edits, i, context)
    ensures if i < |edits| then nSuffix == context else nSuffix <= context
  {
    hide Taken, MatchesAhead, Leading, Leads, OldLines, NewLines, Hunk.Old, Hunk.New, Hunk.OldMarked, Hunk.NewMarked,
         Hunk.Valid, Hunk.HasEdits, Hunk.InnerContext;
    ghost var oldBase, newBase, leading := hunk.Old(), hunk.New(), Leading(hunk.hunk);
    var suffix := 0;
    i, l, r := i0, l0, r0;
    while i < |edits|
      invariant i0 <= i <= |edits|
      invariant Taken(hunk, edits, left, right, i0, l0, r0, oldBase, newBase, leading, i, l, r, suffix)
      invariant if i0 < i then context > 0 else suffix == 0
      invariant suffix <= context || !MatchesAhead(edits, i, context)
      invariant suffix <= context || (suffix < 2 * context && !MatchesAhead(edits, i, 2 * context - suffix))
      invariant hunk.InnerContext() == 0 || hunk.InnerContext() < 2 * context
    {
      AheadStep(edits, i, context);
      if suffix <= 2 * context {
        AheadShrinks(edits, i, 2 * context - suffix);
      }
      if suffix >= context {
        var far := NextEditIsFar(edits, context, i);
        if far {
          break;
        }
      }
      l, r := TakeEdit(hunk, edits, i, left, right, l, r, i0, l0, r0, oldBase, newBase, leading, suffix);
      suffix := if edits[i] == Match then suffix + 1 else 0;
      i := i + 1;
    }
    AheadEnd(edits, context);
    nSuffix := suffix;
  }

  method CreateUnifiedDiff(left: seq<string>, right: seq<string>, context: nat) returns (ss: seq<PrintedHunk>)
    ensures Patch(left, ss) == Some(right) <==> context > 0 || left == right
    ensures forall k :: 0 <= k < |ss| ==> Grouped(ss[k].lines)
    ensures ShowsContext(ss, context)
    ensures context > 0 ==> JoinsOverlapping(left, ss, context)
    ensures context > 0 ==> ShowsScript(left, right, Path(left, right, |left|, |right|), ss)
    ensures forall k :: 0 <= k < |ss| ==> HasChange(ss[k])
    ensures ss == [] <==> context == 0 || left == right
    ensures var script := Path(left, right, |left|, |right|);
            context > 0 ==> CountAll('-', ss) + CountAll('+', ss) == Edits(script) + Replaces(script)
  {
    hide Leads, Path, Cell, OldLines, NewLines, ApplyHunks, Patch, MatchesAhead, Grouped, Hunk.Old, Hunk.New,
         Hunk.OldMarked, Hunk.NewMarked, Hunk.Valid, Leading, Trailing, Widest, Hunk.TrailingContext,
         Hunk.InnerContext, Hunk.HasEdits, ShowsContext, JoinsOverlapping, Stands, ShowsScript, OldMarks, NewMarks,
         LeftMarks, RightMarks, Blank, Taken, Edits, Replaces, CountAll, Holding, Prints;
    var edits := CalculateOptimalEditsOfStrings(left, right);
    var l: nat, r: nat, i: nat := 0, 0, 0;
    ss := [];
    StandsAtStart(left, right, edits, context);
    while i < |edits|
      invariant i <= |edits| && Stands(left, right, edits, context, ss, i, l, r)
      decreases |edits| - i
    {
      ghost var i0, l0, r0 := i, l, r;
      StandsInTexts(left, right, edits, context, ss, i, l, r);
      i, l, r := SkipMatches(left, right, edits, i, l, r);
      ghost var i1, l1, r1 := i, l, r;
      var prefix := if l <= context then l else context;
      PrefixFits(left, right, edits, context, ss, i0, l0, r0, i, l, r, prefix);
      var hunk := StartHunk(left, right, l, r, prefix);
      NothingTaken(hunk, edits, left, right, i, l, r);
      ghost var base, nSuffix := hunk.Old(), 0;
      i, l, r, nSuffix := FillHunk(left, right, edits, context, i, l, r, hunk);
      if !hunk.HasEdits() {
        NothingIsTaken(hunk, edits, left, right, i1, l1, r1, base, base, prefix, i, l, r, nSuffix);
        NoHunkIsLeft(left, right, edits, context, ss, i0, l0, r0, i, l, r);
        WhatIsChanged(left, right, edits, context, ss);
        return;
      }
      TakenIsHeld(hunk, edits, left, right, i1, l1, r1, base, prefix, i, l, r, nSuffix);
      var printed := PrintHeld(hunk, edits, left, right, prefix, i1, l1, r1, i, l, r, nSuffix);
      HunkAdded(left, right, edits, context, ss, printed, i0, l0, r0, i1, l1, r1, prefix, i, l, r, nSuffix);
      ss := ss + [printed];
    }
    StandsAtEnd(left, right, edits, context, ss, i, l, r);
    WhatIsChanged(left, right, edits, context, ss);
  }

  /** Without context a change is lost. */
  method ChangeLostWithoutContext() returns (ss: seq<PrintedHunk>)
    ensures Patch(["a"], ss) != Some(["b"])
  {
    assert ["a"][0] != ["b"][0];
    ss := CreateUnifiedDiff(["a"], ["b"], 0);
  }

  /** After these hunks a reader stands at (l, r), before the i-th edit. */
  ghost predicate Stands(left: seq<string>, right: seq<string>, edits: seq<EditType>, context: nat,
                         ss: seq<PrintedHunk>,
                         i: nat, l: nat, r: nat) {
    && i <= |edits| && l <= |left| && r <= |right|
    && Leads(edits[i..], left, right, l, r, |left|, |right|)
    && ApplyHunks(left, ss) == Some(Progress(l, right[..r]))
    && (i > 0 ==> MatchesAhead(edits, i, context) && context > 0)
    && (0 < i < |edits| ==> context <= l && context <= r)
    && (i == 0 ==> l == r == 0 && ss == [])
    && ShowsMarks(left, ss, edits[..i])
    && (context == 0 ==> ss == [])
    && AreWellMade(ss, context, i < |edits|)
  }

  /** The hunks, with what comes before each, mark the elements as these edits do. */
  ghost predicate ShowsMarks(left: seq<string>, ss: seq<PrintedHunk>, e: seq<EditType>) {
    OldMarks(Shown(left, ss)) == LeftMarks(e) && NewMarks(Shown(left, ss)) == RightMarks(e)
  }

  lemma StandsAtStart(left: seq<string>, right: seq<string>, edits: seq<EditType>, context: nat)
    requires IsScript(edits, left, right)
    ensures Stands(left, right, edits, context, [], 0, 0, 0)
  {
    hide Leads, MatchesAhead, ApplyHunks;
    NothingPatched(left);
    NothingShown(context, 0 < |edits|);
    assert edits[0..] == edits && edits[..0] == [];
  }

  lemma StandsInTexts(left: seq<string>, right: seq<string>, edits: seq<EditType>, context: nat, ss: seq<PrintedHunk>,
                      i: nat, l: nat, r: nat)
    requires Stands(left, right, edits, context, ss, i, l, r)
    ensures i <= |edits| && l <= |left| && r <= |right|
    ensures Leads(edits[i..], left, right, l, r, |left|, |right|)
  {
    hide Leads, MatchesAhead, ApplyHunks, AreWellMade;
  }

  lemma StandsAtEnd(left: seq<string>, right: seq<string>, edits: seq<EditType>, context: nat, ss: seq<PrintedHunk>,
                    i: nat, l: nat, r: nat)
    requires Stands(left, right, edits, context, ss, i, l, r) && i == |edits|
    ensures Patch(left, ss) == Some(right)
    ensures context == 0 ==> left == right
    ensures ShowsContext(ss, context) && forall k :: 0 <= k < |ss| ==> Grouped(ss[k].lines) && HasChange(ss[k])
    ensures context > 0 ==> JoinsOverlapping(left, ss, context)
    ensures ShowsScript(left, right, edits, ss)
    ensures ApplyHunks(left, ss).Some? && (context == 0 ==> ss == [])
  {
    hide MatchesAhead, ApplyHunks, AreWellMade, ShowsContext, JoinsOverlapping, Grouped, ShowsScript, ShowsMarks,
         HasChange;
    WellMadeShows(left, ss, context, false);
    assert edits[i..] == [];
    RestIsShown(left, right, edits, ss, i, l, r);
    OnlyMatchesLeft(left, right, edits[i..], ss, l, r, l, r);
    NothingPatched(left);
  }

  /** Nothing but matches is left, or hunks without context are not printed. */
  lemma NoHunkIsLeft(left: seq<string>, right: seq<string>, edits: seq<EditType>, context: nat, ss: seq<PrintedHunk>,
                     i0: nat, l0: nat, r0: nat, i: nat, l: nat, r: nat)
    requires Stands(left, right, edits, context, ss, i0, l0, r0) && i0 < |edits|
    requires i0 <= i <= |edits| && l0 <= l <= |left| && r0 <= r <= |right| && left[l0..l] == right[r0..r]
    requires l - l0 == r - r0 == i - i0 && forall k :: i0 <= k < i ==> edits[k] == Match
    requires Leads(edits[i..], left, right, l, r, |left|, |right|)
    requires i == |edits| || context == 0
    requires i < |edits| ==> edits[i] != Match
    ensures Patch(left, ss) == Some(right) <==> context > 0 || left == right
    ensures ShowsContext(ss, context) && forall k :: 0 <= k < |ss| ==> Grouped(ss[k].lines) && HasChange(ss[k])
    ensures context > 0 ==> JoinsOverlapping(left, ss, context)
    ensures context > 0 ==> ShowsScript(left, right, edits, ss)
    ensures ApplyHunks(left, ss).Some? && (context == 0 ==> ss == [])
  {
    hide MatchesAhead, AreWellMade, ShowsContext, JoinsOverlapping, Grouped, ApplyHunks, Patch, Leads, ShowsScript,
         ShowsMarks, HasChange;
    WellMadeShows(left, ss, context, true);
    NothingPatched(left);
    if context > 0 {
      assert edits[i..] == [];
      OnlyMatchesLeft(left, right, edits[i..], ss, l0, r0, l, r);
      NothingLeads(left, right, l, r);
      assert left[l0..] == left[l0..l] == right[r0..];
      RestIsShown(left, right, edits, ss, i0, l0, r0);
    }
  }

  /** A printed hunk takes the reader on. */
  lemma HunkAdded(left: seq<string>, right: seq<string>, edits: seq<EditType>, context: nat, ss: seq<PrintedHunk>,
                  h: PrintedHunk,
                  i0: nat, l0: nat, r0: nat, i1: nat, l1: nat, r1: nat, prefix: nat, i: nat, l: nat, r: nat,
                      nSuffix: nat)
    requires Stands(left, right, edits, context, ss, i0, l0, r0) && i0 < |edits| && context > 0
    requires i0 <= i1 < i <= |edits| && l0 <= l1 <= l <= |left| && r0 <= r1 <= r <= |right|
    requires l1 - l0 == r1 - r0 == i1 - i0 && left[l0..l1] == right[r0..r1]
    requires prefix == (if l1 <= context then l1 else context) && prefix <= l1 - l0
    requires Leads(edits[i..], left, right, l, r, |left|, |right|)
    requires MatchesAhead(edits, i, context) && nSuffix <= context && nSuffix <= l && nSuffix <= r
    requires i < |edits| ==> nSuffix == context
    requires Prints(h, edits, left, right, prefix, i1, l1, r1, i, l, r, nSuffix)
    requires Widest(h.lines) == 0 || Widest(h.lines) < 2 * context
    requires forall k :: i0 <= k < i1 ==> edits[k] == Match
    ensures Stands(left, right, edits, context, ss + [h], i, l, r)
  {
    hide Leads, OldLines, NewLines, ApplyHunks, MatchesAhead, Grouped, Leading, Trailing, Widest, AreWellMade,
         OldMarks, NewMarks, ShowsMarks, HasChange, Blank, LeftMarks, RightMarks;
    HunkApplies(left, right, ss, h, l0, r0, l1, r1, prefix, l, r);
    HunkIsShown(left, right, edits, ss, h, i0, l0, r0, i1, l1, r1, prefix, i, l, r);
    HunkIsWellMade(ss, h, context, i < |edits|);
  }

  ghost predicate HasChange(h: PrintedHunk) {
    Leading(h.lines) < |h.lines|
  }

  /** The hunks so far are grouped, join what overlaps and show their context, the last
      one too if there is `more` to come. */
  ghost predicate AreWellMade(ss: seq<PrintedHunk>, context: nat, more: bool) {
    && (forall k :: 0 <= k < |ss| ==> Grouped(ss[k].lines) && (context > 0 ==> Widest(ss[k].lines) < 2 * context))
    && (forall k :: 0 <= k < |ss| ==> HasChange(ss[k]))
    && (more ==> EachShowsContext(ss, context))
    && ShowsContext(ss, context)
  }

  /** The unchanged lines put before the first change of a hunk were all skipped
      over since the last hunk, unless there is no further change. */
  lemma PrefixFits(left: seq<string>, right: seq<string>, edits: seq<EditType>, context: nat, ss: seq<PrintedHunk>,
                   i0: nat, l0: nat, r0: nat, i: nat, l: nat, r: nat, prefix: nat)
    requires Stands(left, right, edits, context, ss, i0, l0, r0) && i0 < |edits|
    requires i0 <= i <= |edits| && l - l0 == r - r0 == i - i0 && l0 <= l && r0 <= r
    requires prefix == if l <= context then l else context
    requires i < |edits| ==> edits[i] != Match
    ensures prefix <= l && prefix <= r && (i < |edits| ==> prefix <= l - l0)
  {
    hide Leads, ApplyHunks, AreWellMade;
  }

  lemma NothingShown(context: nat, more: bool)
    ensures AreWellMade([], context, more)
  {
  }

  lemma HunkIsWellMade(ss: seq<PrintedHunk>, h: PrintedHunk, context: nat, more: bool)
    requires AreWellMade(ss, context, true) && Grouped(h.lines) && HasChange(h)
    requires Widest(h.lines) == 0 || Widest(h.lines) < 2 * context
    requires Leading(h.lines) <= context && Trailing(h.lines) <= context
    requires Leading(h.lines) < context ==> ss == [] && StartsAtLineOne(h)
    requires more ==> Trailing(h.lines) == context
    ensures AreWellMade(ss + [h], context, more)
  {
    hide Leading, Trailing, Widest, Grouped, HasChange;
  }

  lemma WellMadeShows(left: seq<string>, ss: seq<PrintedHunk>, context: nat, more: bool)
    requires AreWellMade(ss, context, more) && ApplyHunks(left, ss).Some?
    ensures ShowsContext(ss, context) && forall k :: 0 <= k < |ss| ==> Grouped(ss[k].lines) && HasChange(ss[k])
    ensures context > 0 ==> JoinsOverlapping(left, ss, context)
  {
    hide Leading, Trailing, Widest, Grouped, ApplyHunks, Gap, HasChange;
    forall k | 0 < k < |ss|
      ensures Gap(left, ss, k) >= 2 * context
    {
      HunksKeepApart(left, ss, context, k);
    }
  }

  /** A reader who can apply all hunks can apply the first ones. */
  lemma {:induction false} FirstHunksApply(left: seq<string>, ss: seq<PrintedHunk>, k: nat)
    requires k <= |ss| && ApplyHunks(left, ss).Some?
    ensures ApplyHunks(left, ss[..k]).Some?
  {
    hide ApplyHunk;
    if k == |ss| {
      assert ss[..k] == ss;
    } else {
      var front := ss[..|ss| - 1];
      FirstHunksApply(left, front, k);
      assert front[..k] == ss[..k];
    }
  }

  /** Two neighbouring hunks show the full context on the sides that face each other, and
      do not overlap. */
  lemma HunksKeepApart(left: seq<string>, ss: seq<PrintedHunk>, context: nat, k: nat)
    requires 0 < k < |ss| && ShowsContext(ss, context) && ApplyHunks(left, ss).Some?
    ensures Gap(left, ss, k) >= 2 * context
  {
    hide Leading, Trailing, OldLines, NewLines;
    FirstHunksApply(left, ss, k + 1);
    assert ss[..k + 1][..k] == ss[..k];
    var before := ApplyHunks(left, ss[..k]).value;
    assert ApplyHunks(left, ss[..k + 1]) == ApplyHunk(left, before, ss[k]);
  }

  // ----- What the whole diff shows -----

  lemma MarksOfEdits(e: seq<EditType>, m: EditType)
    ensures LeftMarks(e + [m]) == LeftMarks(e) + LeftMark(m)
    ensures RightMarks(e + [m]) == RightMarks(e) + RightMark(m)
  {
    hide LeftMark, RightMark;
    assert (e + [m])[..|e|] == e;
  }

  lemma {:induction false} LeftMarksConcat(e: seq<EditType>, f: seq<EditType>)
    ensures LeftMarks(e + f) == LeftMarks(e) + LeftMarks(f)
    ensures RightMarks(e + f) == RightMarks(e) + RightMarks(f)
  {
    hide LeftMarks, RightMarks, LeftMark, RightMark;
    if f == [] {
      assert e + f == e;
      NoEditsNoMarks();
    } else {
      var n := |f| - 1;
      var m := f[n];
      LeftMarksConcat(e, f[..n]);
      assert e + f == (e + f[..n]) + [m] && f == f[..n] + [m];
      MarksOfEdits(e + f[..n], m);
      MarksOfEdits(f[..n], m);
      ThreePieces(LeftMarks(e), LeftMarks(f[..n]), LeftMark(m));
      ThreePieces(RightMarks(e), RightMarks(f[..n]), RightMark(m));
    }
  }

  lemma NoEditsNoMarks()
    ensures LeftMarks([]) == RightMarks([]) == []
  {
  }

  lemma ThreePieces<T>(a: seq<T>, b: seq<T>, c: seq<T>)
    ensures a + b + c == a + (b + c)
  {
  }

  lemma {:induction false} MatchesAreBlank(e: seq<EditType>)
    requires forall k :: 0 <= k < |e| ==> e[k] == Match
    ensures LeftMarks(e) == RightMarks(e) == Blank(|e|)
  {
    if e != [] {
      MatchesAreBlank(e[..|e| - 1]);
    }
  }

  lemma {:induction false} UnchangedLines(drop: char, texts: seq<string>)
    requires drop != ' '
    ensures Without(drop, Unchanged(texts)) == texts && Marks(drop, Unchanged(texts)) == Blank(|texts|)
  {
    if texts != [] {
      UnchangedLines(drop, texts[1..]);
      assert Unchanged(texts)[1..] == Unchanged(texts[1..]);
      assert [texts[0]] + texts[1..] == texts;
      assert [' '] + Blank(|texts| - 1) == Blank(|texts|);
    }
  }

  /** What the hunks show of both texts is what a reader has gone through. */
  lemma {:induction false} ShownTexts(left: seq<string>, ss: seq<PrintedHunk>)
    requires ApplyHunks(left, ss).Some?
    ensures var at := ApplyHunks(left, ss).value;
            at.pos <= |left| && OldLines(Shown(left, ss)) == left[..at.pos] && NewLines(Shown(left, ss)) == at.out
  {
    if ss == [] {
      NothingPatched(left);
    } else {
      var front, last := ss[..|ss| - 1], ss[|ss| - 1];
      FrontApplies(left, ss);
      hide ApplyHunks, Shown, Without, ApplyHunk;
      ShownTexts(left, front);
      ShownOneMore(left, front, last);
      assert front + [last] == ss;
      OneHunkTexts(left, ApplyHunks(left, front).value, last);
    }
  }

  lemma FrontApplies(left: seq<string>, ss: seq<PrintedHunk>)
    requires ss != [] && ApplyHunks(left, ss).Some?
    ensures ApplyHunks(left, ss[..|ss| - 1]).Some?
  {
    hide ApplyHunk;
  }

  lemma ShownOneMore(left: seq<string>, ss: seq<PrintedHunk>, h: PrintedHunk)
    requires ApplyHunks(left, ss).Some?
    ensures var at, copied := ApplyHunks(left, ss).value, Unchanged(Copied(left, ApplyHunks(left, ss).value, h));
            && ApplyHunks(left, ss + [h]) == ApplyHunk(left, at, h)
            && Shown(left, ss + [h]) == Shown(left, ss) + copied + h.lines
            && OldLines(Shown(left, ss + [h])) ==
               OldLines(Shown(left, ss)) + Copied(left, at, h) + OldLines(h.lines)
            && NewLines(Shown(left, ss + [h])) ==
               NewLines(Shown(left, ss)) + Copied(left, at, h) + NewLines(h.lines)
            && OldMarks(Shown(left, ss + [h])) ==
               OldMarks(Shown(left, ss)) + Blank(|Copied(left, at, h)|) + OldMarks(h.lines)
            && NewMarks(Shown(left, ss + [h])) ==
               NewMarks(Shown(left, ss)) + Blank(|Copied(left, at, h)|) + NewMarks(h.lines)
  {
    var at := ApplyHunks(left, ss).value;
    var shown, copied := Shown(left, ss), Unchanged(Copied(left, at, h));
    assert (ss + [h])[..|ss|] == ss;
    assert Shown(left, ss + [h]) == shown + copied + h.lines;
    hide ApplyHunk, Copied, Unchanged, Without, Marks, Blank;
    UnchangedLines('+', Copied(left, at, h));
    UnchangedLines('-', Copied(left, at, h));
    WithoutThree('+', shown, copied, h.lines);
    WithoutThree('-', shown, copied, h.lines);
    hide Shown;
  }

  lemma WithoutThree(drop: char, a: seq<Line>, b: seq<Line>, c: seq<Line>)
    ensures Without(drop, a + b + c) == Without(drop, a) + Without(drop, b) + Without(drop, c)
    ensures Marks(drop, a + b + c) == Marks(drop, a) + Marks(drop, b) + Marks(drop, c)
  {
    hide Without, Marks;
    WithoutConcat(drop, a + b, c);
    WithoutConcat(drop, a, b);
    FlushedMarksOf(drop, a, b, c);
  }

  lemma OneHunkTexts(left: seq<string>, at: Progress, h: PrintedHunk)
    requires at.pos <= |left| && ApplyHunk(left, at, h).Some?
    ensures var after := ApplyHunk(left, at, h).value;
            && at.pos <= after.pos <= |left|
            && left[..after.pos] == left[..at.pos] + Copied(left, at, h) + OldLines(h.lines)
            && after.out == at.out + Copied(left, at, h) + NewLines(h.lines)
  {
    hide OldLines, NewLines;
    var after := ApplyHunk(left, at, h).value;
    var mid := after.pos - |OldLines(h.lines)|;
    assert left[..after.pos] == left[..at.pos] + left[at.pos..mid] + left[mid..after.pos];
  }

  /** A printed hunk, with the matches skipped before it, shows its edits. */
  lemma HunkIsShown(left: seq<string>, right: seq<string>, edits: seq<EditType>, ss: seq<PrintedHunk>, h: PrintedHunk,
                    i0: nat, l0: nat, r0: nat, i1: nat, l1: nat, r1: nat, prefix: nat, i: nat, l: nat, r: nat)
    requires i0 <= i1 <= i <= |edits| && l0 <= l1 <= l <= |left| && r0 <= r1 <= r <= |right|
    requires ApplyHunks(left, ss) == Some(Progress(l0, right[..r0]))
    requires ApplyHunks(left, ss + [h]) == Some(Progress(l, right[..r]))
    requires l1 - l0 == i1 - i0 && prefix <= l1 - l0 && |OldLines(h.lines)| == l - l1 + prefix
    requires forall k :: i0 <= k < i1 ==> edits[k] == Match
    requires OldMarks(h.lines) == Blank(prefix) + LeftMarks(edits[i1..i])
    requires NewMarks(h.lines) == Blank(prefix) + RightMarks(edits[i1..i])
    requires ShowsMarks(left, ss, edits[..i0])
    ensures ShowsMarks(left, ss + [h], edits[..i])
  {
    hide OldLines, NewLines, OldMarks, NewMarks, ApplyHunks, ApplyHunk, Shown, LeftMarks, RightMarks;
    ShownOneMore(left, ss, h);
    var skipped := edits[i0..i1];
    MatchesAreBlank(skipped);
    assert edits[..i] == edits[..i0] + skipped + edits[i1..i];
    LeftMarksConcat(edits[..i0] + skipped, edits[i1..i]);
    LeftMarksConcat(edits[..i0], skipped);
    BlankSum(l1 - l0 - prefix, prefix);
    assert |Copied(left, Progress(l0, right[..r0]), h)| == l1 - l0 - prefix;
    hide Copied, Blank;
    FourPieces(LeftMarks(edits[..i0]), Blank(l1 - l0 - prefix), Blank(prefix), LeftMarks(edits[i1..i]));
    FourPieces(RightMarks(edits[..i0]), Blank(l1 - l0 - prefix), Blank(prefix), RightMarks(edits[i1..i]));
  }

  lemma BlankSum(m: nat, n: nat)
    ensures Blank(m) + Blank(n) == Blank(m + n)
  {
  }

  lemma FourPieces<T>(a: seq<T>, b: seq<T>, c: seq<T>, d: seq<T>)
    ensures a + b + (c + d) == a + (b + c) + d
  {
  }

  lemma NothingLeads(left: seq<string>, right: seq<string>, l: nat, r: nat)
    requires Leads([], left, right, l, r, |left|, |right|)
    ensures l == |left| && r == |right|
  {
  }

  ghost function CountOf(mark: char, marks: seq<char>): nat {
    if marks == [] then 0 else Step(marks[0] == mark) + CountOf(mark, marks[1..])
  }

  lemma {:induction false} CountOfConcat(mark: char, a: seq<char>, b: seq<char>)
    ensures CountOf(mark, a + b) == CountOf(mark, a) + CountOf(mark, b)
  {
    if a == [] {
      assert a + b == b;
    } else {
      assert (a + b)[1..] == a[1..] + b;
      CountOfConcat(mark, a[1..], b);
    }
  }

  lemma {:induction false} CountConcat(mark: char, a: seq<Line>, b: seq<Line>)
    ensures Count(mark, a + b) == Count(mark, a) + Count(mark, b)
  {
    if a == [] {
      assert a + b == b;
    } else {
      assert (a + b)[1..] == a[1..] + b;
      CountConcat(mark, a[1..], b);
    }
  }

  lemma {:induction false} CountIsOfMarks(mark: char, drop: char, lines: seq<Line>)
    requires mark != drop
    ensures Count(mark, lines) == CountOf(mark, Marks(drop, lines))
  {
    if lines != [] {
      CountIsOfMarks(mark, drop, lines[1..]);
      CountOfConcat(mark, MarkKept(drop, lines[0]), Marks(drop, lines[1..]));
      CountOfOne(mark, lines[0].mark);
      hide Count, Marks, CountOf;
    }
  }

  lemma CountOfOne(mark: char, c: char)
    ensures CountOf(mark, [c]) == Step(c == mark) && CountOf(mark, []) == 0
  {
  }

  lemma {:induction false} UnchangedCount(mark: char, texts: seq<string>)
    requires mark != ' '
    ensures Count(mark, Unchanged(texts)) == 0
  {
    if texts != [] {
      UnchangedCount(mark, texts[1..]);
      assert Unchanged(texts)[1..] == Unchanged(texts[1..]);
    }
  }

  /** The hunks show all changes. */
  lemma {:induction false} ShownCount(mark: char, left: seq<string>, ss: seq<PrintedHunk>)
    requires mark != ' ' && ApplyHunks(left, ss).Some?
    ensures Count(mark, Shown(left, ss)) == CountAll(mark, ss)
  {
    if ss != [] {
      var front, last := ss[..|ss| - 1], ss[|ss| - 1];
      FrontApplies(left, ss);
      var copied := Unchanged(Copied(left, ApplyHunks(left, front).value, last));
      assert Shown(left, ss) == Shown(left, front) + copied + last.lines;
      hide ApplyHunks, ApplyHunk, Copied, Count, Shown, Unchanged;
      ShownCount(mark, left, front);
      UnchangedCount(mark, Copied(left, ApplyHunks(left, front).value, last));
      CountConcat(mark, Shown(left, front) + copied, last.lines);
      CountConcat(mark, Shown(left, front), copied);
    }
  }

  lemma {:induction false} ScriptCount(e: seq<EditType>)
    ensures CountOf('-', LeftMarks(e)) + CountOf('+', RightMarks(e)) == Edits(e) + Replaces(e)
  {
    if e != [] {
      var n := |e| - 1;
      var m := e[n];
      ScriptCount(e[..n]);
      CountOfConcat('-', LeftMarks(e[..n]), LeftMark(m));
      CountOfConcat('+', RightMarks(e[..n]), RightMark(m));
      CountOfOne('-', '-');
      CountOfOne('-', ' ');
      CountOfOne('+', '+');
      CountOfOne('+', ' ');
      hide CountOf;
    }
  }

  lemma {:induction false} HunksAreShown(left: seq<string>, ss: seq<PrintedHunk>, k: nat)
    requires k < |ss| && ApplyHunks(left, ss).Some?
    ensures forall line :: line in ss[k].lines ==> line in Shown(left, ss)
  {
    FrontApplies(left, ss);
    hide ApplyHunk, Copied, Unchanged;
    if k < |ss| - 1 {
      HunksAreShown(left, ss[..|ss| - 1], k);
    }
  }

  ghost predicate AllBlank(marks: seq<char>) {
    forall k :: 0 <= k < |marks| ==> marks[k] == ' '
  }

  lemma BlankParts(a: seq<char>, b: seq<char>)
    requires AllBlank(a + b)
    ensures AllBlank(a) && AllBlank(b)
  {
    assert forall k :: 0 <= k < |a| ==> (a + b)[k] == a[k];
    assert forall k :: 0 <= k < |b| ==> (a + b)[|a| + k] == b[k];
  }

  lemma {:induction false} BlankLines(lines: seq<Line>)
    requires AllBlank(Marks('+', lines)) && AllBlank(Marks('-', lines))
    ensures forall line :: line in lines ==> line.mark == ' '
  {
    if lines != [] {
      BlankParts(MarkKept('+', lines[0]), Marks('+', lines[1..]));
      BlankParts(MarkKept('-', lines[0]), Marks('-', lines[1..]));
      assert lines[0].mark != '+' ==> MarkKept('+', lines[0])[0] == lines[0].mark;
      assert lines[0].mark != '-' ==> MarkKept('-', lines[0])[0] == lines[0].mark;
      BlankLines(lines[1..]);
      hide Marks, AllBlank;
    }
  }

  lemma {:induction false} BlankLeading(lines: seq<Line>)
    requires forall line :: line in lines ==> line.mark == ' '
    ensures Leading(lines) == |lines|
  {
    if lines != [] {
      assert lines[0] in lines;
      BlankLeading(lines[1..]);
    }
  }

  lemma FirstHunkIsBlank(text: seq<string>, ss: seq<PrintedHunk>)
    requires ApplyHunks(text, ss).Some? && ss != []
    requires ShowsScript(text, text, Path(text, text, |text|, |text|), ss)
    ensures Leading(ss[0].lines) == |ss[0].lines|
  {
    hide ApplyHunks, ApplyHunk, Path, Leading;
    EqualTextsMatch(text, |text|);
    MatchesAreBlank(Path(text, text, |text|, |text|));
    hide Marks, LeftMarks, RightMarks, Shown;
    BlankLines(Expanded(text, ss));
    HunksAreShown(text, ss, 0);
    assert forall line :: line in ss[0].lines ==> line in Expanded(text, ss);
    BlankLeading(ss[0].lines);
  }

  /** Equal texts have no hunk. */
  lemma NoHunkForEqualTexts(text: seq<string>, ss: seq<PrintedHunk>)
    requires ApplyHunks(text, ss).Some? && forall k :: 0 <= k < |ss| ==> HasChange(ss[k])
    requires ShowsScript(text, text, Path(text, text, |text|, |text|), ss)
    ensures ss == []
  {
    hide ApplyHunks, Path, Leading, ShowsScript;
    if ss != [] {
      FirstHunkIsBlank(text, ss);
    }
  }

  lemma WhatIsChanged(left: seq<string>, right: seq<string>, e: seq<EditType>, context: nat, ss: seq<PrintedHunk>)
    requires e == Path(left, right, |left|, |right|)
    requires Patch(left, ss) == Some(right) <==> context > 0 || left == right
    requires ApplyHunks(left, ss).Some? && (context == 0 ==> ss == [])
    requires context > 0 ==> ShowsScript(left, right, e, ss)
    requires forall k :: 0 <= k < |ss| ==> HasChange(ss[k])
    ensures ss == [] <==> context == 0 || left == right
    ensures context > 0 ==> CountAll('-', ss) + CountAll('+', ss) == Edits(e) + Replaces(e)
  {
    hide ApplyHunks, Path, Edits, Replaces, HasChange, ShowsScript, Patch;
    NothingPatched(left);
    if context > 0 {
      if left == right {
        NoHunkForEqualTexts(left, ss);
      }
      ChangesAreCounted(left, right, e, ss);
    }
  }

  lemma ChangesAreCounted(left: seq<string>, right: seq<string>, e: seq<EditType>, ss: seq<PrintedHunk>)
    requires ApplyHunks(left, ss).Some? && ShowsScript(left, right, e, ss)
    ensures CountAll('-', ss) + CountAll('+', ss) == Edits(e) + Replaces(e)
  {
    hide ApplyHunks, Shown, Edits, Replaces, Count, CountOf, Marks, Without, LeftMarks, RightMarks, Unchanged, CountAll;
    var shown := Shown(left, ss);
    var at := ApplyHunks(left, ss).value;
    ScriptCount(e);
    ShownCount('-', left, ss);
    ShownCount('+', left, ss);
    CountIsOfMarks('-', '+', Expanded(left, ss));
    CountIsOfMarks('+', '-', Expanded(left, ss));
    RestCounts('-', left, ss);
    RestCounts('+', left, ss);
  }

  lemma RestCounts(mark: char, left: seq<string>, ss: seq<PrintedHunk>)
    requires mark != ' ' && ApplyHunks(left, ss).Some?
    ensures Count(mark, Expanded(left, ss)) == Count(mark, Shown(left, ss))
  {
    hide ApplyHunks, Shown, Count, Unchanged;
    var at := ApplyHunks(left, ss).value;
    ShownTexts(left, ss);
    CountConcat(mark, Shown(left, ss), Unchanged(left[at.pos..]));
    UnchangedCount(mark, left[at.pos..]);
  }

  /** Nothing but matches is left: the whole diff shows the script. */
  lemma RestIsShown(left: seq<string>, right: seq<string>, edits: seq<EditType>, ss: seq<PrintedHunk>,
                    i: nat, l: nat, r: nat)
    requires i <= |edits| && l <= |left| && r <= |right| && forall k :: i <= k < |edits| ==> edits[k] == Match
    requires ApplyHunks(left, ss) == Some(Progress(l, right[..r])) && left[l..] == right[r..]
    requires |left| - l == |edits| - i && ShowsMarks(left, ss, edits[..i])
    ensures ShowsScript(left, right, edits, ss)
  {
    hide ApplyHunks, Shown, Without, Marks, LeftMarks, RightMarks, Unchanged;
    ShownTexts(left, ss);
    var shown, rest := Shown(left, ss), left[l..];
    assert Expanded(left, ss) == shown + Unchanged(rest);
    UnchangedLines('+', rest);
    UnchangedLines('-', rest);
    WithoutConcat('+', shown, Unchanged(rest));
    WithoutConcat('-', shown, Unchanged(rest));
    MarksConcat('+', shown, Unchanged(rest));
    MarksConcat('-', shown, Unchanged(rest));
    MatchesAreBlank(edits[i..]);
    LeftMarksConcat(edits[..i], edits[i..]);
    assert edits == edits[..i] + edits[i..];
    assert left == left[..l] + rest && right == right[..r] + right[r..];
  }

  lemma NothingPatched(left: seq<string>)
    ensures ApplyHunks(left, []) == Some(Progress(0, [])) && Patch(left, []) == Some(left)
  {
    assert [] + left[0..] == left;
  }

  lemma OnlyMatchesLeft(left: seq<string>, right: seq<string>, e: seq<EditType>, ss: seq<PrintedHunk>,
                        l0: nat, r0: nat, l: nat, r: nat)
    requires l0 <= l <= |left| && r0 <= r <= |right| && left[l0..l] == right[r0..r]
    requires e == [] && Leads(e, left, right, l, r, |left|, |right|)
    requires ApplyHunks(left, ss) == Some(Progress(l0, right[..r0]))
    ensures Patch(left, ss) == Some(right)
  {
    assert left[l0..] == left[l0..l] == right[r0..];
    assert right[..r0] + right[r0..] == right;
  }

  /** A printed hunk takes a reader who stands before the unchanged lines skipped,
      at (l0, r0), to the end of the hunk, at (l, r). */
  lemma HunkApplies(left: seq<string>, right: seq<string>, ss: seq<PrintedHunk>, h: PrintedHunk, l0: nat, r0: nat,
                    l1: nat, r1: nat, prefix: nat, l: nat, r: nat)
    requires l0 <= l1 <= l <= |left| && r0 <= r1 <= r <= |right|
    requires ApplyHunks(left, ss) == Some(Progress(l0, right[..r0]))
    requires l1 - l0 == r1 - r0 >= prefix && left[l0..l1] == right[r0..r1]
    requires OldLines(h.lines) == left[l1 - prefix..l1] + left[l1..l]
    requires NewLines(h.lines) == left[l1 - prefix..l1] + right[r1..r]
    requires h.leftRange == None || h.leftRange == Some(Range(l1 - prefix + 1, |OldLines(h.lines)|))
    requires h.rightRange == None || h.rightRange == Some(Range(r1 - prefix + 1, |NewLines(h.lines)|))
    requires h.leftRange.Some? || h.rightRange.Some?
    ensures ApplyHunks(left, ss + [h]) == Some(Progress(l, right[..r]))
  {
    hide OldLines, NewLines, ApplyHunk, ApplyHunks;
    OneMoreApplies(left, ss, h);
    HunkTextFits(left, right, l0, r0, l1, r1, prefix, l, r);
    OneHunkApplies(left, right, h, Progress(l0, right[..r0]), l1 - prefix - l0, l, r);
  }

  lemma OneMoreApplies(left: seq<string>, ss: seq<PrintedHunk>, h: PrintedHunk)
    ensures ApplyHunks(left, ss).Some? ==>
              ApplyHunks(left, ss + [h]) == ApplyHunk(left, ApplyHunks(left, ss).value, h)
  {
    hide ApplyHunk;
    assert (ss + [h])[..|ss|] == ss;
  }

  lemma OneHunkApplies(left: seq<string>, right: seq<string>, h: PrintedHunk, at: Progress, copied: nat, l: nat, r: nat)
    requires at.pos + copied <= l <= |left| && r <= |right|
    requires OldLines(h.lines) == left[at.pos + copied..l]
    requires at.out + left[at.pos..at.pos + copied] + NewLines(h.lines) == right[..r]
    requires h.leftRange == None || h.leftRange == Some(Range(at.pos + copied + 1, |OldLines(h.lines)|))
    requires h.rightRange == None || h.rightRange == Some(Range(|at.out| + copied + 1, |NewLines(h.lines)|))
    requires h.leftRange.Some? || h.rightRange.Some?
    ensures ApplyHunk(left, at, h) == Some(Progress(l, right[..r]))
  {
    hide OldLines, NewLines;
  }

  lemma HunkTextFits(left: seq<string>, right: seq<string>, l0: nat, r0: nat, l1: nat, r1: nat, prefix: nat, l: nat,
                     r: nat)
    requires l0 <= l1 <= l <= |left| && r0 <= r1 <= r <= |right|
    requires l1 - l0 == r1 - r0 >= prefix && left[l0..l1] == right[r0..r1]
    ensures left[l1 - prefix..l1] + left[l1..l] == left[l1 - prefix..l]
    ensures right[..r0] + left[l0..l1 - prefix] + (left[l1 - prefix..l1] + right[r1..r]) == right[..r]
  {
    assert left[l0..l1] == left[l0..l1 - prefix] + left[l1 - prefix..l1];
    assert right[..r] == right[..r0] + right[r0..r1] + right[r1..r];
  }
}
