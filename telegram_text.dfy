/** The processing message the bot keeps up to date while it works on a
    link: the emoji progress bar and the three stage lines. */
module BotText {
  import opened Text

  const BlueCell: char := '\U{1F7E6}'
  const PurpleCell: char := '\U{1F7EA}'
  const GreenCell: char := '\U{1F7E9}'
  const EmptyCell: char := '\U{2B1C}'

  /** Python's `int(x / 100)`: the quotient truncated toward zero (exact
      while `x` is a float without rounding error). */
  function TruncDiv100(x: int): (q: int)
    ensures x >= 0 ==> 0 <= q && 100 * q <= x < 100 * (q + 1)
    ensures x < 0 ==> q <= 0 && 100 * (q - 1) < x <= 100 * q
  {
    if x >= 0 then x / 100 else -((-x) / 100)
  }

  /** The cell colour of a bar: blue below 30%, purple below 70%, green
      from there on. */
  function FillCell(progress: int): char {
    if progress < 30 then BlueCell else if progress < 70 then PurpleCell else GreenCell
  }

  /** `create_progress_bar(progress, length)`: `int(length * progress / 100)`
      cells of the stage colour, then white cells up to `length`; a
      negative count gives no cells. */
  function CreateProgressBar(progress: int, length: int): (bar: string)
    ensures forall i :: 0 <= i < |bar| ==> bar[i] == FillCell(progress) || bar[i] == EmptyCell
  {
    var filled := TruncDiv100(length * progress);
    Repeat(FillCell(progress), filled) + Repeat(EmptyCell, length - filled)
  }

  lemma MulLe(a: int, b: int, c: int)
    requires 0 <= a && b <= c
    ensures a * b <= a * c
  {
    assert a * c - a * b == a * (c - b);
  }

  /** For a percentage between 0 and 100 the bar has exactly `length`
      cells, and cell `i` (counting from 0) is coloured exactly when the
      progress covers `(i + 1) / length` of the whole: the filled count is
      the floor of `length * progress / 100`. */
  lemma ProgressBarCells(progress: int, length: int)
    requires 0 <= progress <= 100 && 0 <= length
    ensures var bar := CreateProgressBar(progress, length);
            |bar| == length &&
            (forall i :: 0 <= i < length ==> (bar[i] != EmptyCell <==> 100 * (i + 1) <= length * progress)) &&
            (forall i :: 0 <= i < length && bar[i] != EmptyCell ==>
               bar[i] == (if progress < 30 then BlueCell else if progress < 70 then PurpleCell else GreenCell))
  {
    MulLe(length, progress, 100);
    MulLe(length, 0, progress);
    var filled := TruncDiv100(length * progress);
    assert filled <= length;
    var bar := CreateProgressBar(progress, length);
    forall i | 0 <= i < length
      ensures bar[i] != EmptyCell <==> 100 * (i + 1) <= length * progress
    {
      if i < filled {
        assert bar[i] == FillCell(progress);
      } else {
        assert bar[i] == Repeat(EmptyCell, length - filled)[i - filled];
      }
    }
  }

  /** More progress never empties a cell: a cell filled at `p` is filled at
      every `q >= p` up to 100. */
  lemma ProgressBarMonotone(p: int, q: int, length: int)
    requires 0 <= p <= q <= 100 && 0 <= length
    ensures forall i :: 0 <= i < length && CreateProgressBar(p, length)[i] != EmptyCell ==>
              CreateProgressBar(q, length)[i] != EmptyCell
  {
    ProgressBarCells(p, length);
    ProgressBarCells(q, length);
    MulLe(length, p, q);
  }

  /** Outside 0..100 the bar is not `length` cells of two kinds: past 100
      it is all green and at least `length` long, below 0 it is all white
      and at least `length` long. */
  lemma ProgressBarOutOfRange(progress: int, length: int)
    requires 0 <= length
    ensures var bar := CreateProgressBar(progress, length);
            (progress > 100 ==> |bar| >= length && forall i :: 0 <= i < |bar| ==> bar[i] == GreenCell) &&
            (progress < 0 ==> |bar| >= length && forall i :: 0 <= i < |bar| ==> bar[i] == EmptyCell)
  {
    var bar := CreateProgressBar(progress, length);
    var filled := TruncDiv100(length * progress);
    if progress > 100 {
      MulLe(length, 100, progress);
      assert length - filled <= 0;
      assert bar == Repeat(GreenCell, filled) + [];
    }
    if progress < 0 {
      MulLe(length, progress, 0);
      assert filled <= 0;
      assert bar == [] + Repeat(EmptyCell, length - filled);
    }
  }

  /** The state a stage line shows. */
  datatype StageStatus = Waiting | InProgress | Complete

  function Icon(s: StageStatus): string {
    match s
    case Waiting => "\U{23F3}"
    case InProgress => "\U{1F50D}"
    case Complete => "\U{2705}"
  }

  function Label(s: StageStatus): string {
    match s
    case Waiting => "Waiting..."
    case InProgress => "In progress..."
    case Complete => "Complete"
  }

  /** How far along a stage is, for comparisons. */
  function Rank(s: StageStatus): nat {
    match s
    case Waiting => 0
    case InProgress => 1
    case Complete => 2
  }

  /** "Getting video info": in progress below 30%, then complete. */
  function GettingInfo(progress: int): StageStatus {
    if progress < 30 then InProgress else Complete
  }

  /** "Processing video": waiting below 30%, in progress below 70%. */
  function ProcessingVideo(progress: int): StageStatus {
    if progress < 30 then Waiting else if progress < 70 then InProgress else Complete
  }

  /** "Preparing delivery": waiting below 70%, in progress below 100%. */
  function PreparingDelivery(progress: int): StageStatus {
    if progress < 70 then Waiting else if progress < 100 then InProgress else Complete
  }

  /** The stages run one after the other: a stage starts only once the one
      before it is complete, exactly one stage is in progress until 100%,
      and from 100% on all three are complete. */
  lemma StagesInOrder(progress: int)
    ensures ProcessingVideo(progress) != Waiting ==> GettingInfo(progress) == Complete
    ensures PreparingDelivery(progress) != Waiting ==> ProcessingVideo(progress) == Complete
    ensures var inProgress := (if GettingInfo(progress) == InProgress then 1 else 0)
                            + (if ProcessingVideo(progress) == InProgress then 1 else 0)
                            + (if PreparingDelivery(progress) == InProgress then 1 else 0);
            (progress < 100 ==> inProgress == 1) && (progress >= 100 ==> inProgress == 0)
    ensures (GettingInfo(progress) == Complete && ProcessingVideo(progress) == Complete
             && PreparingDelivery(progress) == Complete) <==> progress >= 100
  {
  }

  /** No stage goes back as the progress rises. */
  lemma StagesAdvance(p: int, q: int)
    requires p <= q
    ensures Rank(GettingInfo(p)) <= Rank(GettingInfo(q))
    ensures Rank(ProcessingVideo(p)) <= Rank(ProcessingVideo(q))
    ensures Rank(PreparingDelivery(p)) <= Rank(PreparingDelivery(q))
  {
  }

  /** `"\n".join(lines)`. */
  function JoinLines(lines: seq<string>): string
    decreases |lines|
  {
    if lines == [] then ""
    else if |lines| == 1 then lines[0]
    else lines[0] + "\n" + JoinLines(lines[1..])
  }

  predicate NoNewline(s: string) {
    forall i | 0 <= i < |s| :: s[i] != '\n'
  }

  lemma NoNewlineAbsent(s: string)
    requires NoNewline(s)
    ensures '\n' !in s
  {
  }

  /** No line of `lines` holds a line break. */
  predicate LinesNoNewline(lines: seq<string>) {
    forall i | 0 <= i < |lines| :: '\n' !in lines[i]
  }

  /** Splitting joined lines at the line breaks gives the lines back,
      when none of them holds a line break itself. */
  lemma {:induction false} SplitJoinLines(lines: seq<string>)
    requires lines != [] && LinesNoNewline(lines)
    ensures SplitOn(JoinLines(lines), '\n') == lines
    decreases |lines|
  {
    var head := lines[0];
    assert '\n' !in head;
    if |lines| == 1 {
      SplitOnNoSeparator(head, '\n');
    } else {
      var rest := lines[1..];
      assert LinesNoNewline(rest) by {
        forall i | 0 <= i < |rest|
          ensures '\n' !in rest[i]
        {
          assert rest[i] == lines[i + 1];
        }
      }
      SplitJoinLines(rest);
      var tail := JoinLines(rest);
      assert JoinLines(lines) == head + ['\n'] + tail;
      SplitOnFirst(head, '\n', tail);
      assert [head] + rest == lines;
    }
  }

  const Title: string := "\U{1F680} <b>Processing Your " + "Terabox Video</b> \U{1F680}"
  const Footer: string := "<i>Please wait, your " + "video will be ready soon...</i>"

  /** One stage line: its icon, its name in bold and its label. */
  function StageLine(s: StageStatus, name: string): string {
    Icon(s) + " <b>" + name + "</b>: " + Label(s)
  }

  /** The bar with the percentage after it. */
  function BarLine(progress: int): string {
    CreateProgressBar(progress, 10) + " <b>" + IntToString(progress) + "%</b>"
  }

  /** The lines of the processing message. */
  function ProcessingLines(progress: int): seq<string> {
    [Title, "", BarLine(progress), "",
     StageLine(GettingInfo(progress), "Getting video info"),
     StageLine(ProcessingVideo(progress), "Processing video"),
     StageLine(PreparingDelivery(progress), "Preparing delivery"),
     "", Footer]
  }

  /** The text `send_processing_message` posts and
      `update_processing_message` edits in, for a given percentage. */
  function ProcessingText(progress: int): string {
    JoinLines(ProcessingLines(progress))
  }

  lemma IntToStringNoNewline(n: int)
    ensures NoNewline(IntToString(n))
  {
    var d := NatToString(if n < 0 then -n else n);
    assert forall i :: 0 <= i < |d| ==> d[i] != '\n';
  }

  lemma BarLineNoNewline(progress: int)
    ensures NoNewline(BarLine(progress))
  {
    var bar := CreateProgressBar(progress, 10);
    var digits := IntToString(progress);
    IntToStringNoNewline(progress);
    assert NoNewline(bar);
    assert BarLine(progress) == bar + (" <b>" + digits + "%</b>");
  }

  lemma ConcatNoNewline(a: string, b: string)
    requires NoNewline(a) && NoNewline(b)
    ensures NoNewline(a + b)
  {
  }

  lemma StageLineNoNewline(s: StageStatus, name: string)
    requires NoNewline(name)
    ensures NoNewline(StageLine(s, name))
  {
    var icon, tag := Icon(s), Label(s);
    assert NoNewline(icon) && NoNewline(" <b>");
    assert NoNewline(tag) && NoNewline("</b>: ");
    ConcatNoNewline(icon, " <b>");
    ConcatNoNewline(icon + " <b>", name);
    ConcatNoNewline("</b>: ", tag);
    ConcatNoNewline(icon + " <b>" + name, "</b>: " + tag);
    assert StageLine(s, name) == icon + " <b>" + name + ("</b>: " + tag);
  }

  lemma StageNamesNoNewline()
    ensures NoNewline("Getting video info") && NoNewline("Processing video") && NoNewline("Preparing delivery")
  {
  }

  lemma StageLinesNoNewline(progress: int)
    ensures NoNewline(StageLine(GettingInfo(progress), "Getting video info"))
    ensures NoNewline(StageLine(ProcessingVideo(progress), "Processing video"))
    ensures NoNewline(StageLine(PreparingDelivery(progress), "Preparing delivery"))
  {
    StageNamesNoNewline();
    StageLineNoNewline(GettingInfo(progress), "Getting video info");
    StageLineNoNewline(ProcessingVideo(progress), "Processing video");
    StageLineNoNewline(PreparingDelivery(progress), "Preparing delivery");
  }

  lemma ProcessingLinesNoNewline(progress: int)
    ensures LinesNoNewline(ProcessingLines(progress))
  {
    var bar := BarLine(progress);
    var s1 := StageLine(GettingInfo(progress), "Getting video info");
    var s2 := StageLine(ProcessingVideo(progress), "Processing video");
    var s3 := StageLine(PreparingDelivery(progress), "Preparing delivery");
    BarLineNoNewline(progress);
    NoNewlineAbsent(bar);
    StageLinesNoNewline(progress);
    NoNewlineAbsent(s1);
    NoNewlineAbsent(s2);
    NoNewlineAbsent(s3);
    TitleNoNewline();
    NoNewlineAbsent(Title);
    FooterNoNewline();
    NoNewlineAbsent(Footer);
    LayoutNoNewline(Title, bar, s1, s2, s3, Footer);
  }

  lemma LayoutNoNewline(title: string, bar: string, s1: string, s2: string, s3: string, footer: string)
    requires '\n' !in title && '\n' !in bar && '\n' !in footer
    requires '\n' !in s1 && '\n' !in s2 && '\n' !in s3
    ensures LinesNoNewline([title, "", bar, "", s1, s2, s3, "", footer])
  {
  }

  lemma TitleNoNewline()
    ensures NoNewline(Title)
  {
    var (front, back) := ("\U{1F680} <b>Processing Your ", "Terabox Video</b> \U{1F680}");
    assert NoNewline(front) && NoNewline(back);
    ConcatNoNewline(front, back);
  }

  lemma FooterNoNewline()
    ensures NoNewline(Footer)
  {
    var (front, back) := ("<i>Please wait, your ", "video will be ready soon...</i>");
    assert NoNewline(front) && NoNewline(back);
    ConcatNoNewline(front, back);
  }

  /** The processing message is nine lines: the title, the bar with the
      percentage, the three stages in order and the footer, with blank
      lines between the groups; each stage line shows the stage's icon and
      label for that percentage. */
  lemma ProcessingTextLayout(progress: int)
    ensures var lines := SplitOn(ProcessingText(progress), '\n');
            |lines| == 9 && lines[0] == Title && lines[1] == "" && lines[3] == "" && lines[7] == "" && lines[8] == Footer &&
            lines[2] == CreateProgressBar(progress, 10) + " <b>" + IntToString(progress) + "%</b>" &&
            lines[4] == StageLine(GettingInfo(progress), "Getting video info") &&
            lines[5] == StageLine(ProcessingVideo(progress), "Processing video") &&
            lines[6] == StageLine(PreparingDelivery(progress), "Preparing delivery")
  {
    ProcessingSplit(progress);
    LayoutFields(SplitOn(ProcessingText(progress), '\n'), Title, BarLine(progress),
      StageLine(GettingInfo(progress), "Getting video info"),
      StageLine(ProcessingVideo(progress), "Processing video"),
      StageLine(PreparingDelivery(progress), "Preparing delivery"), Footer);
  }

  lemma LayoutFields(lines: seq<string>, title: string, bar: string, s1: string, s2: string, s3: string, footer: string)
    requires lines == [title, "", bar, "", s1, s2, s3, "", footer]
    ensures |lines| == 9 && lines[0] == title && lines[1] == "" && lines[3] == "" && lines[7] == "" && lines[8] == footer
    ensures lines[2] == bar && lines[4] == s1 && lines[5] == s2 && lines[6] == s3
  {
  }

  lemma ProcessingSplit(progress: int)
    ensures SplitOn(ProcessingText(progress), '\n') == ProcessingLines(progress)
  {
    ProcessingLinesNoNewline(progress);
    SplitJoinLines(ProcessingLines(progress));
  }
}
