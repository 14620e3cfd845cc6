/**
 * The render plan of canvas-server.js: `renderRichText`, which draws one
 * paragraph of styled text, and the vertical advance of `renderTextSlide`.
 * Drawing is the list of commands the canvas receives: a `Fill` per
 * `fillText` and a `Stroke` per underline drawn after the text.  Widths come
 * from `measure(text, bold)`, which stands for `ctx.measureText(text).width`
 * under `buildFont(bold ? 'bold' : 'normal', size)`, and `descent(text, bold)`
 * stands for `actualBoundingBoxDescent` of the same measurement.  Every run
 * sets the context's fill colour, so a paragraph leaves behind the colour of
 * its last run, and `renderTextSlide` hands that colour to the next paragraph
 * as its base colour.
 */
module RichText {
  import opened Common
  import opened InlineTokens
  import Typography
  import Wrapping
  import PlainWrap
  import CanvasStyle

  datatype Fill = Fill(text: string, x: int, y: int, color: string)

  /** An underline from `x1` to `x2` at height `y` (below the text's baseline), `width` thick. */
  datatype Stroke = Stroke(x1: int, x2: int, y: real, color: string, width: nat)

  datatype Plan = Plan(fills: seq<Fill>, strokes: seq<Stroke>)

  /** What a paragraph is drawn with. */
  datatype Pen = Pen(measure: (string, bool) -> nat, descent: (string, bool) -> real, size: nat,
                     baseColor: string, accentColor: string, slideIsAccent: bool)

  /** `ctx.lineWidth = Math.max(3, Math.round(baseFontSize * 0.045))` */
  function StrokeWidth(size: nat): (w: nat)
    ensures w >= 3
    ensures w == 3 || 2 * w * 1000 - 1000 <= 2 * size * 45 < 2 * w * 1000 + 1000
  {
    Max(3, RoundDiv(size * 45, 1000))
  }

  /** `/^\s+$/.test(txt)` */
  predicate IsSpaceText(t: string)
  {
    t != [] && IsBlank(t)
  }

  /** The text a run is drawn with: its no-break spaces shown as ordinary ones. */
  function Shown(r: Run): string
  {
    PlainWrap.NbspToSpace(r.text)
  }

  function RunWidth(r: Run, pen: Pen): nat
  {
    pen.measure(Shown(r), r.bold)
  }

  /** `useAccent ? accentColor : baseColor` */
  function RunColor(r: Run, pen: Pen): (c: string)
    ensures r.underline && r.bold && !pen.slideIsAccent ==> c == pen.accentColor
    ensures !(r.underline && r.bold && !pen.slideIsAccent) ==> c == pen.baseColor
  {
    if r.underline && r.bold && !pen.slideIsAccent then pen.accentColor else pen.baseColor
  }

  /** What one run draws at cursor `cx`: nothing for a whitespace run, else its text. */
  function FillAt(r: Run, cx: int, y: int, pen: Pen): seq<Fill>
  {
    if IsSpaceText(Shown(r)) then [] else [Fill(Shown(r), cx, y, RunColor(r, pen))]
  }

  /** `y + (metrics.actualBoundingBoxDescent || baseFontSize * 0.15) - 2` */
  function UnderlineY(r: Run, y: int, pen: Pen): real
  {
    var d := pen.descent(Shown(r), r.bold);
    y as real + (if d != 0.0 then d else pen.size as real * 0.15) - 2.0
  }

  /**
   * The underline one run adds at cursor `cx`: one exactly when it is
   * underlined and not whitespace, as wide as the run, in the run's colour,
   * and as far below the baseline as the text descends less 2 (0.15 of the
   * font size less 2 when the measured descent is 0).
   */
  function StrokeAt(r: Run, cx: int, y: int, pen: Pen): (s: seq<Stroke>)
    ensures |s| == (if r.underline && !IsSpaceText(Shown(r)) then 1 else 0)
    ensures |s| == 1 ==> s[0].x2 - s[0].x1 == RunWidth(r, pen) && s[0].x1 == cx
    ensures |s| == 1 ==> s[0].color == RunColor(r, pen) && s[0].width == StrokeWidth(pen.size)
    ensures |s| == 1 && pen.descent(Shown(r), r.bold) != 0.0 ==>
              s[0].y == y as real + pen.descent(Shown(r), r.bold) - 2.0
    ensures |s| == 1 && pen.descent(Shown(r), r.bold) == 0.0 ==>
              s[0].y == y as real + pen.size as real * 0.15 - 2.0
  {
    if r.underline && !IsSpaceText(Shown(r))
    then [Stroke(cx, cx + RunWidth(r, pen), UnderlineY(r, y, pen), RunColor(r, pen), StrokeWidth(pen.size))]
    else []
  }

  /** The fill colour the context holds after a line's runs: the last run's colour, or `c` when there is none. */
  function RunsStyle(runs: seq<Run>, c: string, pen: Pen): string
  {
    if runs == [] then c else RunColor(runs[|runs| - 1], pen)
  }

  /** The fill colour the context holds after the lines, starting from `c`. */
  function LinesStyle(lines: seq<Wrapping.Line>, c: string, pen: Pen): string
    decreases |lines|
  {
    if lines == [] then c else LinesStyle(lines[1..], RunsStyle(lines[0].runs, c, pen), pen)
  }

  /** The inner loop over a line's runs, with the cursor moving by every run's width. */
  function DrawRuns(p: Plan, runs: seq<Run>, cx: int, y: int, pen: Pen): Plan
    decreases |runs|
  {
    if runs == [] then p
    else
      var r := runs[0];
      DrawRuns(Plan(p.fills + FillAt(r, cx, y, pen), p.strokes + StrokeAt(r, cx, y, pen)),
               runs[1..], cx + RunWidth(r, pen), y, pen)
  }

  /** The outer loop over lines, one line height apart. */
  function DrawLines(p: Plan, lines: seq<Wrapping.Line>, x: int, y: int, lineHeight: int, pen: Pen): Plan
    decreases |lines|
  {
    if lines == [] then p
    else DrawLines(DrawRuns(p, lines[0].runs, x, y, pen), lines[1..], x, y + lineHeight, lineHeight, pen)
  }

  /** The lines `renderRichText` lays out: hanging words glued, inline styles parsed, then wrapped. */
  function RichLines(raw: string, measure: (string, bool) -> nat, maxWidth: int): seq<Wrapping.Line>
  {
    Wrapping.Wrap(Merged(Scan(Typography.FixHanging(raw))), measure, maxWidth)
  }

  /** The fill colour `renderRichText` leaves on a context whose fill colour was the base colour. */
  function StyleLeft(raw: string, maxWidth: int, pen: Pen): string
  {
    if raw == [] then pen.baseColor else LinesStyle(RichLines(raw, pen.measure, maxWidth), pen.baseColor, pen)
  }

  /** The draw list and the line count of `renderRichText`. */
  function RichPlan(raw: string, x: int, startY: int, maxWidth: int, font: CanvasStyle.FontConf, pen: Pen): (Plan, nat)
  {
    if raw == [] then (Plan([], []), 0)
    else
      var lines := RichLines(raw, pen.measure, maxWidth);
      (DrawLines(Plan([], []), lines, x, startY, CanvasStyle.LineHeight(font), pen), |lines|)
  }

  /**
   * `renderRichText(ctx, rawText, x, startY, maxWidth, fontConf, baseColor,
   * accentColor, slideIsAccent)`: draws the paragraph and returns the number
   * of lines used (0 for empty text).  `pen.size` is `fontConf.size`;
   * `fillStyle` is the fill colour left on the context, which held the base
   * colour on entry.
   */
  method RenderRichText(raw: string, x: int, startY: int, maxWidth: int, font: CanvasStyle.FontConf, pen: Pen)
    returns (fills: seq<Fill>, strokes: seq<Stroke>, count: nat, fillStyle: string)
    requires pen.size == font.size
    ensures (Plan(fills, strokes), count) == RichPlan(raw, x, startY, maxWidth, font, pen)
    ensures fillStyle == StyleLeft(raw, maxWidth, pen)
  {
    if raw == [] {
      return [], [], 0, pen.baseColor;
    }
    var processed := Typography.FixHangingWords(raw);
    var segments := ParseInline(processed);
    var lines := Wrapping.WrapSegments(segments, pen.measure, maxWidth);
    var lineHeight := CanvasStyle.LineHeight(font);
    fills, strokes, fillStyle := DrawAllLines(lines, x, startY, lineHeight, pen);
    count := |lines|;
  }

  /** The outer loop of `renderRichText` (canvas-server.js:324-357). */
  method DrawAllLines(lines: seq<Wrapping.Line>, x: int, startY: int, lineHeight: int, pen: Pen)
    returns (fills: seq<Fill>, strokes: seq<Stroke>, fillStyle: string)
    ensures Plan(fills, strokes) == DrawLines(Plan([], []), lines, x, startY, lineHeight, pen)
    ensures fillStyle == LinesStyle(lines, pen.baseColor, pen)
  {
    fills, strokes, fillStyle := [], [], pen.baseColor;
    var y := startY;
    assert lines[0..] == lines;
    for i := 0 to |lines|
      invariant y == startY + i * lineHeight
      invariant DrawLines(Plan(fills, strokes), lines[i..], x, y, lineHeight, pen)
                == DrawLines(Plan([], []), lines, x, startY, lineHeight, pen)
      invariant LinesStyle(lines[i..], fillStyle, pen) == LinesStyle(lines, pen.baseColor, pen)
    {
      assert lines[i..][0] == lines[i] && lines[i..][1..] == lines[i + 1..];
      fills, strokes, fillStyle := DrawLine(fills, strokes, fillStyle, lines[i].runs, x, y, pen);
      y := y + lineHeight;
    }
    assert lines[|lines|..] == [];
  }

  /** The inner loop of `renderRichText` over one line's runs (canvas-server.js:327-355). */
  method DrawLine(fills0: seq<Fill>, strokes0: seq<Stroke>, style0: string, runs: seq<Run>, x: int, y: int, pen: Pen)
    returns (fills: seq<Fill>, strokes: seq<Stroke>, fillStyle: string)
    ensures Plan(fills, strokes) == DrawRuns(Plan(fills0, strokes0), runs, x, y, pen)
    ensures fillStyle == RunsStyle(runs, style0, pen)
  {
    fills, strokes, fillStyle := fills0, strokes0, style0;
    var cursorX := x;
    assert runs[0..] == runs;
    for j := 0 to |runs|
      invariant DrawRuns(Plan(fills, strokes), runs[j..], cursorX, y, pen)
                == DrawRuns(Plan(fills0, strokes0), runs, x, y, pen)
      invariant fillStyle == RunsStyle(runs[..j], style0, pen)
    {
      var run := runs[j];
      assert runs[j..][0] == run && runs[j..][1..] == runs[j + 1..];
      assert runs[..j + 1][j] == run;
      var w;
      fills, strokes, fillStyle, w := DrawRun(fills, strokes, run, cursorX, y, pen);
      cursorX := cursorX + w;
    }
    assert runs[|runs|..] == [];
  }

  /** One pass of the run loop (canvas-server.js:328-354): returns the fill colour it sets and the width the cursor moves. */
  method DrawRun(fills0: seq<Fill>, strokes0: seq<Stroke>, run: Run, cursorX: int, y: int, pen: Pen)
    returns (fills: seq<Fill>, strokes: seq<Stroke>, fillStyle: string, w: nat)
    ensures fills == fills0 + FillAt(run, cursorX, y, pen)
    ensures strokes == strokes0 + StrokeAt(run, cursorX, y, pen)
    ensures fillStyle == RunColor(run, pen) && w == RunWidth(run, pen)
  {
    fills, strokes := fills0, strokes0;
    var txt := PlainWrap.NbspToSpace(run.text);
    var isSpace := txt != [] && IsBlank(txt);
    fillStyle := if run.underline && run.bold && !pen.slideIsAccent then pen.accentColor else pen.baseColor;
    if !isSpace {
      fills := fills + [Fill(txt, cursorX, y, fillStyle)];
      if run.underline {
        var width, descent := pen.measure(txt, run.bold), pen.descent(txt, run.bold);
        var underlineY := y as real + (if descent != 0.0 then descent else pen.size as real * 0.15) - 2.0;
        strokes := strokes + [Stroke(cursorX, cursorX + width, underlineY, fillStyle, StrokeWidth(pen.size))];
      }
    }
    w := pen.measure(txt, run.bold);
  }

  // ---- the cursor, stated without the loop ----

  /** The cursor before run `k`: the start plus the widths of all runs before it. */
  function CursorBefore(runs: seq<Run>, k: nat, x: int, pen: Pen): int
    requires k <= |runs|
  {
    if k == 0 then x else CursorBefore(runs, k - 1, x, pen) + RunWidth(runs[k - 1], pen)
  }

  /** The fills of runs `k..`, each placed at its own cursor position. */
  function FillsFrom(runs: seq<Run>, k: nat, x: int, y: int, pen: Pen): seq<Fill>
    requires k <= |runs|
    decreases |runs| - k
  {
    if k == |runs| then [] else FillAt(runs[k], CursorBefore(runs, k, x, pen), y, pen) + FillsFrom(runs, k + 1, x, y, pen)
  }

  function StrokesFrom(runs: seq<Run>, k: nat, x: int, y: int, pen: Pen): seq<Stroke>
    requires k <= |runs|
    decreases |runs| - k
  {
    if k == |runs| then [] else StrokeAt(runs[k], CursorBefore(runs, k, x, pen), y, pen) + StrokesFrom(runs, k + 1, x, y, pen)
  }

  lemma {:induction false} DrawRunsFrom(p: Plan, runs: seq<Run>, k: nat, x: int, y: int, pen: Pen)
    requires k <= |runs|
    ensures DrawRuns(p, runs[k..], CursorBefore(runs, k, x, pen), y, pen)
            == Plan(p.fills + FillsFrom(runs, k, x, y, pen), p.strokes + StrokesFrom(runs, k, x, y, pen))
  {
    DrawRunsFills(p, runs, k, x, y, pen);
    DrawRunsStrokes(p, runs, k, x, y, pen);
  }

  /** One step of the run loop, from run `k` to run `k + 1`. */
  lemma DrawRunsStep(p: Plan, runs: seq<Run>, k: nat, x: int, y: int, pen: Pen)
    requires k < |runs|
    ensures var cx := CursorBefore(runs, k, x, pen);
            DrawRuns(p, runs[k..], cx, y, pen)
            == DrawRuns(Plan(p.fills + FillAt(runs[k], cx, y, pen), p.strokes + StrokeAt(runs[k], cx, y, pen)),
                        runs[k + 1..], CursorBefore(runs, k + 1, x, pen), y, pen)
  {
    assert runs[k..][0] == runs[k] && runs[k..][1..] == runs[k + 1..];
  }

  lemma Assoc<T>(a: seq<T>, b: seq<T>, c: seq<T>)
    ensures (a + b) + c == a + (b + c)
  {
  }

  lemma {:induction false} DrawRunsFills(p: Plan, runs: seq<Run>, k: nat, x: int, y: int, pen: Pen)
    requires k <= |runs|
    ensures DrawRuns(p, runs[k..], CursorBefore(runs, k, x, pen), y, pen).fills == p.fills + FillsFrom(runs, k, x, y, pen)
    decreases |runs| - k
  {
    if k == |runs| {
      assert runs[k..] == [];
    } else {
      var cx := CursorBefore(runs, k, x, pen);
      var q := Plan(p.fills + FillAt(runs[k], cx, y, pen), p.strokes + StrokeAt(runs[k], cx, y, pen));
      DrawRunsStep(p, runs, k, x, y, pen);
      DrawRunsFills(q, runs, k + 1, x, y, pen);
      Assoc(p.fills, FillAt(runs[k], cx, y, pen), FillsFrom(runs, k + 1, x, y, pen));
    }
  }

  lemma {:induction false} DrawRunsStrokes(p: Plan, runs: seq<Run>, k: nat, x: int, y: int, pen: Pen)
    requires k <= |runs|
    ensures DrawRuns(p, runs[k..], CursorBefore(runs, k, x, pen), y, pen).strokes == p.strokes + StrokesFrom(runs, k, x, y, pen)
    decreases |runs| - k
  {
    if k == |runs| {
      assert runs[k..] == [];
    } else {
      var cx := CursorBefore(runs, k, x, pen);
      var q := Plan(p.fills + FillAt(runs[k], cx, y, pen), p.strokes + StrokeAt(runs[k], cx, y, pen));
      DrawRunsStep(p, runs, k, x, y, pen);
      DrawRunsStrokes(q, runs, k + 1, x, y, pen);
      Assoc(p.strokes, StrokeAt(runs[k], cx, y, pen), StrokesFrom(runs, k + 1, x, y, pen));
    }
  }

  /**
   * The cursor loop draws every run at the start plus the widths of the runs
   * before it, spaces included, and underlines it there.
   */
  lemma DrawRunsPlacesRuns(runs: seq<Run>, x: int, y: int, pen: Pen)
    ensures DrawRuns(Plan([], []), runs, x, y, pen)
            == Plan(FillsFrom(runs, 0, x, y, pen), StrokesFrom(runs, 0, x, y, pen))
  {
    DrawRunsFrom(Plan([], []), runs, 0, x, y, pen);
    assert runs[0..] == runs;
  }

  /** The number of runs `k..` that get an underline. */
  function Underlined(runs: seq<Run>, k: nat): nat
    requires k <= |runs|
    decreases |runs| - k
  {
    if k == |runs| then 0
    else (if runs[k].underline && !IsSpaceText(Shown(runs[k])) then 1 else 0) + Underlined(runs, k + 1)
  }

  /** One stroke per underlined visible run, no more. */
  lemma {:induction false} StrokeCount(runs: seq<Run>, k: nat, x: int, y: int, pen: Pen)
    requires k <= |runs|
    ensures |StrokesFrom(runs, k, x, y, pen)| == Underlined(runs, k)
    decreases |runs| - k
  {
    if k < |runs| {
      StrokeCount(runs, k + 1, x, y, pen);
    }
  }

  /** Whitespace runs are never drawn. */
  lemma {:induction false} FillsAreVisible(runs: seq<Run>, k: nat, x: int, y: int, pen: Pen)
    requires k <= |runs|
    ensures forall i | 0 <= i < |FillsFrom(runs, k, x, y, pen)| :: !IsSpaceText(FillsFrom(runs, k, x, y, pen)[i].text)
    decreases |runs| - k
  {
    if k < |runs| {
      FillsAreVisible(runs, k + 1, x, y, pen);
      var head := FillAt(runs[k], CursorBefore(runs, k, x, pen), y, pen);
      var all := FillsFrom(runs, k, x, y, pen);
      assert all == head + FillsFrom(runs, k + 1, x, y, pen);
      forall i | 0 <= i < |all|
        ensures !IsSpaceText(all[i].text)
      {
        if i >= |head| {
          assert all[i] == FillsFrom(runs, k + 1, x, y, pen)[i - |head|];
        }
      }
    }
  }

  /** Every fill of a line sits on the line's baseline. */
  lemma {:induction false} FillsOnBaseline(runs: seq<Run>, k: nat, x: int, y: int, pen: Pen)
    requires k <= |runs|
    ensures forall i | 0 <= i < |FillsFrom(runs, k, x, y, pen)| :: FillsFrom(runs, k, x, y, pen)[i].y == y
    decreases |runs| - k
  {
    if k < |runs| {
      FillsOnBaseline(runs, k + 1, x, y, pen);
      var head := FillAt(runs[k], CursorBefore(runs, k, x, pen), y, pen);
      var all := FillsFrom(runs, k, x, y, pen);
      forall i | 0 <= i < |all|
        ensures all[i].y == y
      {
        if i >= |head| {
          assert all[i] == FillsFrom(runs, k + 1, x, y, pen)[i - |head|];
        }
      }
    }
  }

  /** The baseline of line `k` of a paragraph starting at `y`: `k` line heights further down. */
  function Baseline(y: int, k: nat, lh: int): int
  {
    if k == 0 then y else Baseline(y, k - 1, lh) + lh
  }

  lemma {:induction false} BaselineIsProduct(y: int, k: nat, lh: int)
    ensures Baseline(y, k, lh) == y + k * lh
  {
    if k > 0 {
      BaselineIsProduct(y, k - 1, lh);
      assert (k - 1) * lh + lh == k * lh;
    }
  }

  /** The fills of lines `k..`, line `k` on baseline `k` and each run at its cursor position. */
  function LineFills(lines: seq<Wrapping.Line>, k: nat, x: int, y: int, lh: int, pen: Pen): seq<Fill>
    requires k <= |lines|
    decreases |lines| - k
  {
    if k == |lines| then []
    else FillsFrom(lines[k].runs, 0, x, Baseline(y, k, lh), pen) + LineFills(lines, k + 1, x, y, lh, pen)
  }

  function LineStrokes(lines: seq<Wrapping.Line>, k: nat, x: int, y: int, lh: int, pen: Pen): seq<Stroke>
    requires k <= |lines|
    decreases |lines| - k
  {
    if k == |lines| then []
    else StrokesFrom(lines[k].runs, 0, x, Baseline(y, k, lh), pen) + LineStrokes(lines, k + 1, x, y, lh, pen)
  }

  lemma DrawLinesFrom(p: Plan, lines: seq<Wrapping.Line>, k: nat, x: int, y: int, lh: int, pen: Pen)
    requires k <= |lines|
    ensures DrawLines(p, lines[k..], x, Baseline(y, k, lh), lh, pen)
            == Plan(p.fills + LineFills(lines, k, x, y, lh, pen), p.strokes + LineStrokes(lines, k, x, y, lh, pen))
  {
    DrawLinesFills(p, lines, k, x, y, lh, pen);
    DrawLinesStrokes(p, lines, k, x, y, lh, pen);
  }

  lemma {:induction false} DrawLinesFills(p: Plan, lines: seq<Wrapping.Line>, k: nat, x: int, y: int, lh: int, pen: Pen)
    requires k <= |lines|
    ensures DrawLines(p, lines[k..], x, Baseline(y, k, lh), lh, pen).fills == p.fills + LineFills(lines, k, x, y, lh, pen)
    decreases |lines| - k
  {
    if k == |lines| {
      assert lines[k..] == [];
    } else {
      var runs := lines[k].runs;
      var b := Baseline(y, k, lh);
      var ff := FillsFrom(runs, 0, x, b, pen);
      var q := DrawRuns(p, runs, x, b, pen);
      DrawRunsPlaced(p, runs, x, b, pen);
      DrawLinesUnfold(p, lines, k, x, b, lh, pen);
      DrawLinesFills(q, lines, k + 1, x, y, lh, pen);
      assert (p.fills + ff) + LineFills(lines, k + 1, x, y, lh, pen) == p.fills + LineFills(lines, k, x, y, lh, pen);
    }
  }

  lemma {:induction false} DrawLinesStrokes(p: Plan, lines: seq<Wrapping.Line>, k: nat, x: int, y: int, lh: int, pen: Pen)
    requires k <= |lines|
    ensures DrawLines(p, lines[k..], x, Baseline(y, k, lh), lh, pen).strokes == p.strokes + LineStrokes(lines, k, x, y, lh, pen)
    decreases |lines| - k
  {
    if k == |lines| {
      assert lines[k..] == [];
    } else {
      var runs := lines[k].runs;
      var b := Baseline(y, k, lh);
      var ss := StrokesFrom(runs, 0, x, b, pen);
      var q := DrawRuns(p, runs, x, b, pen);
      DrawRunsPlaced(p, runs, x, b, pen);
      DrawLinesUnfold(p, lines, k, x, b, lh, pen);
      DrawLinesStrokes(q, lines, k + 1, x, y, lh, pen);
      assert (p.strokes + ss) + LineStrokes(lines, k + 1, x, y, lh, pen) == p.strokes + LineStrokes(lines, k, x, y, lh, pen);
    }
  }

  lemma DrawLinesUnfold(p: Plan, lines: seq<Wrapping.Line>, k: nat, x: int, y: int, lh: int, pen: Pen)
    requires k < |lines|
    ensures DrawLines(p, lines[k..], x, y, lh, pen)
            == DrawLines(DrawRuns(p, lines[k].runs, x, y, pen), lines[k + 1..], x, y + lh, lh, pen)
  {
    assert lines[k..][0] == lines[k] && lines[k..][1..] == lines[k + 1..];
  }

  lemma DrawRunsPlaced(p: Plan, runs: seq<Run>, x: int, y: int, pen: Pen)
    ensures DrawRuns(p, runs, x, y, pen)
            == Plan(p.fills + FillsFrom(runs, 0, x, y, pen), p.strokes + StrokesFrom(runs, 0, x, y, pen))
  {
    DrawRunsFrom(p, runs, 0, x, y, pen);
    assert runs[0..] == runs;
  }

  /**
   * The line loop draws line `k` on the baseline `k` line heights below the
   * start, each run at the start plus the widths of the runs before it.
   */
  lemma DrawLinesPlacesLines(lines: seq<Wrapping.Line>, x: int, y: int, lh: int, pen: Pen)
    ensures DrawLines(Plan([], []), lines, x, y, lh, pen)
            == Plan(LineFills(lines, 0, x, y, lh, pen), LineStrokes(lines, 0, x, y, lh, pen))
  {
    DrawLinesFrom(Plan([], []), lines, 0, x, y, lh, pen);
    assert lines[0..] == lines;
    assert Baseline(y, 0, lh) == y;
  }

  // ---- renderTextSlide ----

  /** `'•'` */
  const Bullet: char := '\U{2022}'

  /** `slide.text.split('\n').filter(l => l.trim())` */
  function Paragraphs(text: string): (ps: seq<string>)
    ensures forall i | 0 <= i < |ps| :: !IsBlank(ps[i])
  {
    Wrapping.NonBlank(SplitChar(text, '\n'))
  }

  // `lineText.replace(/^•\s*/, '')`: the bullet and the whitespace after it
  function DropBullet(t: string): string
  {
    if t != [] && t[0] == Bullet then t[1..][LeadingSpace(t[1..])..] else t
  }

  /** Where a paragraph starts and how wide it may be: a bullet paragraph is shifted past its marker. */
  datatype Para = Para(text: string, x: int, maxWidth: int, bullet: bool)

  function ParaOf(raw: string, padding: int, contentWidth: int, measure: (string, bool) -> nat): (p: Para)
    ensures p.bullet <==> StartsWith(Trim(raw), [Bullet])
    ensures !p.bullet ==> p == Para(Trim(raw), padding, contentWidth, false)
    ensures p.bullet ==> p.x - padding == contentWidth - p.maxWidth == measure("\U{2192} ", true) + 32
  {
    var t := Trim(raw);
    if StartsWith(t, [Bullet]) then
      var markerWidth := measure("\U{2192} ", true);
      Para(DropBullet(t), padding + markerWidth + 32, contentWidth - (markerWidth + 32), true)
    else Para(t, padding, contentWidth, false)
  }

  /** The number of lines a paragraph wraps into: none for empty text. */
  function UsedLines(para: Para, pen: Pen): nat
  {
    if para.text == [] then 0 else |RichLines(para.text, pen.measure, para.maxWidth)|
  }

  /** The count `renderRichText` returns is the paragraph's line count, wherever it is drawn. */
  lemma UsedLinesAnywhere(para: Para, y: int, pen: Pen)
    ensures RichPlan(para.text, para.x, y, para.maxWidth, CanvasStyle.Text, pen).1 == UsedLines(para, pen)
  {
  }

  /**
   * The baselines the paragraphs start on: the first at `y`, each next one
   * below the previous paragraph's lines and one paragraph gap.
   */
  function ParagraphTops(y: int, used: seq<nat>, lh: int): (tops: seq<int>)
    ensures |tops| == |used|
  {
    if used == [] then []
    else
      var n := |used|;
      var prev := ParagraphTops(y, used[..n - 1], lh);
      prev + [if n == 1 then y else prev[n - 2] + used[n - 2] * lh + CanvasStyle.PToP]
  }

  lemma {:induction false} ParagraphTopsSpaced(y: int, used: seq<nat>, lh: int)
    ensures |used| > 0 ==> ParagraphTops(y, used, lh)[0] == y
    ensures forall k | 0 <= k < |used| - 1 ::
              ParagraphTops(y, used, lh)[k + 1] == ParagraphTops(y, used, lh)[k] + used[k] * lh + CanvasStyle.PToP
    decreases |used|
  {
    if used != [] {
      var n := |used|;
      var prev := ParagraphTops(y, used[..n - 1], lh);
      ParagraphTopsSpaced(y, used[..n - 1], lh);
      var tops := ParagraphTops(y, used, lh);
      assert forall k | 0 <= k < n - 1 :: tops[k] == prev[k];
    }
  }

  /** Where `renderTextSlide` leaves `y`: after the last paragraph's lines, with no gap after it. */
  function SlideEnd(y: int, used: seq<nat>, lh: int): int
  {
    if used == [] then y else ParagraphTops(y, used, lh)[|used| - 1] + used[|used| - 1] * lh
  }

  function SumOf(ns: seq<nat>): nat
  {
    if ns == [] then 0 else SumOf(ns[..|ns| - 1]) + ns[|ns| - 1]
  }

  /** The paragraphs take their lines plus one gap between each two. */
  lemma {:induction false} SlideEndSum(y: int, used: seq<nat>, lh: int)
    ensures SlideEnd(y, used, lh) == y + SumOf(used) * lh + (if used == [] then 0 else (|used| - 1) * CanvasStyle.PToP)
    decreases |used|
  {
    var n := |used|;
    if n > 1 {
      var init := used[..n - 1];
      SlideEndSum(y, init, lh);
      assert ParagraphTops(y, init, lh)[n - 2] == ParagraphTops(y, used, lh)[n - 2];
      assert init[n - 2] == used[n - 2];
      assert SumOf(used) * lh == SumOf(init) * lh + used[n - 1] * lh;
    }
  }

  /** Where the text starts below the title. */
  function TextTop(contentY: int, titleLines: nat, hasTitle: bool): int
  {
    if hasTitle then contentY + titleLines * CanvasStyle.LineHeight(CanvasStyle.TitleTextWithContent) + CanvasStyle.H2ToP
    else contentY
  }

  /** The paragraphs of a text slide as `renderTextSlide` lays them out. */
  function ParasOf(text: string, contentWidth: int, measure: (string, bool) -> nat): (ps: seq<Para>)
    ensures |ps| == |Paragraphs(text)|
  {
    var raw := Paragraphs(text);
    seq(|raw|, k requires 0 <= k < |raw| => ParaOf(raw[k], CanvasStyle.Padding, contentWidth, measure))
  }

  /** The lines each paragraph uses, in order. */
  function UsedAll(ps: seq<Para>, pen: Pen): (used: seq<nat>)
    ensures |used| == |ps|
    ensures forall k | 0 <= k < |ps| :: used[k] == UsedLines(ps[k], pen)
  {
    MapSeq(ps, LineCounter(pen))
  }

  function LineCounter(pen: Pen): Para -> nat
  {
    p => UsedLines(p, pen)
  }

  /** The fill colour drawing a paragraph leaves behind, the paragraph's base colour being `pen.baseColor`. */
  function StyleAfter(para: Para, pen: Pen): string
  {
    StyleLeft(para.text, para.maxWidth, pen)
  }

  /**
   * The base colour each paragraph is drawn with: the context's fill colour
   * on entry for the first, and for each next one the fill colour the
   * previous paragraph left behind.
   */
  function BaseColors(ps: seq<Para>, pen: Pen): (cs: seq<string>)
    ensures |cs| == |ps|
  {
    if ps == [] then []
    else
      var n := |ps|;
      var prev := BaseColors(ps[..n - 1], pen);
      prev + [if n == 1 then pen.baseColor else StyleAfter(ps[n - 2], pen.(baseColor := prev[n - 2]))]
  }

  lemma {:induction false} BaseColorsFollow(ps: seq<Para>, pen: Pen)
    ensures |ps| > 0 ==> BaseColors(ps, pen)[0] == pen.baseColor
    ensures forall k | 0 <= k < |ps| - 1 ::
              BaseColors(ps, pen)[k + 1] == StyleAfter(ps[k], pen.(baseColor := BaseColors(ps, pen)[k]))
    decreases |ps|
  {
    if ps != [] {
      var n := |ps|;
      var init := ps[..n - 1];
      BaseColorsFollow(init, pen);
      var cs, prev := BaseColors(ps, pen), BaseColors(init, pen);
      assert cs == prev + [if n == 1 then pen.baseColor else StyleAfter(ps[n - 2], pen.(baseColor := prev[n - 2]))];
      forall k | 0 <= k < n - 1
        ensures cs[k + 1] == StyleAfter(ps[k], pen.(baseColor := cs[k]))
      {
        assert cs[k] == prev[k] && init[k] == ps[k];
        if k + 1 < n - 1 {
          assert cs[k + 1] == prev[k + 1];
        }
      }
    }
  }

  /** The runs of all lines, in drawing order. */
  function AllRuns(lines: seq<Wrapping.Line>): seq<Run>
    decreases |lines|
  {
    if lines == [] then [] else lines[0].runs + AllRuns(lines[1..])
  }

  /** The run loop leaves the colour of the last run drawn, whatever line it is on. */
  lemma {:induction false} LinesStyleIsLastRun(lines: seq<Wrapping.Line>, c: string, pen: Pen)
    ensures var rs := AllRuns(lines);
            LinesStyle(lines, c, pen) == if rs == [] then c else RunColor(rs[|rs| - 1], pen)
    decreases |lines|
  {
    if lines != [] {
      LinesStyleIsLastRun(lines[1..], RunsStyle(lines[0].runs, c, pen), pen);
      var rest := AllRuns(lines[1..]);
      if rest != [] {
        assert (lines[0].runs + rest)[|lines[0].runs + rest| - 1] == rest[|rest| - 1];
      }
    }
  }

  /**
   * The colour a paragraph is drawn in carries over: on a slide that is not
   * an accent slide, a paragraph whose last run is bold and underlined leaves
   * the accent colour as the next paragraph's base colour; otherwise the next
   * paragraph keeps this one's base colour.
   */
  lemma BaseColorCarriesOver(ps: seq<Para>, pen: Pen, k: nat)
    requires k < |ps| - 1
    ensures var rs := AllRuns(RichLines(ps[k].text, pen.measure, ps[k].maxWidth));
            BaseColors(ps, pen)[k + 1]
            == if !pen.slideIsAccent && ps[k].text != [] && rs != [] && rs[|rs| - 1].bold && rs[|rs| - 1].underline
               then pen.accentColor else BaseColors(ps, pen)[k]
  {
    BaseColorsFollow(ps, pen);
    var cs := BaseColors(ps, pen);
    var pk := pen.(baseColor := cs[k]);
    if ps[k].text != [] {
      LinesStyleIsLastRun(RichLines(ps[k].text, pen.measure, ps[k].maxWidth), cs[k], pk);
    }
  }

  /** Every paragraph is drawn on the slide's text colour or the accent colour, and always the text colour on an accent slide. */
  lemma {:induction false} BaseColorsTextOrAccent(ps: seq<Para>, pen: Pen, k: nat)
    requires k < |ps|
    ensures BaseColors(ps, pen)[k] == pen.baseColor || BaseColors(ps, pen)[k] == pen.accentColor
    ensures pen.slideIsAccent ==> BaseColors(ps, pen)[k] == pen.baseColor
  {
    BaseColorsFollow(ps, pen);
    if k > 0 {
      BaseColorsTextOrAccent(ps, pen, k - 1);
      BaseColorCarriesOver(ps, pen, k - 1);
    }
  }

  /**
   * `renderTextSlide(ctx, slide, contentY, contentWidth, brandColor)`: returns
   * the baseline each paragraph starts on, the final `y`, the lines each
   * paragraph used and the base colour each paragraph was drawn with.  The
   * title is measured with `titleMeasure` (the bold 96px title font) and the
   * text with `pen.measure`; `pen.baseColor` is the context's fill colour on
   * entry (the slide's text colour), which is the first paragraph's base
   * colour and also the colour of the first bullet marker.
   */
  method RenderTextSlide(title: string, text: string, contentY: int, contentWidth: int,
                         titleMeasure: string -> nat, pen: Pen)
    returns (tops: seq<int>, y: int, used: seq<nat>, colors: seq<string>)
    requires pen.size == CanvasStyle.Text.size
    ensures used == UsedAll(ParasOf(text, contentWidth, pen.measure), pen)
    ensures colors == BaseColors(ParasOf(text, contentWidth, pen.measure), pen)
    ensures tops == ParagraphTops(TextTop(contentY, |PlainWrap.PlainGroups(title, titleMeasure, contentWidth)|, title != []),
                                  used, CanvasStyle.LineHeight(CanvasStyle.Text))
    ensures y == SlideEnd(TextTop(contentY, |PlainWrap.PlainGroups(title, titleMeasure, contentWidth)|, title != []),
                          used, CanvasStyle.LineHeight(CanvasStyle.Text))
  {
    y := DrawTitle(title, contentY, contentWidth, titleMeasure);
    var paras := ParasOf(text, contentWidth, pen.measure);
    if text == [] {
      assert SplitChar(text, '\n') == [""];
      assert IsBlank("") && [""][1..] == [];
      assert paras == [];
    }
    tops, y, used, colors := LayParagraphs(paras, y, CanvasStyle.LineHeight(CanvasStyle.Text), pen);
  }

  lemma LayStep(top: int, used: seq<nat>, u: nat, lh: int, y: int, idx: nat, n: nat) returns (end: int)
    requires idx == |used| < n
    requires y == SlideEnd(top, used, lh) + (if 0 < idx < n then CanvasStyle.PToP else 0)
    ensures ParagraphTops(top, used + [u], lh) == ParagraphTops(top, used, lh) + [y]
    ensures end == y + u * lh == SlideEnd(top, used + [u], lh)
  {
    TopsSnoc(top, used, u, lh);
    end := y + u * lh;
  }

  /** One paragraph more: it starts a gap below where the previous one ended. */
  lemma {:induction false} TopsSnoc(top: int, used: seq<nat>, u: nat, lh: int)
    ensures ParagraphTops(top, used + [u], lh)
            == ParagraphTops(top, used, lh) + [if used == [] then top else SlideEnd(top, used, lh) + CanvasStyle.PToP]
    ensures SlideEnd(top, used + [u], lh)
            == (if used == [] then top else SlideEnd(top, used, lh) + CanvasStyle.PToP) + u * lh
  {
    var n := |used|;
    assert (used + [u])[..n] == used;
  }

  /** `renderRichText` for one paragraph, seen from the paragraph loop: the lines it used and the fill colour it left. */
  method DrawParagraph(para: Para, y: int, pen: Pen) returns (usedLines: nat, fillStyle: string)
    requires pen.size == CanvasStyle.Text.size
    ensures usedLines == UsedLines(para, pen)
    ensures fillStyle == StyleAfter(para, pen)
  {
    var fills, strokes;
    fills, strokes, usedLines, fillStyle := RenderRichText(para.text, para.x, y, para.maxWidth, CanvasStyle.Text, pen);
    UsedLinesAnywhere(para, y, pen);
  }

  /** One paragraph more: its base colour is appended. */
  lemma BaseColorsPrefix(ps: seq<Para>, idx: nat, pen: Pen)
    requires idx < |ps|
    ensures var cs := BaseColors(ps[..idx], pen);
            BaseColors(ps[..idx + 1], pen)
            == cs + [if idx == 0 then pen.baseColor else StyleAfter(ps[idx - 1], pen.(baseColor := cs[idx - 1]))]
  {
    var q := ps[..idx + 1];
    assert q[..idx] == ps[..idx];
    if idx > 0 {
      assert q[idx - 1] == ps[idx - 1];
    }
  }

  /** One paragraph more: its line count is appended. */
  lemma UsedAllPrefix(ps: seq<Para>, idx: nat, pen: Pen)
    requires idx < |ps|
    ensures UsedAll(ps[..idx + 1], pen) == UsedAll(ps[..idx], pen) + [UsedLines(ps[idx], pen)]
  {
    MapSeqPrefix(ps, idx, LineCounter(pen));
  }

  /** The title block of `renderTextSlide` (canvas-server.js:547-557): returns where the text starts. */
  method DrawTitle(title: string, contentY: int, contentWidth: int, titleMeasure: string -> nat) returns (y: int)
    ensures y == TextTop(contentY, |PlainWrap.PlainGroups(title, titleMeasure, contentWidth)|, title != [])
  {
    y := contentY;
    if title != [] {
      var titleStyle := CanvasStyle.GetFontStyle(CanvasStyle.TitleTextWithContent);
      var lines := PlainWrap.WrapPlainForIntro(title, titleMeasure, contentWidth);
      y := y + |lines| * titleStyle.lineHeight + CanvasStyle.H2ToP;
    }
  }

  /** The paragraph loop of `renderTextSlide` (canvas-server.js:559-596). */
  method LayParagraphs(paras: seq<Para>, top: int, lh: int, pen: Pen)
    returns (tops: seq<int>, y: int, used: seq<nat>, colors: seq<string>)
    requires pen.size == CanvasStyle.Text.size
    ensures used == UsedAll(paras, pen)
    ensures tops == ParagraphTops(top, used, lh)
    ensures y == SlideEnd(top, used, lh)
    ensures colors == BaseColors(paras, pen)
  {
    y := top;
    tops, used, colors := [], [], [];
    var fillStyle := pen.baseColor;
    for idx := 0 to |paras|
      invariant used == UsedAll(paras[..idx], pen)
      invariant tops == ParagraphTops(top, used, lh)
      invariant y == SlideEnd(top, used, lh) + (if 0 < idx < |paras| then CanvasStyle.PToP else 0)
      invariant colors == BaseColors(paras[..idx], pen)
      invariant fillStyle == if idx == 0 then pen.baseColor
                             else StyleAfter(paras[idx - 1], pen.(baseColor := colors[idx - 1]))
    {
      tops, y, used, colors, fillStyle := LayNext(paras, idx, top, lh, pen, tops, y, used, colors, fillStyle);
    }
    assert paras[..|paras|] == paras;
  }

  /** One pass of the paragraph loop: draw paragraph `idx` at `y`, then move below it and one gap more unless it is the last. */
  method LayNext(paras: seq<Para>, idx: nat, top: int, lh: int, pen: Pen, tops0: seq<int>, y0: int, used0: seq<nat>,
                 colors0: seq<string>, style0: string)
    returns (tops: seq<int>, y: int, used: seq<nat>, colors: seq<string>, fillStyle: string)
    requires pen.size == CanvasStyle.Text.size
    requires idx < |paras|
    requires used0 == UsedAll(paras[..idx], pen)
    requires tops0 == ParagraphTops(top, used0, lh)
    requires y0 == SlideEnd(top, used0, lh) + (if 0 < idx then CanvasStyle.PToP else 0)
    requires colors0 == BaseColors(paras[..idx], pen)
    requires style0 == if idx == 0 then pen.baseColor else StyleAfter(paras[idx - 1], pen.(baseColor := colors0[idx - 1]))
    ensures used == UsedAll(paras[..idx + 1], pen)
    ensures tops == ParagraphTops(top, used, lh)
    ensures y == SlideEnd(top, used, lh) + (if idx + 1 < |paras| then CanvasStyle.PToP else 0)
    ensures colors == BaseColors(paras[..idx + 1], pen)
    ensures fillStyle == StyleAfter(paras[idx], pen.(baseColor := colors[idx]))
  {
    var usedLines;
    usedLines, fillStyle := DrawParagraph(paras[idx], y0, pen.(baseColor := style0));
    assert UsedLines(paras[idx], pen.(baseColor := style0)) == UsedLines(paras[idx], pen);
    UsedAllPrefix(paras, idx, pen);
    BaseColorsPrefix(paras, idx, pen);
    colors := colors0 + [style0];
    ghost var end := LayStep(top, used0, usedLines, lh, y0, idx, |paras|);
    tops := tops0 + [y0];
    used := used0 + [usedLines];
    y := y0 + usedLines * lh;
    if idx != |paras| - 1 {
      y := y + CanvasStyle.PToP;
    }
  }
}
