/**
 * The two greedy line breakers of canvas-server.js: `wrapSegments`, which
 * lays out styled runs and breaks a word that is wider than the line
 * character by character, and `wrapPlainForIntro`, which lays out plain
 * titles.  Text measurement (`ctx.measureText(...).width` under the current
 * font) is a parameter: `measure(text, bold)`.
 */
module Wrapping {
  import opened Common
  import opened InlineTokens
  import Typography

  // ---- words ----

  /** The separators of `split(/[ \t\n]+/)`; the no-break space is not one of them. */
  predicate IsBreakSpace(c: char)
  {
    c == ' ' || c == '\t' || c == '\n'
  }

  predicate NoBreakSpace(s: string)
  {
    forall i | 0 <= i < |s| :: !IsBreakSpace(s[i])
  }

  /** The pieces between single separators; runs of separators leave empty pieces. */
  function Pieces(t: string): (r: seq<string>)
    ensures |r| >= 1
    ensures forall i | 0 <= i < |r| :: NoBreakSpace(r[i])
  {
    if t == [] then [""]
    else
      var rest := Pieces(t[1..]);
      if IsBreakSpace(t[0]) then [""] + rest
      else [[t[0]] + rest[0]] + rest[1..]
  }

  /** `.filter(w => w.trim())` */
  function NonBlank(ps: seq<string>): (r: seq<string>)
    ensures forall i | 0 <= i < |r| :: !IsBlank(r[i])
    ensures forall i | 0 <= i < |r| :: exists j | 0 <= j < |ps| :: r[i] == ps[j]
  {
    if ps == [] then []
    else
      var rest := NonBlank(ps[1..]);
      assert forall i | 0 <= i < |rest| :: exists j | 0 <= j < |ps| :: rest[i] == ps[j] by {
        forall i | 0 <= i < |rest|
          ensures exists j | 0 <= j < |ps| :: rest[i] == ps[j]
        {
          var j :| 0 <= j < |ps[1..]| && rest[i] == ps[1..][j];
          assert rest[i] == ps[j + 1];
        }
      }
      if IsBlank(ps[0]) then rest else [ps[0]] + rest
  }

  /**
   * `text.split(/[ \t\n]+/).filter(w => w.trim())`: the words of a text.
   * Splitting at single separators and dropping blank pieces gives the same
   * words as splitting at runs of separators.
   */
  function WordsOf(t: string): (r: seq<string>)
    ensures forall i | 0 <= i < |r| :: r[i] != [] && !IsBlank(r[i]) && NoBreakSpace(r[i])
  {
    var ps := Pieces(t);
    var r := NonBlank(ps);
    assert forall i | 0 <= i < |r| :: NoBreakSpace(r[i]) by {
      forall i | 0 <= i < |r|
        ensures NoBreakSpace(r[i])
      {
        var j :| 0 <= j < |ps| && r[i] == ps[j];
      }
    }
    r
  }

  lemma {:induction false} PiecesOfWord(t: string)
    requires NoBreakSpace(t)
    ensures Pieces(t) == [t]
  {
    if t != [] {
      PiecesOfWord(t[1..]);
      assert [t[0]] + t[1..] == t;
    }
  }

  /** Text joined by no-break spaces stays one word. */
  lemma NoBreakSpaceKeepsOneWord(t: string)
    requires NoBreakSpace(t) && !IsBlank(t)
    ensures WordsOf(t) == [t]
  {
    PiecesOfWord(t);
    assert [t][1..] == [];
    assert NonBlank([t]) == [t] + NonBlank([]);
  }

  /** The words of all segments, each carrying its segment's style (canvas-server.js:241-248). */
  function AllWords(segs: seq<Run>): (r: seq<Run>)
    ensures forall i | 0 <= i < |r| :: r[i].text != [] && NoBreakSpace(r[i].text)
  {
    if segs == [] then []
    else
      var last := segs[|segs| - 1];
      AllWords(segs[..|segs| - 1]) + StyledWords(WordsOf(last.text), last)
  }

  function StyledWords(ws: seq<string>, seg: Run): (r: seq<Run>)
    ensures |r| == |ws|
    ensures forall i | 0 <= i < |r| :: r[i] == seg.(text := ws[i])
  {
    seq(|ws|, i requires 0 <= i < |ws| => seg.(text := ws[i]))
  }

  // ---- wrapSegments ----

  datatype Line = Line(runs: seq<Run>, width: nat)

  /** The layout state: finished lines, the runs of the open line, its width. */
  datatype WrapState = WrapState(lines: seq<Line>, runs: seq<Run>, width: nat)

  const Start := WrapState([], [], 0)

  /** `pushLine()`: close the open line if it holds any run. */
  function PushLine(st: WrapState): WrapState
  {
    if st.runs != [] then WrapState(st.lines + [Line(st.runs, st.width)], [], 0) else st
  }

  /** The character-by-character placement of an over-long word (canvas-server.js:270-287). */
  function BreakFrom(st: WrapState, chunk: string, w: Run, chars: string,
                     measure: (string, bool) -> nat, maxWidth: int): WrapState
    decreases |chars|
  {
    if chars == [] then
      if chunk != [] then st.(runs := st.runs + [w.(text := chunk)]) else st
    else
      var ch := chars[0];
      var chW := measure([ch], w.bold);
      if st.width + chW > maxWidth && chunk != [] then
        var closed := PushLine(st.(runs := st.runs + [w.(text := chunk)]));
        BreakFrom(closed.(width := chW), [ch], w, chars[1..], measure, maxWidth)
      else
        BreakFrom(st.(width := st.width + chW), chunk + [ch], w, chars[1..], measure, maxWidth)
  }

  /** Placing one word (canvas-server.js:251-294). */
  function PlaceWord(st: WrapState, w: Run, measure: (string, bool) -> nat, maxWidth: int): WrapState
  {
    var wordW := measure(w.text, w.bold);
    var spaceW := measure(" ", w.bold);
    var needSpace := st.runs != [];
    var total := st.width + (if needSpace then spaceW else 0) + wordW;
    if total <= maxWidth then
      if needSpace then WrapState(st.lines, st.runs + [w.(text := " "), w], st.width + spaceW + wordW)
      else WrapState(st.lines, st.runs + [w], st.width + wordW)
    else if wordW > maxWidth then BreakFrom(st, "", w, w.text, measure, maxWidth)
    else
      var closed := PushLine(st);
      WrapState(closed.lines, [w], wordW)
  }

  function WrapFrom(st: WrapState, words: seq<Run>, measure: (string, bool) -> nat, maxWidth: int): WrapState
    decreases |words|
  {
    if words == [] then PushLine(st)
    else WrapFrom(PlaceWord(st, words[0], measure, maxWidth), words[1..], measure, maxWidth)
  }

  /** The lines `wrapSegments` returns. */
  function Wrap(segs: seq<Run>, measure: (string, bool) -> nat, maxWidth: int): seq<Line>
  {
    WrapFrom(Start, AllWords(segs), measure, maxWidth).lines
  }

  /**
   * `wrapSegments(ctx, segments, maxWidth, baseFontSize)`: collect the words,
   * then place them one by one.  Every line it returns holds a run, and every
   * run holds text.
   */
  method WrapSegments(segs: seq<Run>, measure: (string, bool) -> nat, maxWidth: int)
    returns (lines: seq<Line>)
    ensures lines == Wrap(segs, measure, maxWidth)
    ensures forall i | 0 <= i < |lines| :: LineSound(lines[i])
  {
    var allWords := CollectWords(segs);
    lines := [];
    var currentRuns: seq<Run> := [];
    var currentWidth: nat := 0;
    assert allWords[0..] == allWords;
    for i := 0 to |allWords|
      invariant WrapFrom(WrapState(lines, currentRuns, currentWidth), allWords[i..], measure, maxWidth)
                == WrapFrom(Start, allWords, measure, maxWidth)
    {
      PlaceStep(WrapState(lines, currentRuns, currentWidth), allWords, i, measure, maxWidth);
      lines, currentRuns, currentWidth := PlaceOneWord(lines, currentRuns, currentWidth, allWords[i], measure, maxWidth);
    }
    if currentRuns != [] {
      lines := lines + [Line(currentRuns, currentWidth)];
    }
    WrapSound(segs, measure, maxWidth);
  }

  /** One pass of the word loop of `wrapSegments` (canvas-server.js:251-294). */
  method PlaceOneWord(lines0: seq<Line>, runs0: seq<Run>, width0: nat, word: Run,
                      measure: (string, bool) -> nat, maxWidth: int)
    returns (lines: seq<Line>, currentRuns: seq<Run>, currentWidth: nat)
    ensures WrapState(lines, currentRuns, currentWidth) == PlaceWord(WrapState(lines0, runs0, width0), word, measure, maxWidth)
  {
    lines, currentRuns, currentWidth := lines0, runs0, width0;
    var wordWidth := measure(word.text, word.bold);
    var spaceWidth := measure(" ", word.bold);
    var needSpace := |currentRuns| > 0;
    var totalWidth := currentWidth + (if needSpace then spaceWidth else 0) + wordWidth;
    if totalWidth <= maxWidth {
      if needSpace {
        currentRuns := currentRuns + [word.(text := " ")];
        currentWidth := currentWidth + spaceWidth;
      }
      currentRuns := currentRuns + [word];
      currentWidth := currentWidth + wordWidth;
      assert currentRuns == runs0 + (if needSpace then [word.(text := " "), word] else [word]);
    } else if wordWidth > maxWidth {
      lines, currentRuns, currentWidth := BreakWord(lines, currentRuns, currentWidth, word, measure, maxWidth);
    } else {
      if currentRuns != [] {
        lines := lines + [Line(currentRuns, currentWidth)];
      }
      currentRuns := [word];
      currentWidth := wordWidth;
    }
  }

  /**
   * The character loop for a word wider than the line (canvas-server.js:270-287):
   * characters fill the open line, with no space before them, and a chunk is
   * closed off only when it is non-empty.
   */
  method BreakWord(lines0: seq<Line>, runs0: seq<Run>, width0: nat, word: Run,
                   measure: (string, bool) -> nat, maxWidth: int)
    returns (lines: seq<Line>, currentRuns: seq<Run>, currentWidth: nat)
    ensures WrapState(lines, currentRuns, currentWidth)
            == BreakFrom(WrapState(lines0, runs0, width0), "", word, word.text, measure, maxWidth)
  {
    lines, currentRuns, currentWidth := lines0, runs0, width0;
    var chunk: string := "";
    assert word.text[0..] == word.text;
    for c := 0 to |word.text|
      invariant BreakFrom(WrapState(lines, currentRuns, currentWidth), chunk, word, word.text[c..], measure, maxWidth)
                == BreakFrom(WrapState(lines0, runs0, width0), "", word, word.text, measure, maxWidth)
    {
      ghost var cur := WrapState(lines, currentRuns, currentWidth);
      ghost var chunk0 := chunk;
      var ch := word.text[c];
      assert word.text[c..] == [ch] + word.text[c + 1..];
      var chWidth := measure([ch], word.bold);
      if currentWidth + chWidth > maxWidth && chunk != "" {
        currentRuns := currentRuns + [word.(text := chunk)];
        lines := lines + [Line(currentRuns, currentWidth)];
        currentRuns := [];
        chunk := [ch];
        currentWidth := chWidth;
      } else {
        chunk := chunk + [ch];
        currentWidth := currentWidth + chWidth;
      }
      BreakStep(cur, chunk0, word, word.text[c..], measure, maxWidth);
    }
    if chunk != "" {
      currentRuns := currentRuns + [word.(text := chunk)];
    }
    assert word.text[|word.text|..] == [];
  }

  lemma PlaceStep(st: WrapState, words: seq<Run>, i: nat, measure: (string, bool) -> nat, maxWidth: int)
    requires i < |words|
    ensures WrapFrom(st, words[i..], measure, maxWidth) == WrapFrom(PlaceWord(st, words[i], measure, maxWidth), words[i + 1..], measure, maxWidth)
  {
    assert words[i..][1..] == words[i + 1..];
  }

  lemma BreakStep(st: WrapState, chunk: string, w: Run, chars: string, measure: (string, bool) -> nat, maxWidth: int)
    requires chars != []
    ensures var chW := measure([chars[0]], w.bold);
            BreakFrom(st, chunk, w, chars, measure, maxWidth)
            == if st.width + chW > maxWidth && chunk != [] then
                 BreakFrom(WrapState(st.lines + [Line(st.runs + [w.(text := chunk)], st.width)], [], chW),
                           [chars[0]], w, chars[1..], measure, maxWidth)
               else BreakFrom(st.(width := st.width + chW), chunk + [chars[0]], w, chars[1..], measure, maxWidth)
  {
  }

  /** The word-collecting loop of `wrapSegments` (canvas-server.js:241-248). */
  method CollectWords(segs: seq<Run>) returns (allWords: seq<Run>)
    ensures allWords == AllWords(segs)
  {
    allWords := [];
    for s := 0 to |segs|
      invariant allWords == AllWords(segs[..s])
    {
      assert segs[..s + 1][..s] == segs[..s];
      allWords := AppendWords(allWords, WordsOf(segs[s].text), segs[s]);
    }
    assert segs[..|segs|] == segs;
  }

  /** The inner loop of the collection: one segment's words, in order, with its style. */
  method AppendWords(allWords0: seq<Run>, words: seq<string>, seg: Run) returns (allWords: seq<Run>)
    ensures allWords == allWords0 + StyledWords(words, seg)
  {
    allWords := allWords0;
    for k := 0 to |words|
      invariant allWords == allWords0 + StyledWords(words[..k], seg)
    {
      assert StyledWords(words[..k + 1], seg) == StyledWords(words[..k], seg) + [seg.(text := words[k])];
      allWords := allWords + [seg.(text := words[k])];
    }
    assert words[..|words|] == words;
  }

  // ---- no empty line, no empty run ----

  predicate RunsSound(rs: seq<Run>)
  {
    forall j | 0 <= j < |rs| :: rs[j].text != []
  }

  predicate LineSound(l: Line)
  {
    l.runs != [] && RunsSound(l.runs)
  }

  predicate Sound(st: WrapState)
  {
    (forall i | 0 <= i < |st.lines| :: LineSound(st.lines[i])) && RunsSound(st.runs)
  }

  lemma {:induction false} BreakSound(st: WrapState, chunk: string, w: Run, chars: string,
                                      measure: (string, bool) -> nat, maxWidth: int)
    requires Sound(st)
    ensures Sound(BreakFrom(st, chunk, w, chars, measure, maxWidth))
    decreases |chars|
  {
    if chars != [] {
      var chW := measure([chars[0]], w.bold);
      if st.width + chW > maxWidth && chunk != [] {
        var closed := PushLine(st.(runs := st.runs + [w.(text := chunk)]));
        BreakSound(closed.(width := chW), [chars[0]], w, chars[1..], measure, maxWidth);
      } else {
        BreakSound(st.(width := st.width + chW), chunk + [chars[0]], w, chars[1..], measure, maxWidth);
      }
    }
  }

  lemma {:induction false} WrapFromSound(st: WrapState, words: seq<Run>, measure: (string, bool) -> nat, maxWidth: int)
    requires Sound(st)
    requires forall i | 0 <= i < |words| :: words[i].text != []
    ensures Sound(WrapFrom(st, words, measure, maxWidth))
    decreases |words|
  {
    if words != [] {
      BreakSound(st, "", words[0], words[0].text, measure, maxWidth);
      WrapFromSound(PlaceWord(st, words[0], measure, maxWidth), words[1..], measure, maxWidth);
    }
  }

  /** No line is empty and no run is empty (canvas-server.js:232-238, 281-283). */
  lemma WrapSound(segs: seq<Run>, measure: (string, bool) -> nat, maxWidth: int)
    ensures forall i | 0 <= i < |Wrap(segs, measure, maxWidth)| :: LineSound(Wrap(segs, measure, maxWidth)[i])
  {
    WrapFromSound(Start, AllWords(segs), measure, maxWidth);
  }

  // ---- widths and greediness when every word fits ----

  /** The measured widths of runs, added up. */
  function RunsWidth(rs: seq<Run>, measure: (string, bool) -> nat): nat
  {
    if rs == [] then 0
    else RunsWidth(rs[..|rs| - 1], measure) + measure(rs[|rs| - 1].text, rs[|rs| - 1].bold)
  }

  lemma RunsWidthSnoc(rs: seq<Run>, r: Run, measure: (string, bool) -> nat)
    ensures RunsWidth(rs + [r], measure) == RunsWidth(rs, measure) + measure(r.text, r.bold)
  {
    assert (rs + [r])[..|rs|] == rs;
  }

  /** Line `l` cannot take word `w` after a space. */
  predicate Overflows(l: Line, w: Run, measure: (string, bool) -> nat, maxWidth: int)
  {
    l.width + measure(" ", w.bold) + measure(w.text, w.bold) > maxWidth
  }

  predicate WordsFit(words: seq<Run>, measure: (string, bool) -> nat, maxWidth: int)
  {
    forall i | 0 <= i < |words| :: measure(words[i].text, words[i].bold) <= maxWidth
  }

  /** The finished lines are non-empty, fit, record their width, and none could take the next line's first word. */
  predicate LinesGreedy(lines: seq<Line>, measure: (string, bool) -> nat, maxWidth: int)
  {
    && (forall i | 0 <= i < |lines| ::
          lines[i].runs != [] && lines[i].width <= maxWidth && lines[i].width == RunsWidth(lines[i].runs, measure))
    && (forall i | 0 <= i < |lines| - 1 :: Overflows(lines[i], lines[i + 1].runs[0], measure, maxWidth))
  }

  /** The state facts behind greedy filling, when no word needs breaking. */
  predicate Greedy(st: WrapState, measure: (string, bool) -> nat, maxWidth: int)
  {
    && LinesGreedy(st.lines, measure, maxWidth)
    && st.width == RunsWidth(st.runs, measure)
    && (st.runs != [] ==> st.width <= maxWidth)
    && (st.runs == [] ==> st.lines == [])
    && (st.lines != [] ==> Overflows(st.lines[|st.lines| - 1], st.runs[0], measure, maxWidth))
  }

  lemma PlaceGreedy(st: WrapState, w: Run, measure: (string, bool) -> nat, maxWidth: int)
    requires Greedy(st, measure, maxWidth)
    requires measure(w.text, w.bold) <= maxWidth
    ensures Greedy(PlaceWord(st, w, measure, maxWidth), measure, maxWidth)
  {
    if st.width + (if st.runs != [] then measure(" ", w.bold) else 0) + measure(w.text, w.bold) <= maxWidth {
      PlaceGreedyJoin(st, w, measure, maxWidth);
    } else {
      PlaceGreedyNewLine(st, w, measure, maxWidth);
    }
  }

  /** The word joins the open line. */
  lemma PlaceGreedyJoin(st: WrapState, w: Run, measure: (string, bool) -> nat, maxWidth: int)
    requires Greedy(st, measure, maxWidth)
    requires st.width + (if st.runs != [] then measure(" ", w.bold) else 0) + measure(w.text, w.bold) <= maxWidth
    ensures Greedy(PlaceWord(st, w, measure, maxWidth), measure, maxWidth)
  {
    var sp := w.(text := " ");
    JoinShape(st, w, measure, maxWidth);
    if st.runs != [] {
      RunsWidthSnoc(st.runs, sp, measure);
      RunsWidthSnoc(st.runs + [sp], w, measure);
      assert (st.runs + [sp] + [w])[0] == st.runs[0];
    } else {
      RunsWidthSnoc(st.runs, w, measure);
    }
  }

  /** The word overflows the open line: the line is closed and the word opens the next. */
  lemma PlaceGreedyNewLine(st: WrapState, w: Run, measure: (string, bool) -> nat, maxWidth: int)
    requires Greedy(st, measure, maxWidth)
    requires measure(w.text, w.bold) <= maxWidth
    requires st.width + (if st.runs != [] then measure(" ", w.bold) else 0) + measure(w.text, w.bold) > maxWidth
    ensures Greedy(PlaceWord(st, w, measure, maxWidth), measure, maxWidth)
  {
    assert st.runs != [];
    NewLineShape(st, w, measure, maxWidth);
    LinesGreedySnoc(st.lines, Line(st.runs, st.width), measure, maxWidth);
    RunsWidthSnoc([], w, measure);
    assert [] + [w] == [w];
  }

  lemma LinesGreedySnoc(lines: seq<Line>, l: Line, measure: (string, bool) -> nat, maxWidth: int)
    requires LinesGreedy(lines, measure, maxWidth)
    requires l.runs != [] && l.width <= maxWidth && l.width == RunsWidth(l.runs, measure)
    requires lines != [] ==> Overflows(lines[|lines| - 1], l.runs[0], measure, maxWidth)
    ensures LinesGreedy(lines + [l], measure, maxWidth)
  {
    var ls := lines + [l];
    assert forall i | 0 <= i < |lines| :: ls[i] == lines[i];
    assert ls[|lines|] == l;
  }

  lemma {:induction false} WrapFromGreedy(st: WrapState, words: seq<Run>, measure: (string, bool) -> nat, maxWidth: int)
    requires Greedy(st, measure, maxWidth)
    requires WordsFit(words, measure, maxWidth)
    ensures LinesGreedy(WrapFrom(st, words, measure, maxWidth).lines, measure, maxWidth)
    decreases |words|
  {
    if words == [] {
      if st.runs != [] {
        var last := Line(st.runs, st.width);
        assert PushLine(st).lines == st.lines + [last];
      }
    } else {
      PlaceGreedy(st, words[0], measure, maxWidth);
      WrapFromGreedy(PlaceWord(st, words[0], measure, maxWidth), words[1..], measure, maxWidth);
    }
  }

  /**
   * When every word fits on a line by itself, no word is broken: each line is
   * no wider than `maxWidth`, its recorded width is the sum of its runs'
   * measured widths, and no line could have taken the first word of the next
   * one (canvas-server.js:254-293).
   */
  lemma WrapWhenWordsFit(segs: seq<Run>, measure: (string, bool) -> nat, maxWidth: int)
    requires WordsFit(AllWords(segs), measure, maxWidth)
    ensures LinesGreedy(Wrap(segs, measure, maxWidth), measure, maxWidth)
  {
    WrapFromGreedy(Start, AllWords(segs), measure, maxWidth);
  }

  // ---- no text is lost ----

  /** The text of runs, without the space runs the wrapper inserts between words. */
  function Content(rs: seq<Run>): string
  {
    if rs == [] then ""
    else Content(rs[..|rs| - 1]) + (if rs[|rs| - 1].text == " " then "" else rs[|rs| - 1].text)
  }

  function LinesContent(ls: seq<Line>): string
  {
    if ls == [] then "" else LinesContent(ls[..|ls| - 1]) + Content(ls[|ls| - 1].runs)
  }

  function StateContent(st: WrapState): string
  {
    LinesContent(st.lines) + Content(st.runs)
  }

  lemma ContentSnoc(rs: seq<Run>, r: Run)
    requires r.text != " "
    ensures Content(rs + [r]) == Content(rs) + r.text
  {
    assert (rs + [r])[..|rs|] == rs;
  }

  lemma PushLineContent(st: WrapState)
    ensures StateContent(PushLine(st)) == StateContent(st)
  {
    if st.runs != [] {
      var ls := st.lines + [Line(st.runs, st.width)];
      assert ls[..|ls| - 1] == st.lines;
    }
  }

  /** Closing the open line on a chunk keeps the chunk's text, whatever width the next line starts with. */
  lemma ChunkClosed(st: WrapState, chunk: string, w: Run, width: nat)
    requires chunk != [] && NoBreakSpace(chunk)
    ensures StateContent(PushLine(st.(runs := st.runs + [w.(text := chunk)])).(width := width)) == StateContent(st) + chunk
  {
    assert chunk != " " by { assert !IsBreakSpace(chunk[0]); }
    var withChunk := st.(runs := st.runs + [w.(text := chunk)]);
    ContentSnoc(st.runs, w.(text := chunk));
    PushLineContent(withChunk);
  }

  lemma {:induction false} BreakContent(st: WrapState, chunk: string, w: Run, chars: string,
                                        measure: (string, bool) -> nat, maxWidth: int)
    requires NoBreakSpace(chunk) && NoBreakSpace(chars)
    ensures StateContent(BreakFrom(st, chunk, w, chars, measure, maxWidth)) == StateContent(st) + chunk + chars
    decreases |chars|, 1
  {
    if chars == [] {
      assert StateContent(st) + chunk + chars == StateContent(st) + chunk;
      if chunk != [] {
        assert chunk != " " by { assert !IsBreakSpace(chunk[0]); }
        ContentSnoc(st.runs, w.(text := chunk));
        assert LinesContent(st.lines) + (Content(st.runs) + chunk) == StateContent(st) + chunk;
      }
    } else if st.width + measure([chars[0]], w.bold) > maxWidth && chunk != [] {
      var next := WrapState(st.lines + [Line(st.runs + [w.(text := chunk)], st.width)], [], measure([chars[0]], w.bold));
      CloseStep(st, chunk, w, chars, measure, maxWidth);
      BreakContentClose(st, next, chunk, w, chars, measure, maxWidth);
    } else {
      BreakStep(st, chunk, w, chars, measure, maxWidth);
      BreakContentGrow(st, chunk, w, chars, measure, maxWidth);
    }
  }

  /** The next character does not fit: the open line is closed on the chunk. */
  lemma CloseStep(st: WrapState, chunk: string, w: Run, chars: string, measure: (string, bool) -> nat, maxWidth: int)
    requires NoBreakSpace(chunk)
    requires chars != [] && chunk != [] && st.width + measure([chars[0]], w.bold) > maxWidth
    ensures var next := WrapState(st.lines + [Line(st.runs + [w.(text := chunk)], st.width)], [], measure([chars[0]], w.bold));
            BreakFrom(st, chunk, w, chars, measure, maxWidth) == BreakFrom(next, [chars[0]], w, chars[1..], measure, maxWidth)
            && StateContent(next) == StateContent(st) + chunk
  {
    BreakStep(st, chunk, w, chars, measure, maxWidth);
    ChunkClosed(st, chunk, w, measure([chars[0]], w.bold));
  }

  /** After closing, the wrap goes on from the new line holding the first character. */
  lemma {:induction false} BreakContentClose(st: WrapState, next: WrapState, chunk: string, w: Run, chars: string,
                                             measure: (string, bool) -> nat, maxWidth: int)
    requires NoBreakSpace(chars) && chars != []
    requires BreakFrom(st, chunk, w, chars, measure, maxWidth) == BreakFrom(next, [chars[0]], w, chars[1..], measure, maxWidth)
    requires StateContent(next) == StateContent(st) + chunk
    ensures StateContent(BreakFrom(st, chunk, w, chars, measure, maxWidth)) == StateContent(st) + chunk + chars
    decreases |chars|, 0
  {
    BreakContent(next, [chars[0]], w, chars[1..], measure, maxWidth);
    HeadThenTail(StateContent(st) + chunk, chars);
  }

  lemma HeadThenTail(a: string, chars: string)
    requires chars != []
    ensures a + [chars[0]] + chars[1..] == a + chars
  {
    assert chars == [chars[0]] + chars[1..];
  }

  /** The next character fits, or the chunk is empty: it joins the chunk. */
  lemma {:induction false} BreakContentGrow(st: WrapState, chunk: string, w: Run, chars: string,
                                            measure: (string, bool) -> nat, maxWidth: int)
    requires NoBreakSpace(chunk) && NoBreakSpace(chars) && chars != []
    requires BreakFrom(st, chunk, w, chars, measure, maxWidth)
             == BreakFrom(st.(width := st.width + measure([chars[0]], w.bold)), chunk + [chars[0]], w, chars[1..], measure, maxWidth)
    ensures StateContent(BreakFrom(st, chunk, w, chars, measure, maxWidth)) == StateContent(st) + chunk + chars
    decreases |chars|, 0
  {
    var wider := st.(width := st.width + measure([chars[0]], w.bold));
    BreakContent(wider, chunk + [chars[0]], w, chars[1..], measure, maxWidth);
    HeadThenTail(StateContent(st) + chunk, chars);
  }

  lemma PlaceContent(st: WrapState, w: Run, measure: (string, bool) -> nat, maxWidth: int)
    requires w.text != [] && NoBreakSpace(w.text)
    ensures StateContent(PlaceWord(st, w, measure, maxWidth)) == StateContent(st) + w.text
  {
    var wordW := measure(w.text, w.bold);
    var total := st.width + (if st.runs != [] then measure(" ", w.bold) else 0) + wordW;
    if total <= maxWidth {
      PlaceContentJoin(st, w, measure, maxWidth);
    } else if wordW > maxWidth {
      BreakContent(st, "", w, w.text, measure, maxWidth);
    } else {
      PlaceContentNewLine(st, w, measure, maxWidth);
    }
  }

  /** The word joins the open line, after a space run when the line is not empty. */
  lemma PlaceContentJoin(st: WrapState, w: Run, measure: (string, bool) -> nat, maxWidth: int)
    requires w.text != [] && NoBreakSpace(w.text)
    requires st.width + (if st.runs != [] then measure(" ", w.bold) else 0) + measure(w.text, w.bold) <= maxWidth
    ensures StateContent(PlaceWord(st, w, measure, maxWidth)) == StateContent(st) + w.text
  {
    assert w.text != " " by { assert !IsBreakSpace(w.text[0]); }
    var sp := w.(text := " ");
    JoinShape(st, w, measure, maxWidth);
    if st.runs != [] {
      ContentSpace(st.runs, sp);
      ContentSnoc(st.runs + [sp], w);
    } else {
      ContentSnoc(st.runs, w);
    }
  }

  lemma JoinShape(st: WrapState, w: Run, measure: (string, bool) -> nat, maxWidth: int)
    requires st.width + (if st.runs != [] then measure(" ", w.bold) else 0) + measure(w.text, w.bold) <= maxWidth
    ensures PlaceWord(st, w, measure, maxWidth).lines == st.lines
    ensures PlaceWord(st, w, measure, maxWidth).runs == (if st.runs != [] then st.runs + [w.(text := " ")] else st.runs) + [w]
  {
    if st.runs != [] {
      assert st.runs + [w.(text := " "), w] == st.runs + [w.(text := " ")] + [w];
    }
  }

  /** A space run shows nothing. */
  lemma ContentSpace(rs: seq<Run>, sp: Run)
    requires sp.text == " "
    ensures Content(rs + [sp]) == Content(rs)
  {
    assert (rs + [sp])[..|rs|] == rs;
  }

  /** The word fits alone: the open line is closed and the word starts the next. */
  lemma PlaceContentNewLine(st: WrapState, w: Run, measure: (string, bool) -> nat, maxWidth: int)
    requires w.text != [] && NoBreakSpace(w.text)
    requires st.width + (if st.runs != [] then measure(" ", w.bold) else 0) + measure(w.text, w.bold) > maxWidth
    requires measure(w.text, w.bold) <= maxWidth
    ensures StateContent(PlaceWord(st, w, measure, maxWidth)) == StateContent(st) + w.text
  {
    assert w.text != " " by { assert !IsBreakSpace(w.text[0]); }
    NewLineShape(st, w, measure, maxWidth);
    PushLineContent(st);
    OpenedContent(PushLine(st).lines, w, measure(w.text, w.bold));
  }

  lemma NewLineShape(st: WrapState, w: Run, measure: (string, bool) -> nat, maxWidth: int)
    requires st.width + (if st.runs != [] then measure(" ", w.bold) else 0) + measure(w.text, w.bold) > maxWidth
    requires measure(w.text, w.bold) <= maxWidth
    ensures PlaceWord(st, w, measure, maxWidth) == WrapState(PushLine(st).lines, [w], measure(w.text, w.bold))
    ensures PushLine(st).runs == []
  {
  }

  /** A state whose open line holds one word shows the closed lines, then the word. */
  lemma OpenedContent(ls: seq<Line>, w: Run, width: nat)
    requires w.text != " "
    ensures StateContent(WrapState(ls, [w], width)) == StateContent(WrapState(ls, [], 0)) + w.text
  {
    ContentSnoc([], w);
    assert [] + [w] == [w];
  }

  lemma {:induction false} WrapFromContent(st: WrapState, words: seq<Run>, measure: (string, bool) -> nat, maxWidth: int)
    requires forall i | 0 <= i < |words| :: words[i].text != [] && NoBreakSpace(words[i].text)
    ensures StateContent(WrapFrom(st, words, measure, maxWidth)) == StateContent(st) + Concat(Texts(words))
    decreases |words|
  {
    if words == [] {
      PushLineContent(st);
    } else {
      PlaceContent(st, words[0], measure, maxWidth);
      WrapFromContent(PlaceWord(st, words[0], measure, maxWidth), words[1..], measure, maxWidth);
      assert Texts(words) == [words[0].text] + Texts(words[1..]);
    }
  }

  /**
   * Every character of every word appears in the lines, in order: dropping the
   * inserted space runs, the lines spell out the words back to back, broken
   * words included (canvas-server.js:250-296).
   */
  lemma WrapKeepsWords(segs: seq<Run>, measure: (string, bool) -> nat, maxWidth: int)
    ensures LinesContent(Wrap(segs, measure, maxWidth)) == Concat(Texts(AllWords(segs)))
  {
    var words := AllWords(segs);
    WrapFromContent(Start, words, measure, maxWidth);
    WrapFromEndsClosed(Start, words, measure, maxWidth);
    var final := WrapFrom(Start, words, measure, maxWidth);
    assert StateContent(Start) == "";
    assert StateContent(final) == "" + Concat(Texts(words)) == Concat(Texts(words));
    assert StateContent(final) == LinesContent(final.lines) + "" == LinesContent(final.lines);
  }

  lemma {:induction false} WrapFromEndsClosed(st: WrapState, words: seq<Run>, measure: (string, bool) -> nat, maxWidth: int)
    ensures WrapFrom(st, words, measure, maxWidth).runs == []
    decreases |words|
  {
    if words != [] {
      WrapFromEndsClosed(PlaceWord(st, words[0], measure, maxWidth), words[1..], measure, maxWidth);
    }
  }

  // ---- a word wider than the line ----

  function CharCount(t: string, b: bool): nat { |t| }

  /**
   * The over-long word is glued to the open line without a space, and its
   * pieces fill each line to the limit.
   */
  lemma ExamplePieces()
    ensures Pieces("a bcd") == ["a", "bcd"]
  {
    var t := "a bcd";
    PiecesOfWord("bcd");
    assert t[1..] == " bcd";
    assert t[1..][1..] == "bcd";
    assert Pieces(" bcd") == ["", "bcd"];
    assert ['a'] + "" == "a";
    assert ["", "bcd"][1..] == ["bcd"];
    assert !IsBreakSpace(t[0]);
  }

  lemma ExampleWords()
    ensures AllWords([Run("a bcd", false, false)]) == [Run("a", false, false), Run("bcd", false, false)]
  {
    var t := "a bcd";
    ExamplePieces();
    assert NonBlank(["bcd"]) == ["bcd"] by {
      assert !IsBlank("bcd") by { assert !IsJsSpace("bcd"[0]); }
      assert ["bcd"][1..] == [];
    }
    assert !IsBlank("a") by { assert !IsJsSpace("a"[0]); }
    assert ["a", "bcd"][1..] == ["bcd"];
    assert WordsOf(t) == ["a", "bcd"];
    assert [Run(t, false, false)][..0] == [];
  }

  lemma ExampleBreak()
    ensures BreakFrom(WrapState([], [Run("a", false, false)], 1), "", Run("bcd", false, false), "bcd", CharCount, 2)
            == WrapState([Line([Run("a", false, false), Run("b", false, false)], 2)], [Run("cd", false, false)], 2)
  {
    var a, long := Run("a", false, false), Run("bcd", false, false);
    var l1 := Line([a, Run("b", false, false)], 2);
    assert "bcd"[1..] == "cd";
    assert "cd"[1..] == "d";
    assert "d"[1..] == "";
    assert "" + ['b'] == "b";
    assert "c" + ['d'] == "cd";
    assert ['c'] == "c";
    assert long.(text := "b") == Run("b", false, false);
    assert long.(text := "cd") == Run("cd", false, false);
    assert "cd"[0] == 'c';
    assert [a] + [Run("b", false, false)] == [a, Run("b", false, false)];
    assert PushLine(WrapState([], [a, Run("b", false, false)], 2)) == WrapState([l1], [], 0);
    assert [] + [Run("cd", false, false)] == [Run("cd", false, false)];
    calc {
      BreakFrom(WrapState([], [a], 1), "", long, "bcd", CharCount, 2);
      BreakFrom(WrapState([], [a], 2), "b", long, "cd", CharCount, 2);
      BreakFrom(WrapState([l1], [], 1), "c", long, "d", CharCount, 2);
      BreakFrom(WrapState([l1], [], 2), "cd", long, "", CharCount, 2);
      WrapState([l1], [Run("cd", false, false)], 2);
    }
  }

  /** The first word of the example opens the line. */
  lemma ExamplePlaceFirst()
    ensures PlaceWord(Start, Run("a", false, false), CharCount, 2) == WrapState([], [Run("a", false, false)], 1)
  {
  }

  /** The long word of the example goes through the character loop from the open line "a". */
  lemma ExamplePlaceLong()
    ensures PlaceWord(WrapState([], [Run("a", false, false)], 1), Run("bcd", false, false), CharCount, 2)
            == WrapState([Line([Run("a", false, false), Run("b", false, false)], 2)], [Run("cd", false, false)], 2)
  {
    ExampleBreak();
  }

  /**
   * A word wider than the line is glued to the open line without a space:
   * "a bcd" at width 2, one unit per character, shows "a" and "b" on one
   * line and "cd" on the next.
   */
  lemma LongWordExample()
    ensures Wrap([Run("a bcd", false, false)], CharCount, 2)
            == [Line([Run("a", false, false), Run("b", false, false)], 2), Line([Run("cd", false, false)], 2)]
  {
    ExampleWords();
    ExampleWrapFrom();
  }

  lemma ExampleWrapFrom()
    ensures WrapFrom(Start, [Run("a", false, false), Run("bcd", false, false)], CharCount, 2)
            == WrapState([Line([Run("a", false, false), Run("b", false, false)], 2), Line([Run("cd", false, false)], 2)], [], 0)
  {
    var a, long := Run("a", false, false), Run("bcd", false, false);
    var words := [a, long];
    ExamplePlaceFirst();
    ExamplePlaceLong();
    assert words[1..] == [long] && [long][1..] == [];
    ExampleWrapEnd();
  }

  /** After the long word the open line "cd" is closed. */
  lemma ExampleWrapEnd()
    ensures WrapFrom(WrapState([Line([Run("a", false, false), Run("b", false, false)], 2)], [Run("cd", false, false)], 2), [], CharCount, 2)
            == WrapState([Line([Run("a", false, false), Run("b", false, false)], 2), Line([Run("cd", false, false)], 2)], [], 0)
  {
    var l1 := Line([Run("a", false, false), Run("b", false, false)], 2);
    assert [l1] + [Line([Run("cd", false, false)], 2)] == [l1, Line([Run("cd", false, false)], 2)];
  }
}
