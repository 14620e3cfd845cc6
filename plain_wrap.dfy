/**
 * `wrapPlainForIntro` (canvas-server.js:512-542): the greedy line breaker for
 * titles, subtitles and quotes.  It glues hanging words, strips the `*` and
 * `_` markers, splits at ordinary whitespace and fills each line while the
 * measured text still fits.  A line is measured and shown with its no-break
 * spaces turned back into ordinary ones.  `measure(text)` stands for
 * `ctx.measureText(text).width` under the font the caller has set.
 */
module PlainWrap {
  import opened Common
  import Typography
  import Wrapping

  /** `s.replace(/\u00A0/g, ' ')` */
  function NbspToSpace(s: string): (r: string)
    ensures |r| == |s|
    ensures forall i | 0 <= i < |r| :: r[i] != Typography.NoBreakSpace
    ensures forall i | 0 <= i < |r| :: r[i] == (if s[i] == Typography.NoBreakSpace then ' ' else s[i])
  {
    if s == [] then []
    else [if s[0] == Typography.NoBreakSpace then ' ' else s[0]] + NbspToSpace(s[1..])
  }

  predicate IsMarker(c: char)
  {
    c == '*' || c == '_'
  }

  /** `s.replace(/[*_]/g, '')` */
  function StripMarkers(s: string): (r: string)
    ensures forall i | 0 <= i < |r| :: !IsMarker(r[i])
    ensures multiset(r) <= multiset(s)
  {
    if s == [] then []
    else
      var rest := StripMarkers(s[1..]);
      assert s == [s[0]] + s[1..];
      if IsMarker(s[0]) then rest else [s[0]] + rest
  }

  /** A line of words as `line + ' ' + w` builds it, then as it is measured and shown. */
  function Shown(g: seq<string>): string
  {
    NbspToSpace(Join(g, " "))
  }

  /** A group may stand as a line: it fits, or it is a single word that fits nowhere. */
  predicate Fits(g: seq<string>, measure: string -> nat, maxWidth: int)
  {
    |g| == 1 || measure(Shown(g)) <= maxWidth
  }

  /** Adding the next word `w` to the group `g` would overflow the line. */
  predicate Overflows(g: seq<string>, w: string, measure: string -> nat, maxWidth: int)
  {
    measure(Shown(g + [w])) > maxWidth
  }

  /**
   * The loop over the words: `done` are the closed lines, `cur` the words of
   * the open `line` (empty exactly when `line` is '').
   */
  function PlainFrom(done: seq<seq<string>>, cur: seq<string>, words: seq<string>,
                     measure: string -> nat, maxWidth: int): seq<seq<string>>
    decreases |words|
  {
    if words == [] then
      if cur != [] then done + [cur] else done
    else
      var test := cur + [words[0]];
      if measure(Shown(test)) <= maxWidth then PlainFrom(done, test, words[1..], measure, maxWidth)
      else PlainFrom(if cur != [] then done + [cur] else done, [words[0]], words[1..], measure, maxWidth)
  }

  /** The words the loop sees: hanging words glued, markers stripped, split at `[ \t\n]+`. */
  function PlainWords(text: string): seq<string>
  {
    Wrapping.WordsOf(StripMarkers(Typography.FixHanging(text)))
  }

  /** The word groups of the lines `wrapPlainForIntro(ctx, text, maxWidth)` returns. */
  function PlainGroups(text: string, measure: string -> nat, maxWidth: int): seq<seq<string>>
  {
    if text == [] then [] else PlainFrom([], [], PlainWords(text), measure, maxWidth)
  }

  function ShownAll(gs: seq<seq<string>>): (r: seq<string>)
    ensures |r| == |gs|
    ensures forall i | 0 <= i < |r| :: r[i] == Shown(gs[i])
  {
    seq(|gs|, i requires 0 <= i < |gs| => Shown(gs[i]))
  }

  function Flatten(gs: seq<seq<string>>): seq<string>
  {
    if gs == [] then [] else Flatten(gs[..|gs| - 1]) + gs[|gs| - 1]
  }

  /** One word of the loop. */
  function PlainStep(done: seq<seq<string>>, cur: seq<string>, w: string,
                     measure: string -> nat, maxWidth: int): (seq<seq<string>>, seq<string>)
  {
    var test := cur + [w];
    if measure(Shown(test)) <= maxWidth then (done, test)
    else (if cur != [] then done + [cur] else done, [w])
  }

  lemma PlainFromStep(done: seq<seq<string>>, cur: seq<string>, w: string, rest: seq<string>,
                      measure: string -> nat, maxWidth: int)
    ensures PlainFrom(done, cur, [w] + rest, measure, maxWidth)
            == PlainFrom(PlainStep(done, cur, w, measure, maxWidth).0, PlainStep(done, cur, w, measure, maxWidth).1,
                         rest, measure, maxWidth)
  {
    assert ([w] + rest)[0] == w && ([w] + rest)[1..] == rest;
  }

  lemma ShownAllSnoc(gs: seq<seq<string>>, g: seq<string>)
    ensures ShownAll(gs + [g]) == ShownAll(gs) + [Shown(g)]
  {
  }

  /**
   * `wrapPlainForIntro(ctx, text, maxWidth)`: returns the shown form of every
   * line, in order.
   */
  method WrapPlainForIntro(text: string, measure: string -> nat, maxWidth: int) returns (lines: seq<string>)
    ensures lines == ShownAll(PlainGroups(text, measure, maxWidth))
  {
    if text == [] {
      return [];
    }
    var processed := Typography.FixHangingWords(text);
    var clean := StripMarkers(processed);
    var words := Wrapping.WordsOf(clean);
    lines := FillLines(words, measure, maxWidth);
  }

  /** The loop of `wrapPlainForIntro` over the words (canvas-server.js:523-540). */
  method FillLines(words: seq<string>, measure: string -> nat, maxWidth: int) returns (lines: seq<string>)
    requires forall i | 0 <= i < |words| :: words[i] != []
    ensures lines == ShownAll(PlainFrom([], [], words, measure, maxWidth))
  {
    lines := [];
    var line: string := "";
    ghost var done: seq<seq<string>> := [];
    ghost var cur: seq<string> := [];
    assert words[0..] == words;
    for i := 0 to |words|
      invariant lines == ShownAll(done)
      invariant line == Join(cur, " ")
      invariant cur == [] <==> line == ""
      invariant PlainFrom(done, cur, words[i..], measure, maxWidth) == PlainFrom([], [], words, measure, maxWidth)
    {
      var w := words[i];
      assert words[i..] == [w] + words[i + 1..];
      var test := if line != "" then line + " " + w else w;
      if cur != [] {
        JoinSnoc(cur, w, " ");
      } else {
        assert [] + [w] == [w];
      }
      assert test == Join(cur + [w], " ");
      ghost var next := PlainStep(done, cur, w, measure, maxWidth);
      PlainFromStep(done, cur, w, words[i + 1..], measure, maxWidth);
      if measure(NbspToSpace(test)) <= maxWidth {
        line := test;
        cur := cur + [w];
      } else {
        if line != "" {
          ShownAllSnoc(done, cur);
          lines := lines + [NbspToSpace(line)];
          done := done + [cur];
        }
        line := w;
        cur := [w];
      }
      assert (done, cur) == next;
    }
    assert words[|words|..] == [];
    if line != "" {
      ShownAllSnoc(done, cur);
      lines := lines + [NbspToSpace(line)];
      done := done + [cur];
    }
  }

  // ---- what the lines are ----

  /** The state the loop keeps between words. */
  predicate Laid(done: seq<seq<string>>, cur: seq<string>, measure: string -> nat, maxWidth: int)
  {
    (forall i | 0 <= i < |done| :: done[i] != [] && Fits(done[i], measure, maxWidth))
    && (forall i | 0 < i < |done| :: done[i] != [] && Overflows(done[i - 1], done[i][0], measure, maxWidth))
    && (cur == [] ==> done == [])
    && (cur != [] ==> Fits(cur, measure, maxWidth))
    && (cur != [] && done != [] ==> Overflows(done[|done| - 1], cur[0], measure, maxWidth))
  }

  /** The finished lines: each holds a word and fits unless it is a single word, and each is full. */
  predicate LaidOut(gs: seq<seq<string>>, measure: string -> nat, maxWidth: int)
  {
    (forall i | 0 <= i < |gs| :: gs[i] != [] && Fits(gs[i], measure, maxWidth))
    && (forall i | 0 < i < |gs| :: gs[i] != [] && Overflows(gs[i - 1], gs[i][0], measure, maxWidth))
  }

  lemma {:induction false} PlainFromLaidOut(done: seq<seq<string>>, cur: seq<string>, words: seq<string>,
                                            measure: string -> nat, maxWidth: int)
    requires Laid(done, cur, measure, maxWidth)
    ensures LaidOut(PlainFrom(done, cur, words, measure, maxWidth), measure, maxWidth)
    decreases |words|
  {
    if words == [] {
      if cur != [] {
        CloseLaid(done, cur, measure, maxWidth);
      }
    } else if measure(Shown(cur + [words[0]])) <= maxWidth {
      ExtendLaid(done, cur, words[0], measure, maxWidth);
      PlainFromLaidOut(done, cur + [words[0]], words[1..], measure, maxWidth);
    } else {
      RestartLaid(done, cur, words[0], measure, maxWidth);
      PlainFromLaidOut(if cur != [] then done + [cur] else done, [words[0]], words[1..], measure, maxWidth);
    }
  }

  /** Closing the open line at the end keeps the layout. */
  lemma CloseLaid(done: seq<seq<string>>, cur: seq<string>, measure: string -> nat, maxWidth: int)
    requires Laid(done, cur, measure, maxWidth) && cur != []
    ensures LaidOut(done + [cur], measure, maxWidth)
  {
    var gs := done + [cur];
    assert forall i | 0 <= i < |done| :: gs[i] == done[i];
    assert gs[|done|] == cur;
  }

  /** A word that fits joins the open line. */
  lemma ExtendLaid(done: seq<seq<string>>, cur: seq<string>, w: string, measure: string -> nat, maxWidth: int)
    requires Laid(done, cur, measure, maxWidth) && measure(Shown(cur + [w])) <= maxWidth
    ensures Laid(done, cur + [w], measure, maxWidth)
  {
    assert (cur + [w])[0] == (if cur != [] then cur[0] else w);
  }

  /** A word that does not fit closes the open line and opens the next. */
  lemma RestartLaid(done: seq<seq<string>>, cur: seq<string>, w: string, measure: string -> nat, maxWidth: int)
    requires Laid(done, cur, measure, maxWidth) && measure(Shown(cur + [w])) > maxWidth
    ensures Laid(if cur != [] then done + [cur] else done, [w], measure, maxWidth)
  {
    if cur != [] {
      CloseLaid(done, cur, measure, maxWidth);
      OpenLaid(done + [cur], w, measure, maxWidth);
    } else {
      assert [w][0] == w;
    }
  }

  lemma OpenLaid(gs: seq<seq<string>>, w: string, measure: string -> nat, maxWidth: int)
    requires LaidOut(gs, measure, maxWidth) && gs != [] && Overflows(gs[|gs| - 1], w, measure, maxWidth)
    ensures Laid(gs, [w], measure, maxWidth)
  {
    assert [w][0] == w;
  }

  /** Every line of `wrapPlainForIntro` fits the width unless it is one word alone, and no line could take the next line's first word. */
  lemma PlainLaidOut(text: string, measure: string -> nat, maxWidth: int)
    ensures LaidOut(PlainGroups(text, measure, maxWidth), measure, maxWidth)
  {
    if text != [] {
      PlainFromLaidOut([], [], PlainWords(text), measure, maxWidth);
    }
  }

  lemma {:induction false} PlainFromKeepsWords(done: seq<seq<string>>, cur: seq<string>, words: seq<string>,
                                               measure: string -> nat, maxWidth: int)
    ensures Flatten(PlainFrom(done, cur, words, measure, maxWidth)) == Flatten(done) + cur + words
    decreases |words|
  {
    if words == [] {
      if cur != [] {
        assert (done + [cur])[..|done|] == done;
      }
    } else {
      var test := cur + [words[0]];
      assert words == [words[0]] + words[1..];
      if measure(Shown(test)) <= maxWidth {
        PlainFromKeepsWords(done, test, words[1..], measure, maxWidth);
      } else {
        var done' := if cur != [] then done + [cur] else done;
        if cur != [] {
          assert (done + [cur])[..|done|] == done;
        }
        PlainFromKeepsWords(done', [words[0]], words[1..], measure, maxWidth);
      }
    }
  }

  /** The lines hold the words of the text, in order, each exactly once. */
  lemma PlainKeepsWords(text: string, measure: string -> nat, maxWidth: int)
    requires text != []
    ensures Flatten(PlainGroups(text, measure, maxWidth)) == PlainWords(text)
  {
    PlainFromKeepsWords([], [], PlainWords(text), measure, maxWidth);
  }

  /**
   * No line is empty, and none shows a no-break space.
   */
  lemma PlainLinesClean(text: string, measure: string -> nat, maxWidth: int)
    ensures forall i | 0 <= i < |ShownAll(PlainGroups(text, measure, maxWidth))| ::
              var l := ShownAll(PlainGroups(text, measure, maxWidth))[i];
              l != [] && forall k | 0 <= k < |l| :: l[k] != Typography.NoBreakSpace
  {
    var gs := PlainGroups(text, measure, maxWidth);
    PlainLaidOut(text, measure, maxWidth);
    if text != [] {
      PlainKeepsWords(text, measure, maxWidth);
    }
    forall i | 0 <= i < |gs|
      ensures Shown(gs[i]) != []
    {
      WordsInGroups(text, measure, maxWidth, i);
    }
  }

  lemma WordsInGroups(text: string, measure: string -> nat, maxWidth: int, i: int)
    requires 0 <= i < |PlainGroups(text, measure, maxWidth)|
    ensures PlainGroups(text, measure, maxWidth)[i] != []
    ensures PlainGroups(text, measure, maxWidth)[i][0] != []
  {
    var gs := PlainGroups(text, measure, maxWidth);
    PlainLaidOut(text, measure, maxWidth);
    PlainKeepsWords(text, measure, maxWidth);
    FlattenMember(gs, i, 0);
  }

  lemma {:induction false} FlattenMember(gs: seq<seq<string>>, i: int, k: int)
    requires 0 <= i < |gs| && 0 <= k < |gs[i]|
    ensures gs[i][k] in Flatten(gs)
  {
    var n := |gs| - 1;
    if i < n {
      assert gs[..n][i] == gs[i];
      FlattenMember(gs[..n], i, k);
    }
  }
}
