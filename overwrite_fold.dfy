/**
 * The folds of styled-server.js, of the `/api/generate-carousel` handler of
 * perfect-server.js and of `parseMarkdownToSlides` in src/app.ts.  An H1, an
 * H2 or a blockquote pushes a slide; a paragraph overwrites the text of the
 * last slide pushed, whatever its type, so the last paragraph wins; lists
 * and every other token are ignored.  Before the first slide, styled and
 * perfect drop a paragraph and app.ts pushes an untitled text slide for it.
 */
module OverwriteFold {
  import opened Common
  import opened Markdown

  datatype Version = Styled | Perfect | App

  /** The slide token `i` pushes; app.ts writes no subtitle, no abstraction flag and no size. */
  function Opened(v: Version, tokens: seq<Token>, i: nat): Slide
    requires i < |tokens|
  {
    var t := tokens[i];
    if IsH1(t) then
      if v == App then Slide(Intro, Some(t.text), "", DefaultColor, false, None)
      else Slide(Intro, Some(t.text), Subtitle(tokens, i), if v == Perfect then Accent else DefaultColor, true, None)
    else if IsH2(t) then Slide(TextSlide, Some(t.text), "", DefaultColor, false, None)
    else if v == App then Slide(Quote, Some(""), QuoteText(t), Accent, false, None)
    else Slide(Quote, None, QuoteText(t), Accent, true, Some(QuoteSizeOf(QuoteText(t))))
  }

  /** The text slide app.ts pushes for a paragraph that comes before every slide. */
  function Orphan(text: string): Slide
  {
    Slide(TextSlide, Some(""), text, DefaultColor, false, None)
  }

  /** The fold's body for token `k`. */
  function Step(v: Version, tokens: seq<Token>, k: nat, slides: seq<Slide>): seq<Slide>
    requires k < |tokens|
  {
    var t := tokens[k];
    if OpensSlide(t) then slides + [Opened(v, tokens, k)]
    else if t.kind == Paragraph && slides != [] then slides[|slides| - 1 := slides[|slides| - 1].(text := t.text)]
    else if t.kind == Paragraph && v == App then [Orphan(t.text)]
    else slides
  }

  /** The slides after the first `k` tokens. */
  function FoldTo(v: Version, tokens: seq<Token>, k: nat): seq<Slide>
    requires k <= |tokens|
  {
    if k == 0 then [] else Step(v, tokens, k - 1, FoldTo(v, tokens, k - 1))
  }

  /** The `forEach` over the lexer's tokens. */
  method FoldSlides(v: Version, tokens: seq<Token>) returns (slides: seq<Slide>)
    ensures slides == FoldTo(v, tokens, |tokens|)
  {
    slides := [];
    for k := 0 to |tokens|
      invariant slides == FoldTo(v, tokens, k)
    {
      var t := tokens[k];
      if IsH1(t) || IsH2(t) || t.kind == Blockquote {
        slides := slides + [Opened(v, tokens, k)];
      } else if t.kind == Paragraph {
        if |slides| > 0 {
          slides := slides[|slides| - 1 := slides[|slides| - 1].(text := t.text)];
        } else if v == App {
          slides := [Orphan(t.text)];
        }
      }
    }
  }

  /**
   * What each version hands to rendering: styled-server.js adds its fallback
   * slide in the handler, app.ts inside `parseMarkdownToSlides`, and
   * perfect-server.js adds none.
   */
  method ParseMarkdownToSlides(v: Version, text: string, tokens: seq<Token>) returns (slides: seq<Slide>)
    ensures v == Styled ==> slides == OrFallback(FoldTo(v, tokens, |tokens|), Fallback("Ваш контент", text, 200))
    ensures v == App ==> slides == OrFallback(FoldTo(v, tokens, |tokens|), Fallback("Default Slide", text, 100))
    ensures v == Perfect ==> slides == FoldTo(v, tokens, |tokens|)
  {
    slides := FoldSlides(v, tokens);
    if |slides| == 0 && v != Perfect {
      var title, limit := if v == Styled then "Ваш контент" else "Default Slide", if v == Styled then 200 else 100;
      slides := slides + [Fallback(title, text, limit)];
    }
  }

  // ---- the last paragraph before the next slide ----

  /** The text of the last paragraph among `tokens[a..b]`. */
  function LastParagraph(tokens: seq<Token>, a: nat, b: nat): (r: Option<string>)
    requires a <= b <= |tokens|
    decreases b - a
  {
    if a == b then None
    else if tokens[b - 1].kind == Paragraph then Some(tokens[b - 1].text)
    else LastParagraph(tokens, a, b - 1)
  }

  /**
   * `LastParagraph` is absent exactly when no paragraph lies in the range,
   * and otherwise is the text of a paragraph with none after it.
   */
  lemma {:induction false} LastParagraphSpec(tokens: seq<Token>, a: nat, b: nat)
    requires a <= b <= |tokens|
    ensures LastParagraph(tokens, a, b).None? <==> forall m | a <= m < b :: tokens[m].kind != Paragraph
    ensures LastParagraph(tokens, a, b).Some? ==>
              exists j | a <= j < b :: && tokens[j].kind == Paragraph
                                       && tokens[j].text == LastParagraph(tokens, a, b).value
                                       && forall m | j < m < b :: tokens[m].kind != Paragraph
    decreases b - a
  {
    if a < b {
      if tokens[b - 1].kind == Paragraph {
        assert tokens[b - 1].text == LastParagraph(tokens, a, b).value;
      } else {
        LastParagraphSpec(tokens, a, b - 1);
        if LastParagraph(tokens, a, b).Some? {
          var j :| a <= j < b - 1 && tokens[j].kind == Paragraph && tokens[j].text == LastParagraph(tokens, a, b).value
                   && forall m | j < m < b - 1 :: tokens[m].kind != Paragraph;
          assert forall m | j < m < b :: tokens[m].kind != Paragraph;
        }
      }
    }
  }

  /** The first slide-opening token at or after `j`, or the end. */
  function NextOpener(tokens: seq<Token>, j: nat): (n: nat)
    requires j <= |tokens|
    ensures j <= n <= |tokens|
    ensures n < |tokens| ==> OpensSlide(tokens[n])
    ensures forall m | j <= m < n :: !OpensSlide(tokens[m])
    decreases |tokens| - j
  {
    if j == |tokens| || OpensSlide(tokens[j]) then j else NextOpener(tokens, j + 1)
  }

  /** Slide `pos` as it stands after token `k`, with `o` its pushed record and `n` the next opener. */
  predicate SlideHolds(tokens: seq<Token>, i: nat, k: nat, pos: nat, o: Slide, slides: seq<Slide>)
    requires i < k <= |tokens|
  {
    var n := NextOpener(tokens, i + 1);
    var last := LastParagraph(tokens, i + 1, Min(k, n));
    && pos < |slides|
    && slides[pos] == (if last.Some? then o.(text := last.value) else o)
    && (k <= n ==> pos == |slides| - 1)
    && (k > n ==> pos < |slides| - 1)
  }

  lemma {:induction false} SlideAt(v: Version, tokens: seq<Token>, i: nat, k: nat)
    requires i < k <= |tokens| && OpensSlide(tokens[i])
    ensures SlideHolds(tokens, i, k, |FoldTo(v, tokens, i)|, Opened(v, tokens, i), FoldTo(v, tokens, k))
    decreases k
  {
    if k > i + 1 {
      SlideAt(v, tokens, i, k - 1);
      SlideStep(v, tokens, i, k, |FoldTo(v, tokens, i)|, Opened(v, tokens, i), FoldTo(v, tokens, k - 1));
    }
  }

  lemma SlideStep(v: Version, tokens: seq<Token>, i: nat, k: nat, pos: nat, o: Slide, slides: seq<Slide>)
    requires i + 1 < k <= |tokens|
    requires SlideHolds(tokens, i, k - 1, pos, o, slides)
    ensures SlideHolds(tokens, i, k, pos, o, Step(v, tokens, k - 1, slides))
  {
    var n := NextOpener(tokens, i + 1);
    if k - 1 < n {
      assert Min(k - 1, n) == k - 1 && Min(k, n) == k;
      SlideStepOpen(v, tokens, k - 1, slides);
    } else {
      assert Min(k - 1, n) == n == Min(k, n);
      SlideStepClosed(v, tokens, k - 1, slides, pos);
    }
  }

  /** Before the next opener, the last slide takes each paragraph's text. */
  lemma SlideStepOpen(v: Version, tokens: seq<Token>, k: nat, slides: seq<Slide>)
    requires k < |tokens| && !OpensSlide(tokens[k]) && slides != []
    ensures |Step(v, tokens, k, slides)| == |slides|
    ensures Step(v, tokens, k, slides)[|slides| - 1]
            == if tokens[k].kind == Paragraph then slides[|slides| - 1].(text := tokens[k].text) else slides[|slides| - 1]
  {
  }

  /** Once a later slide exists, a step never touches an earlier one. */
  lemma SlideStepClosed(v: Version, tokens: seq<Token>, k: nat, slides: seq<Slide>, pos: nat)
    requires k < |tokens| && pos < |slides| && (OpensSlide(tokens[k]) || pos < |slides| - 1)
    ensures pos < |Step(v, tokens, k, slides)| - 1
    ensures Step(v, tokens, k, slides)[pos] == slides[pos]
  {
  }

  /**
   * Every H1, H2 and blockquote pushes its slide; the slide keeps its pushed
   * fields except the text, which is that of the last paragraph before the
   * next H1, H2 or blockquote, if there is one.
   */
  lemma LastParagraphWins(v: Version, tokens: seq<Token>, i: nat)
    requires i < |tokens| && OpensSlide(tokens[i])
    ensures |FoldTo(v, tokens, i)| < |FoldTo(v, tokens, |tokens|)|
    ensures var last := LastParagraph(tokens, i + 1, NextOpener(tokens, i + 1));
            FoldTo(v, tokens, |tokens|)[|FoldTo(v, tokens, i)|]
            == if last.Some? then Opened(v, tokens, i).(text := last.value) else Opened(v, tokens, i)
  {
    SlideAt(v, tokens, i, |tokens|);
    assert Min(|tokens|, NextOpener(tokens, i + 1)) == NextOpener(tokens, i + 1);
  }

  // ---- how many slides ----

  /** Whether app.ts pushed its untitled slide: a paragraph came before the first opener. */
  predicate HasOrphan(tokens: seq<Token>, k: nat)
    requires k <= |tokens|
  {
    LastParagraph(tokens, 0, Min(k, NextOpener(tokens, 0))).Some?
  }

  /**
   * Styled and perfect push one slide per H1, H2 and blockquote; app.ts
   * pushes one more when a paragraph comes before all of them, and while
   * there is no opener yet its only slide carries the latest paragraph.
   */
  lemma {:induction false} SlideTotal(v: Version, tokens: seq<Token>, k: nat)
    requires k <= |tokens|
    ensures |FoldTo(v, tokens, k)| == SlideCount(tokens, k) + (if v == App && HasOrphan(tokens, k) then 1 else 0)
    ensures v == App && k <= NextOpener(tokens, 0)
            ==> FoldTo(v, tokens, k) == if HasOrphan(tokens, k) then [Orphan(LastParagraph(tokens, 0, k).value)] else []
  {
    if k > 0 {
      SlideTotal(v, tokens, k - 1);
      var n := NextOpener(tokens, 0);
      if k - 1 < n {
        assert Min(k - 1, n) == k - 1 && Min(k, n) == k;
        NoOpenerYet(tokens, k);
      } else {
        assert Min(k - 1, n) == n == Min(k, n);
        CountedOpener(tokens, n, k);
        if k - 1 > n {
          CountedOpener(tokens, n, k - 1);
        }
      }
    }
  }

  /** Before the first opener the count of openers is zero. */
  lemma {:induction false} NoOpenerYet(tokens: seq<Token>, k: nat)
    requires k <= NextOpener(tokens, 0)
    ensures SlideCount(tokens, k) == 0
  {
    if k > 0 {
      NoOpenerYet(tokens, k - 1);
    }
  }

  /** Past the first opener, the count of openers is positive. */
  lemma {:induction false} CountedOpener(tokens: seq<Token>, n: nat, k: nat)
    requires n < k <= |tokens| && OpensSlide(tokens[n])
    ensures SlideCount(tokens, k) > 0
    decreases k
  {
    if k - 1 > n {
      CountedOpener(tokens, n, k - 1);
    }
  }

  /** Styled and perfect never produce a slide from a document without headings or quotes; perfect adds no fallback. */
  lemma PerfectCanBeEmpty(tokens: seq<Token>)
    requires SlideCount(tokens, |tokens|) == 0
    ensures FoldTo(Perfect, tokens, |tokens|) == []
    ensures FoldTo(Styled, tokens, |tokens|) == []
  {
    SlideTotal(Perfect, tokens, |tokens|);
    SlideTotal(Styled, tokens, |tokens|);
  }
}
