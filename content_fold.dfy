/**
 * `parseMarkdownToSlides` of canvas-server.js, corrected-server.js,
 * final-server.js and enhanced-server.js.  The four share one fold: an H1
 * pushes an intro slide whose subtitle is the next token when that is a
 * paragraph, an H2 pushes a text slide and makes it the open slide, a
 * blockquote pushes a quote, and a paragraph or list is appended to the
 * content of the open slide, if there is one.  A second pass turns every
 * content list into the slide's text; canvas and corrected merge paragraphs
 * before lists, final and enhanced keep source order.
 */
module ContentFold {
  import opened Common
  import opened Markdown

  datatype Version = Canvas | Corrected | Final | Enhanced

  /** A slide being built; `content` is present exactly on the slides an H2 opened. */
  datatype Draft = Draft(slide: Slide, content: Option<seq<Part>>)

  /** The fold's variables: the slides pushed so far and the position of `currentSlide`. */
  datatype FoldState = FoldState(drafts: seq<Draft>, current: Option<nat>)

  function IntroSlide(v: Version, title: string, subtitle: string): Slide
  {
    Slide(Intro, Some(title), subtitle, Accent, v != Canvas, None)
  }

  function H2Slide(title: string): Slide
  {
    Slide(TextSlide, Some(title), "", DefaultColor, false, None)
  }

  function QuoteSlide(v: Version, text: string): Slide
  {
    if v == Canvas then Slide(Quote, None, text, Accent, false, Some(CanvasQuoteSize(text)))
    else Slide(Quote, None, text, Accent, true, Some(QuoteSizeOf(text)))
  }

  /** The slide token `i` opens, as pushed. */
  function Opened(v: Version, tokens: seq<Token>, i: nat): Slide
    requires i < |tokens|
  {
    var t := tokens[i];
    if IsH1(t) then IntroSlide(v, t.text, Subtitle(tokens, i))
    else if IsH2(t) then H2Slide(t.text)
    else QuoteSlide(v, QuoteText(t))
  }

  function ContentOf(d: Draft): seq<Part>
  {
    if d.content.Some? then d.content.value else []
  }

  /** The fold's body for token `k`. */
  function Step(v: Version, tokens: seq<Token>, k: nat, st: FoldState): FoldState
    requires k < |tokens|
  {
    var t := tokens[k];
    if IsH2(t) then
      FoldState(st.drafts + [Draft(Opened(v, tokens, k), Some([]))], Some(|st.drafts|))
    else if OpensSlide(t) then
      st.(drafts := st.drafts + [Draft(Opened(v, tokens, k), None)])
    else if st.current.Some? && st.current.value < |st.drafts| && PartOf(t) != [] then
      var c := st.current.value;
      st.(drafts := st.drafts[c := st.drafts[c].(content := Some(ContentOf(st.drafts[c]) + PartOf(t)))])
    else st
  }

  /** The state after the first `k` tokens. */
  function FoldTo(v: Version, tokens: seq<Token>, k: nat): FoldState
    requires k <= |tokens|
  {
    if k == 0 then FoldState([], None) else Step(v, tokens, k - 1, FoldTo(v, tokens, k - 1))
  }

  function Merge(v: Version, parts: seq<Part>): string
  {
    if v == Canvas || v == Corrected then MergeGrouped(parts) else MergeInOrder(parts)
  }

  /** The second pass on one slide: content becomes text and the content field is deleted. */
  function Finish(v: Version, d: Draft): Slide
  {
    if d.content.Some? then d.slide.(text := Merge(v, d.content.value)) else d.slide
  }

  function FinishAll(v: Version, ds: seq<Draft>): (r: seq<Slide>)
    ensures |r| == |ds|
    ensures forall q | 0 <= q < |ds| :: r[q] == Finish(v, ds[q])
  {
    if ds == [] then [] else [Finish(v, ds[0])] + FinishAll(v, ds[1..])
  }

  /** What `parseMarkdownToSlides` returns. */
  function ParseSpec(v: Version, tokens: seq<Token>): seq<Slide>
  {
    FinishAll(v, FoldTo(v, tokens, |tokens|).drafts)
  }

  /** `parseMarkdownToSlides(text)` on the lexer's tokens. */
  method ParseMarkdownToSlides(v: Version, tokens: seq<Token>) returns (slides: seq<Slide>)
    ensures slides == ParseSpec(v, tokens)
  {
    var drafts := FoldTokens(v, tokens);
    slides := FinishDrafts(v, drafts);
  }

  /** The `tokens.forEach` pass: push slides and fill the open one. */
  method FoldTokens(v: Version, tokens: seq<Token>) returns (drafts: seq<Draft>)
    ensures drafts == FoldTo(v, tokens, |tokens|).drafts
  {
    drafts := [];
    var current: Option<nat> := None;
    for k := 0 to |tokens|
      invariant FoldState(drafts, current) == FoldTo(v, tokens, k)
    {
      var t := tokens[k];
      if IsH1(t) {
        drafts := drafts + [Draft(IntroSlide(v, t.text, Subtitle(tokens, k)), None)];
      } else if IsH2(t) {
        current := Some(|drafts|);
        drafts := drafts + [Draft(H2Slide(t.text), Some([]))];
      } else if t.kind == Blockquote {
        drafts := drafts + [Draft(QuoteSlide(v, QuoteText(t)), None)];
      } else if current.Some? && current.value < |drafts| && (t.kind == Paragraph || t.kind == List) {
        var c := current.value;
        drafts := drafts[c := drafts[c].(content := Some(ContentOf(drafts[c]) + PartOf(t)))];
      }
    }
  }

  /** The `slides.forEach` pass: every content list becomes the slide's text. */
  method FinishDrafts(v: Version, drafts: seq<Draft>) returns (slides: seq<Slide>)
    ensures slides == FinishAll(v, drafts)
  {
    slides := [];
    for q := 0 to |drafts|
      invariant slides == FinishAll(v, drafts[..q])
    {
      assert drafts[..q + 1] == drafts[..q] + [drafts[q]];
      FinishAllSnoc(v, drafts[..q], drafts[q]);
      slides := slides + [Finish(v, drafts[q])];
    }
    assert drafts[..|drafts|] == drafts;
  }

  lemma FinishAllSnoc(v: Version, ds: seq<Draft>, d: Draft)
    ensures FinishAll(v, ds + [d]) == FinishAll(v, ds) + [Finish(v, d)]
  {
  }

  // ---- counting the slides ----

  /** The fold pushes one slide per opening token, and the open slide is one of them. */
  lemma {:induction false} FoldCount(v: Version, tokens: seq<Token>, k: nat)
    requires k <= |tokens|
    ensures |FoldTo(v, tokens, k).drafts| == SlideCount(tokens, k)
    ensures FoldTo(v, tokens, k).current.Some? ==> FoldTo(v, tokens, k).current.value < SlideCount(tokens, k)
  {
    if k > 0 {
      FoldCount(v, tokens, k - 1);
    }
  }

  // ---- where the next H2 is ----

  /** The first H2 at or after `j`, or the end. */
  function NextH2(tokens: seq<Token>, j: nat): (n: nat)
    requires j <= |tokens|
    ensures j <= n <= |tokens|
    ensures n < |tokens| ==> IsH2(tokens[n])
    ensures forall m | j <= m < n :: !IsH2(tokens[m])
    decreases |tokens| - j
  {
    if j == |tokens| || IsH2(tokens[j]) then j else NextH2(tokens, j + 1)
  }

  // ---- one step, one draft at a time ----

  /** A step leaves every draft other than the open one as it was and never removes one. */
  lemma StepFrame(v: Version, tokens: seq<Token>, k: nat, st: FoldState, q: nat)
    requires k < |tokens| && q < |st.drafts| && st.current != Some(q)
    ensures q < |Step(v, tokens, k, st).drafts|
    ensures Step(v, tokens, k, st).drafts[q] == st.drafts[q]
  {
  }

  /** A step only ever changes the content of a draft, never its slide record. */
  lemma StepKeepsSlide(v: Version, tokens: seq<Token>, k: nat, st: FoldState, q: nat)
    requires k < |tokens| && q < |st.drafts|
    ensures q < |Step(v, tokens, k, st).drafts|
    ensures Step(v, tokens, k, st).drafts[q].slide == st.drafts[q].slide
  {
  }

  /** The draft an opening token pushes sits at its count. */
  lemma {:induction false} OpenedAt(v: Version, tokens: seq<Token>, i: nat)
    requires i < |tokens| && OpensSlide(tokens[i])
    ensures SlideCount(tokens, i) < |FoldTo(v, tokens, i + 1).drafts|
    ensures FoldTo(v, tokens, i + 1).drafts[SlideCount(tokens, i)]
            == Draft(Opened(v, tokens, i), if IsH2(tokens[i]) then Some([]) else None)
  {
    FoldCount(v, tokens, i);
  }

  /** Once pushed, a slide record keeps the fields it was pushed with. */
  lemma {:induction false} SlideFixed(v: Version, tokens: seq<Token>, i: nat, k: nat)
    requires i < k <= |tokens| && OpensSlide(tokens[i])
    ensures SlideCount(tokens, i) < |FoldTo(v, tokens, k).drafts|
    ensures FoldTo(v, tokens, k).drafts[SlideCount(tokens, i)].slide == Opened(v, tokens, i)
    decreases k
  {
    if k == i + 1 {
      OpenedAt(v, tokens, i);
    } else {
      SlideFixed(v, tokens, i, k - 1);
      SlideKept(v, tokens, k, SlideCount(tokens, i), Opened(v, tokens, i));
    }
  }

  lemma SlideKept(v: Version, tokens: seq<Token>, k: nat, pos: nat, s: Slide)
    requires 0 < k <= |tokens|
    requires pos < |FoldTo(v, tokens, k - 1).drafts| && FoldTo(v, tokens, k - 1).drafts[pos].slide == s
    ensures pos < |FoldTo(v, tokens, k).drafts| && FoldTo(v, tokens, k).drafts[pos].slide == s
  {
    StepKeepsSlide(v, tokens, k - 1, FoldTo(v, tokens, k - 1), pos);
  }

  /** The draft at `pos` has no content and is not the open one. */
  predicate ClosedWithout(st: FoldState, pos: nat)
  {
    pos < |st.drafts| && st.drafts[pos].content == None && st.current != Some(pos)
  }

  /** An intro or quote draft never becomes the open one, so it never gets content. */
  lemma {:induction false} NoContentOutsideH2(v: Version, tokens: seq<Token>, i: nat, k: nat)
    requires i < k <= |tokens| && OpensSlide(tokens[i]) && !IsH2(tokens[i])
    ensures ClosedWithout(FoldTo(v, tokens, k), SlideCount(tokens, i))
    decreases k
  {
    if k == i + 1 {
      OpenedAt(v, tokens, i);
      FoldCount(v, tokens, i);
    } else {
      NoContentOutsideH2(v, tokens, i, k - 1);
      StepKeepsClosed(v, tokens, k - 1, FoldTo(v, tokens, k - 1), SlideCount(tokens, i));
    }
  }

  lemma StepKeepsClosed(v: Version, tokens: seq<Token>, k: nat, st: FoldState, pos: nat)
    requires k < |tokens| && ClosedWithout(st, pos)
    ensures ClosedWithout(Step(v, tokens, k, st), pos)
  {
    StepFrame(v, tokens, k, st, pos);
  }

  /**
   * After the first `k` tokens, the draft of the H2 at `i` holds exactly the
   * parts of the paragraphs and lists after it, up to the next H2 or up to
   * `k`, whichever comes first; it stays open until that H2, and after it the
   * open draft is a later one.
   */
  predicate SectionHolds(tokens: seq<Token>, i: nat, k: nat, st: FoldState)
    requires i < k <= |tokens|
  {
    var pos := SlideCount(tokens, i);
    var n := NextH2(tokens, i + 1);
    && pos < |st.drafts|
    && st.drafts[pos].content == Some(PartsOf(tokens, i + 1, Min(k, n)))
    && (k <= n ==> st.current == Some(pos))
    && (k > n ==> st.current.Some? && st.current.value > pos)
  }

  lemma {:induction false} SectionAt(v: Version, tokens: seq<Token>, i: nat, k: nat)
    requires i < k <= |tokens| && IsH2(tokens[i])
    ensures SectionHolds(tokens, i, k, FoldTo(v, tokens, k))
    decreases k
  {
    if k == i + 1 {
      SectionStart(v, tokens, i);
    } else {
      SectionAt(v, tokens, i, k - 1);
      SectionStep(v, tokens, i, k, FoldTo(v, tokens, k - 1));
    }
  }

  /** Right after the H2: its draft is open and empty. */
  lemma SectionStart(v: Version, tokens: seq<Token>, i: nat)
    requires i < |tokens| && IsH2(tokens[i])
    ensures SectionHolds(tokens, i, i + 1, FoldTo(v, tokens, i + 1))
  {
    OpenedAt(v, tokens, i);
    FoldCount(v, tokens, i);
  }

  lemma SectionStep(v: Version, tokens: seq<Token>, i: nat, k: nat, st: FoldState)
    requires i + 1 < k <= |tokens| && IsH2(tokens[i])
    requires SectionHolds(tokens, i, k - 1, st)
    ensures SectionHolds(tokens, i, k, Step(v, tokens, k - 1, st))
  {
    if k - 1 < NextH2(tokens, i + 1) {
      SectionStepInside(v, tokens, i, k, st);
    } else {
      SectionStepAfter(v, tokens, i, k, st);
    }
  }

  lemma SectionStepInside(v: Version, tokens: seq<Token>, i: nat, k: nat, st: FoldState)
    requires i + 1 < k <= |tokens| && IsH2(tokens[i]) && k - 1 < NextH2(tokens, i + 1)
    requires SectionHolds(tokens, i, k - 1, st)
    ensures SectionHolds(tokens, i, k, Step(v, tokens, k - 1, st))
  {
    StepOpenDraft(v, tokens, k - 1, st, SlideCount(tokens, i));
    SectionGrows(tokens, i, k, st, Step(v, tokens, k - 1, st));
  }

  lemma SectionStepAfter(v: Version, tokens: seq<Token>, i: nat, k: nat, st: FoldState)
    requires i + 1 < k <= |tokens| && IsH2(tokens[i]) && NextH2(tokens, i + 1) <= k - 1
    requires SectionHolds(tokens, i, k - 1, st)
    ensures SectionHolds(tokens, i, k, Step(v, tokens, k - 1, st))
  {
    StepClosed(v, tokens, k - 1, st, SlideCount(tokens, i));
    SectionClosed(tokens, i, k, st, Step(v, tokens, k - 1, st));
  }

  /** Inside the section: the open draft takes the token's part, if any. */
  lemma SectionGrows(tokens: seq<Token>, i: nat, k: nat, st: FoldState, next: FoldState)
    requires i + 1 < k <= |tokens| && IsH2(tokens[i]) && k - 1 < NextH2(tokens, i + 1)
    requires SectionHolds(tokens, i, k - 1, st)
    requires SlideCount(tokens, i) < |next.drafts| && next.current == Some(SlideCount(tokens, i))
    requires next.drafts[SlideCount(tokens, i)].content
             == Some(st.drafts[SlideCount(tokens, i)].content.value + PartOf(tokens[k - 1]))
    ensures SectionHolds(tokens, i, k, next)
  {
    var pos, n := SlideCount(tokens, i), NextH2(tokens, i + 1);
    assert Min(k - 1, n) == k - 1;
    assert Min(k, n) == k;
  }

  /** A token other than an H2 appends its part, if any, to the open draft and leaves it open. */
  lemma StepOpenDraft(v: Version, tokens: seq<Token>, k: nat, st: FoldState, pos: nat)
    requires k < |tokens| && !IsH2(tokens[k])
    requires pos < |st.drafts| && st.current == Some(pos) && st.drafts[pos].content.Some?
    ensures pos < |Step(v, tokens, k, st).drafts|
    ensures Step(v, tokens, k, st).drafts[pos].content == Some(st.drafts[pos].content.value + PartOf(tokens[k]))
    ensures Step(v, tokens, k, st).current == Some(pos)
  {
    var c := st.drafts[pos].content.value;
    if PartOf(tokens[k]) == [] {
      assert c + [] == c;
    }
  }

  /** Once an H2 has opened a later draft, a step leaves the earlier one alone and keeps a later one open. */
  lemma StepClosed(v: Version, tokens: seq<Token>, k: nat, st: FoldState, pos: nat)
    requires k < |tokens| && pos < |st.drafts| && st.current.Some?
    requires IsH2(tokens[k]) || st.current.value > pos
    ensures pos < |Step(v, tokens, k, st).drafts|
    ensures Step(v, tokens, k, st).drafts[pos] == st.drafts[pos]
    ensures Step(v, tokens, k, st).current.Some? && Step(v, tokens, k, st).current.value > pos
  {
  }

  /** At or after the next H2: the draft is closed and keeps its content. */
  lemma SectionClosed(tokens: seq<Token>, i: nat, k: nat, st: FoldState, next: FoldState)
    requires i + 1 < k <= |tokens| && IsH2(tokens[i]) && NextH2(tokens, i + 1) <= k - 1
    requires SectionHolds(tokens, i, k - 1, st)
    requires SlideCount(tokens, i) < |next.drafts| && next.drafts[SlideCount(tokens, i)] == st.drafts[SlideCount(tokens, i)]
    requires next.current.Some? && next.current.value > SlideCount(tokens, i)
    ensures SectionHolds(tokens, i, k, next)
  {
  }

  // ---- the result, slide by slide ----

  /** One slide per H1, H2 and blockquote, in token order. */
  lemma ParseCount(v: Version, tokens: seq<Token>)
    ensures |ParseSpec(v, tokens)| == SlideCount(tokens, |tokens|)
  {
    FoldCount(v, tokens, |tokens|);
  }

  /**
   * An H1 gives an intro slide whose text is the next token when that is a
   * paragraph, and a blockquote gives a quote slide sized by its text; later
   * tokens never change either.
   */
  lemma IntroAndQuoteSlides(v: Version, tokens: seq<Token>, i: nat)
    requires i < |tokens| && (IsH1(tokens[i]) || tokens[i].kind == Blockquote)
    ensures SlideCount(tokens, i) < |ParseSpec(v, tokens)|
    ensures IsH1(tokens[i]) ==> ParseSpec(v, tokens)[SlideCount(tokens, i)]
                                 == IntroSlide(v, tokens[i].text, Subtitle(tokens, i))
    ensures tokens[i].kind == Blockquote ==> ParseSpec(v, tokens)[SlideCount(tokens, i)]
                                             == QuoteSlide(v, QuoteText(tokens[i]))
  {
    SlideFixed(v, tokens, i, |tokens|);
    NoContentOutsideH2(v, tokens, i, |tokens|);
  }

  /**
   * An H2 gives a text slide titled by the heading whose text merges the
   * paragraphs and lists between it and the next H2, whatever H1s and
   * blockquotes come between.
   */
  lemma H2Slides(v: Version, tokens: seq<Token>, i: nat)
    requires i < |tokens| && IsH2(tokens[i])
    ensures SlideCount(tokens, i) < |ParseSpec(v, tokens)|
    ensures ParseSpec(v, tokens)[SlideCount(tokens, i)]
            == H2Slide(tokens[i].text).(text := Merge(v, PartsOf(tokens, i + 1, NextH2(tokens, i + 1))))
  {
    SlideFixed(v, tokens, i, |tokens|);
    SectionAt(v, tokens, i, |tokens|);
    assert Min(|tokens|, NextH2(tokens, i + 1)) == NextH2(tokens, i + 1);
  }
}
