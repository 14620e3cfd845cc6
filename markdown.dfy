/**
 * The input every server folds into slides: the block tokens `marked.lexer`
 * returns, with the fields the folds read, and the slide records they build.
 * The lexer itself is not part of this model; its output is given.
 */
module Markdown {
  import opened Common

  datatype Kind = Heading | Paragraph | List | Blockquote | TextToken | Space | OtherKind

  /**
   * One lexer token.  `depth` is meaningful for headings, `items` for lists and
   * `tokens` for blockquotes and list items; an absent `text` is written "",
   * which JavaScript treats the same way wherever `|| ''` reads it.
   */
  datatype Token = Token(kind: Kind, depth: nat, text: string, raw: string, tokens: Option<seq<Token>>, items: seq<Item>)

  datatype Item = Item(text: string, tokens: Option<seq<Token>>)

  predicate IsH1(t: Token) { t.kind == Heading && t.depth == 1 }
  predicate IsH2(t: Token) { t.kind == Heading && t.depth == 2 }

  /** The tokens that open a slide in every server: an H1, an H2 or a blockquote. */
  predicate OpensSlide(t: Token)
  {
    IsH1(t) || IsH2(t) || t.kind == Blockquote
  }

  /** The number of slide-opening tokens among the first `k`. */
  function SlideCount(tokens: seq<Token>, k: nat): nat
    requires k <= |tokens|
  {
    if k == 0 then 0 else SlideCount(tokens, k - 1) + (if OpensSlide(tokens[k - 1]) then 1 else 0)
  }

  datatype SlideType = Intro | TextSlide | Quote
  /** `color`: the two values the folds write, or any other string a setting supplies. */
  datatype Color = DefaultColor | Accent | Named(name: string)
  datatype QuoteSize = Small | Medium | Large

  /** A slide record; `title` is `None` where the server writes no title field. */
  datatype Slide = Slide(kind: SlideType, title: Option<string>, text: string, color: Color,
                         showAbstraction: bool, size: Option<QuoteSize>)

  /** `(nextToken && nextToken.type === 'paragraph') ? nextToken.text : ''`. */
  function Subtitle(tokens: seq<Token>, i: nat): (s: string)
    ensures i + 1 < |tokens| && tokens[i + 1].kind == Paragraph ==> s == tokens[i + 1].text
    ensures !(i + 1 < |tokens| && tokens[i + 1].kind == Paragraph) ==> s == ""
  {
    if i + 1 < |tokens| && tokens[i + 1].kind == Paragraph then tokens[i + 1].text else ""
  }

  /** `token.tokens?.[0]?.text || ''`: the text of a blockquote's first inner token. */
  function QuoteText(t: Token): (s: string)
    ensures t.tokens.Some? && t.tokens.value != [] ==> s == t.tokens.value[0].text
    ensures t.tokens.None? || t.tokens.value == [] ==> s == ""
  {
    match t.tokens
    case None => ""
    case Some(ts) => if ts == [] then "" else ts[0].text
  }

  /** The quote size of corrected, final, enhanced, styled and perfect: over 140 small, over 100 medium. */
  function QuoteSizeOf(text: string): (z: QuoteSize)
    ensures z == Small <==> |text| > 140
    ensures z == Medium <==> 100 < |text| <= 140
    ensures z == Large <==> |text| <= 100
  {
    if |text| > 140 then Small else if |text| > 100 then Medium else Large
  }

  /** The quote size of canvas-server.js: over 100 characters small, otherwise large. */
  function CanvasQuoteSize(text: string): (z: QuoteSize)
    ensures z == Small <==> |text| > 100
    ensures z == Large <==> |text| <= 100
  {
    if |text| > 100 then Small else Large
  }

  // ---- the content of an H2 slide ----

  /** A content part: a paragraph's text, or a list's item texts. */
  datatype Part = Para(text: string) | ListPart(items: seq<string>)

  /** `token.items.map(item => item.text)`. */
  function ItemTexts(items: seq<Item>): (r: seq<string>)
    ensures |r| == |items|
    ensures forall j | 0 <= j < |items| :: r[j] == items[j].text
  {
    if items == [] then [] else [items[0].text] + ItemTexts(items[1..])
  }

  /** The part a paragraph or list token contributes; other tokens contribute none. */
  function PartOf(t: Token): (r: seq<Part>)
    ensures |r| <= 1
    ensures r != [] <==> t.kind == Paragraph || t.kind == List
  {
    if t.kind == Paragraph then [Para(t.text)]
    else if t.kind == List then [ListPart(ItemTexts(t.items))]
    else []
  }

  /** The parts of the tokens `tokens[a..b]`, in order. */
  function PartsOf(tokens: seq<Token>, a: nat, b: nat): seq<Part>
    requires a <= b <= |tokens|
    decreases b - a
  {
    if a == b then [] else PartsOf(tokens, a, b - 1) + PartOf(tokens[b - 1])
  }

  /** `items.map(item => `• ${item}`)`. */
  function Bulleted(items: seq<string>): (r: seq<string>)
    ensures |r| == |items|
    ensures forall j | 0 <= j < |items| :: r[j] == "• " + items[j]
  {
    if items == [] then [] else ["• " + items[0]] + Bulleted(items[1..])
  }

  /** A list as one string: one bulleted item per line. */
  function BulletLines(items: seq<string>): string
  {
    Join(Bulleted(items), "\n")
  }

  function PartText(p: Part): string
  {
    match p
    case Para(text) => text
    case ListPart(items) => BulletLines(items)
  }

  function Paragraphs(parts: seq<Part>): seq<string>
  {
    if parts == [] then []
    else (if parts[0].Para? then [parts[0].text] else []) + Paragraphs(parts[1..])
  }

  function ListsText(parts: seq<Part>): string
  {
    if parts == [] then ""
    else (if parts[0].ListPart? then BulletLines(parts[0].items) else "") + ListsText(parts[1..])
  }

  predicate HasList(parts: seq<Part>)
  {
    exists j | 0 <= j < |parts| :: parts[j].ListPart?
  }

  /**
   * The merge of canvas-server.js and corrected-server.js: every paragraph
   * first, joined by a blank line, then every list, each appended with no
   * separator.
   */
  function MergeGrouped(parts: seq<Part>): string
  {
    var paras := Join(Paragraphs(parts), "\n\n");
    if !HasList(parts) then paras
    else (if paras != "" then paras + "\n\n" else "") + ListsText(parts)
  }

  /** The merge of final-server.js and enhanced-server.js: every part in source order, joined by a blank line. */
  function MergeInOrder(parts: seq<Part>): string
  {
    Join(PartTexts(parts), "\n\n")
  }

  function PartTexts(parts: seq<Part>): (r: seq<string>)
    ensures |r| == |parts|
    ensures forall j | 0 <= j < |parts| :: r[j] == PartText(parts[j])
  {
    if parts == [] then [] else [PartText(parts[0])] + PartTexts(parts[1..])
  }

  // ---- what the two merges promise ----

  lemma {:induction false} ParagraphsAppend(a: seq<Part>, b: seq<Part>)
    ensures Paragraphs(a + b) == Paragraphs(a) + Paragraphs(b)
  {
    if a != [] {
      assert (a + b)[1..] == a[1..] + b;
      ParagraphsAppend(a[1..], b);
    } else {
      assert a + b == b;
    }
  }

  lemma {:induction false} ListsTextAppend(a: seq<Part>, b: seq<Part>)
    ensures ListsText(a + b) == ListsText(a) + ListsText(b)
  {
    if a != [] {
      assert (a + b)[1..] == a[1..] + b;
      ListsTextAppend(a[1..], b);
    } else {
      assert a + b == b;
    }
  }

  lemma HasListAppend(a: seq<Part>, b: seq<Part>)
    ensures HasList(a + b) <==> HasList(a) || HasList(b)
  {
    if HasList(a + b) {
      var j :| 0 <= j < |a + b| && (a + b)[j].ListPart?;
      if j >= |a| {
        assert b[j - |a|].ListPart?;
      }
    }
    if HasList(a) {
      var j :| 0 <= j < |a| && a[j].ListPart?;
      assert (a + b)[j].ListPart?;
    }
    if HasList(b) {
      var j :| 0 <= j < |b| && b[j].ListPart?;
      assert (a + b)[|a| + j].ListPart?;
    }
  }

  /** The three things the grouped merge reads, over a concatenation of three runs. */
  lemma GroupedPieces(a: seq<Part>, m: seq<Part>, b: seq<Part>)
    ensures Paragraphs(a + m + b) == Paragraphs(a) + Paragraphs(m) + Paragraphs(b)
    ensures ListsText(a + m + b) == ListsText(a) + ListsText(m) + ListsText(b)
    ensures HasList(a + m + b) <==> HasList(a) || HasList(m) || HasList(b)
  {
    ParagraphsAppend(a, m);
    ParagraphsAppend(a + m, b);
    ListsTextAppend(a, m);
    ListsTextAppend(a + m, b);
    HasListAppend(a, m);
    HasListAppend(a + m, b);
  }

  /** A list followed by a paragraph reads as the paragraph followed by the list. */
  lemma SwappedPair(items: seq<string>, text: string)
    ensures Paragraphs([ListPart(items), Para(text)]) == [text] == Paragraphs([Para(text), ListPart(items)])
    ensures ListsText([ListPart(items), Para(text)]) == BulletLines(items) == ListsText([Para(text), ListPart(items)])
    ensures HasList([ListPart(items), Para(text)]) && HasList([Para(text), ListPart(items)])
  {
    var l, p := ListPart(items), Para(text);
    assert [l, p] == [l] + [p] && [p, l] == [p] + [l];
    SinglePart(l);
    SinglePart(p);
    ParagraphsAppend([l], [p]);
    ParagraphsAppend([p], [l]);
    ListsTextAppend([l], [p]);
    ListsTextAppend([p], [l]);
    assert [l, p][0].ListPart? && [p, l][1].ListPart?;
  }

  /**
   * The grouped merge sees only the paragraphs in order and the lists in
   * order: moving a list past the paragraph that follows it changes nothing.
   */
  lemma GroupedIgnoresListPosition(a: seq<Part>, items: seq<string>, text: string, b: seq<Part>)
    ensures MergeGrouped(a + [ListPart(items), Para(text)] + b) == MergeGrouped(a + [Para(text), ListPart(items)] + b)
  {
    GroupedPieces(a, [ListPart(items), Para(text)], b);
    GroupedPieces(a, [Para(text), ListPart(items)], b);
    SwappedPair(items, text);
  }

  lemma SinglePart(p: Part)
    ensures Paragraphs([p]) == if p.Para? then [p.text] else []
    ensures ListsText([p]) == if p.ListPart? then BulletLines(p.items) else ""
  {
    assert [p][1..] == [];
  }

  lemma {:induction false} ParagraphsWithoutLists(parts: seq<Part>)
    requires !HasList(parts)
    ensures Paragraphs(parts) == PartTexts(parts)
  {
    if parts != [] {
      assert !parts[0].ListPart?;
      forall j | 0 <= j < |parts[1..]|
        ensures !parts[1..][j].ListPart?
      {
        assert parts[1..][j] == parts[j + 1];
      }
      ParagraphsWithoutLists(parts[1..]);
    }
  }

  /** Without lists, the grouped merge and the in-order merge give the same text. */
  lemma GroupedIsInOrderWithoutLists(parts: seq<Part>)
    requires !HasList(parts)
    ensures MergeGrouped(parts) == MergeInOrder(parts)
  {
    ParagraphsWithoutLists(parts);
  }

  /** Without paragraphs, the grouped merge is every list's bullet lines run together. */
  lemma {:induction false} GroupedListsOnly(parts: seq<Part>)
    requires forall j | 0 <= j < |parts| :: parts[j].ListPart?
    ensures Paragraphs(parts) == []
    ensures ListsText(parts) == Concat(PartTexts(parts))
  {
    if parts != [] {
      assert forall j | 0 <= j < |parts[1..]| :: parts[1..][j] == parts[j + 1];
      GroupedListsOnly(parts[1..]);
    }
  }

  /**
   * Two lists in one section are appended with no separator, so the last
   * bullet of the first and the first bullet of the second share a line.
   */
  lemma TwoListsRunTogether(x: seq<string>, y: seq<string>)
    ensures MergeGrouped([ListPart(x), ListPart(y)]) == BulletLines(x) + BulletLines(y)
  {
    var l, m := ListPart(x), ListPart(y);
    assert [l, m] == [l] + [m];
    SinglePart(l);
    SinglePart(m);
    ParagraphsAppend([l], [m]);
    ListsTextAppend([l], [m]);
    assert [l, m][0].ListPart?;
  }

  lemma OneBullet(s: string)
    ensures BulletLines([s]) == "• " + s
  {
    assert Bulleted([s]) == ["• " + s];
  }

  lemma AdjacentListsShareALine()
    ensures MergeGrouped([ListPart(["a"]), ListPart(["b"])]) == "• a• b"
  {
    TwoListsRunTogether(["a"], ["b"]);
    OneBullet("a");
    OneBullet("b");
    assert "• " + "a" + ("• " + "b") == "• a• b";
  }

  /** The in-order merge puts each part after the previous ones, a blank line between. */
  lemma InOrderSnoc(parts: seq<Part>, p: Part)
    ensures MergeInOrder(parts + [p])
            == if parts == [] then PartText(p) else MergeInOrder(parts) + "\n\n" + PartText(p)
  {
    assert PartTexts(parts + [p]) == PartTexts(parts) + [PartText(p)];
    JoinSnoc(PartTexts(parts), PartText(p), "\n\n");
  }

  /** The slide the Express handlers add when the fold produced none. */
  function Fallback(title: string, text: string, limit: nat): (s: Slide)
    ensures s.kind == TextSlide && s.title == Some(title) && s.color == DefaultColor
    ensures |s.text| == Min(limit, |text|) && s.text == text[..|s.text|]
  {
    Slide(TextSlide, Some(title), text[..Min(limit, |text|)], DefaultColor, false, None)
  }

  /** `if (slides.length === 0) slides.push(fallback)`. */
  function OrFallback(slides: seq<Slide>, fallback: Slide): (r: seq<Slide>)
    ensures r != []
    ensures slides != [] ==> r == slides
    ensures slides == [] ==> r == [fallback]
  {
    if slides == [] then [fallback] else slides
  }
}
