/**
 * `TextSplitter` of src/core/textSplitter.ts: the lexer's tokens become
 * blocks held in the splitter's `blocks` field, the slide count is chosen
 * from the text's size and structure, and the slides are the intro of the
 * first H1 followed by the grouped remaining blocks.  `createIntroSlide`,
 * `createDefaultSlide` and the body of `groupIntoSlides` past its H2 ranges
 * are not part of this model; they are parameters.
 */
module TextSplitter {
  import opened Common
  import opened Markdown
  import SmartWrap

  datatype BlockType = HeadingBlock | ParagraphBlock | QuoteBlock | ListBlock

  /** A `MarkdownBlock`; `level` is set for headings only. */
  datatype Block = Block(kind: BlockType, level: Option<nat>, content: string, raw: string)

  predicate IsH1Block(b: Block) { b.kind == HeadingBlock && b.level == Some(1) }
  predicate IsH2Block(b: Block) { b.kind == HeadingBlock && b.level == Some(2) }

  /**
   * The separator `extractListText` joins items with: a newline and the
   * three characters the file's bullet became when its UTF-8 bytes were
   * read as Windows-1252, then a space.
   */
  const ListSeparator := "\n\U{00E2}\U{20AC}\U{00A2} "

  // ---- extracting text from tokens ----

  /** `tokens.filter(t => t.type === 'paragraph').map(t => t.text)` */
  function ParagraphTexts(ts: seq<Token>): (r: seq<string>)
    ensures |r| <= |ts|
  {
    if ts == [] then []
    else (if ts[0].kind == Paragraph then [ts[0].text] else []) + ParagraphTexts(ts[1..])
  }

  /** `extractBlockquoteText`: the inner paragraphs joined by a blank line, or the token's own text. */
  function ExtractBlockquoteText(t: Token): string
  {
    match t.tokens
    case Some(ts) => Join(ParagraphTexts(ts), "\n\n")
    case None => t.text
  }

  /** The inner tokens of an item that count as its text: `text` and `paragraph` ones, as `t.text || t.raw`. */
  function PieceTexts(ts: seq<Token>): (r: seq<string>)
    ensures |r| <= |ts|
  {
    if ts == [] then []
    else (if ts[0].kind == TextToken || ts[0].kind == Paragraph then [OrRaw(ts[0])] else []) + PieceTexts(ts[1..])
  }

  /** `t.text || t.raw` */
  function OrRaw(t: Token): string
  {
    if t.text != "" then t.text else t.raw
  }

  /** One item's text: its inner pieces joined by a space, or `item.text || ''`. */
  function ListItemText(item: Item): string
  {
    match item.tokens
    case Some(ts) => Join(PieceTexts(ts), " ")
    case None => item.text
  }

  function ListItemTexts(items: seq<Item>): (r: seq<string>)
    ensures |r| == |items|
    ensures forall j | 0 <= j < |items| :: r[j] == ListItemText(items[j])
  {
    if items == [] then [] else [ListItemText(items[0])] + ListItemTexts(items[1..])
  }

  /** `extractListText` of a list token, whose `items` is always present. */
  function ExtractListText(t: Token): string
  {
    Join(ListItemTexts(t.items), ListSeparator)
  }

  /** The block `parseMarkdown` pushes for a token, if its type is one the `switch` handles. */
  function BlockOf(t: Token): (b: Option<Block>)
    ensures b.Some? <==> t.kind in {Heading, Paragraph, Blockquote, List}
    ensures b.Some? ==> b.value.raw == t.raw && (b.value.level.Some? <==> t.kind == Heading)
  {
    match t.kind
    case Heading => Some(Block(HeadingBlock, Some(t.depth), t.text, t.raw))
    case Paragraph => Some(Block(ParagraphBlock, None, t.text, t.raw))
    case Blockquote => Some(Block(QuoteBlock, None, ExtractBlockquoteText(t), t.raw))
    case List => Some(Block(ListBlock, None, ExtractListText(t), t.raw))
    case _ => None
  }

  /** The blocks of the first `k` tokens. */
  function BlocksTo(tokens: seq<Token>, k: nat): seq<Block>
    requires k <= |tokens|
  {
    if k == 0 then []
    else BlocksTo(tokens, k - 1) + (match BlockOf(tokens[k - 1]) case Some(b) => [b] case None => [])
  }

  // ---- the slide count ----

  /** `maxSlides: number | 'auto'` */
  datatype MaxSlides = Count(n: int) | Auto

  /** The number of blocks of one type. */
  function CountKind(blocks: seq<Block>, kind: BlockType): (n: nat)
    ensures n <= |blocks|
  {
    if blocks == [] then 0
    else (if blocks[0].kind == kind then 1 else 0) + CountKind(blocks[1..], kind)
  }

  /** The `auto` count: ceil(words / 50) plus up to 3 for structure, kept within [3, 15]. */
  function AutoCount(words: nat, headings: nat, quotes: nat): int
  {
    Max(3, Min(CeilDiv(words, 50) + Min(headings + quotes, 3), 15))
  }

  /** The auto count lies in [3, 15], grows with the text and caps the structure bonus at 3. */
  lemma AutoCountBounds(words: nat, headings: nat, quotes: nat)
    ensures 3 <= AutoCount(words, headings, quotes) <= 15
    ensures AutoCount(words, headings, quotes) <= Max(3, CeilDiv(words, 50) + 3)
    ensures forall more: nat | words <= more :: AutoCount(words, headings, quotes) <= AutoCount(more, headings, quotes)
  {
    forall more: nat | words <= more
      ensures AutoCount(words, headings, quotes) <= AutoCount(more, headings, quotes)
    {
      CeilDivMonotone(words, more);
    }
  }

  lemma CeilDivMonotone(a: nat, b: nat)
    requires a <= b
    ensures CeilDiv(a, 50) <= CeilDiv(b, 50)
  {
  }

  // ---- the H2 ranges of groupIntoSlides ----

  /** The positions of the H2 blocks at or after `from`, in order: `blocks.filter(...)` located. */
  function H2Indices(blocks: seq<Block>, from: nat): (r: seq<nat>)
    ensures forall j | 0 <= j < |r| :: from <= r[j] < |blocks| && IsH2Block(blocks[r[j]])
    decreases |blocks| - from
  {
    if from >= |blocks| then []
    else (if IsH2Block(blocks[from]) then [from] else []) + H2Indices(blocks, from + 1)
  }

  /** `blocks.findIndex((b, i) => i >= from && ...)`: the first H2 at or after `from`, or -1. */
  function FindH2(blocks: seq<Block>, from: nat): (i: int)
    ensures i == -1 || (from <= i < |blocks| && IsH2Block(blocks[i]))
    ensures forall j | from <= j < |blocks| && (i == -1 || j < i) :: !IsH2Block(blocks[j])
    decreases |blocks| - from
  {
    if from >= |blocks| then -1
    else if IsH2Block(blocks[from]) then from
    else FindH2(blocks, from + 1)
  }

  /** `endIndex` of the H2 at `i`: the next H2, or the end of the blocks. */
  function GroupEnd(blocks: seq<Block>, i: nat): (e: nat)
    ensures i < |blocks| ==> i < e <= |blocks|
  {
    var n := FindH2(blocks, i + 1);
    if n == -1 then |blocks| else n
  }

  /** `blocks.slice(h2Index, endIndex)` */
  function Group(blocks: seq<Block>, i: nat): seq<Block>
  {
    if i < |blocks| then var e := GroupEnd(blocks, i); blocks[i..e] else []
  }

  function GroupAt(blocks: seq<Block>): nat -> seq<Block>
  {
    (i: nat) => Group(blocks, i)
  }

  /** The block ranges of the H2 strategy, one per H2 in order. */
  function H2Groups(blocks: seq<Block>): seq<seq<Block>>
  {
    MapSeq(H2Indices(blocks, 0), GroupAt(blocks))
  }

  /** `h2Blocks.length > 0 && h2Blocks.length <= targetCount` */
  predicate UsesH2Strategy(blocks: seq<Block>, target: int)
  {
    0 < |H2Indices(blocks, 0)| <= target
  }

  function Flatten<T>(ss: seq<seq<T>>): seq<T>
  {
    if ss == [] then [] else ss[0] + Flatten(ss[1..])
  }

  /** A group opens with its H2 and holds no other H2. */
  lemma GroupShape(blocks: seq<Block>, i: nat)
    requires i < |blocks| && IsH2Block(blocks[i])
    ensures var g := GroupAt(blocks)(i);
            && g != [] && g[0] == blocks[i]
            && (forall k | 1 <= k < |g| :: !IsH2Block(g[k]))
            && (i + |g| == |blocks| || IsH2Block(blocks[i + |g|]))
  {
    var g := GroupAt(blocks)(i);
    forall k | 1 <= k < |g| ensures !IsH2Block(g[k]) {
      assert g[k] == blocks[i + k];
    }
  }

  /** `findIndex` finds the first of the located H2s. */
  lemma {:induction false} FindIsFirst(blocks: seq<Block>, from: nat)
    ensures FindH2(blocks, from) == (if H2Indices(blocks, from) == [] then -1 else H2Indices(blocks, from)[0])
    decreases |blocks| - from
  {
    if from < |blocks| && !IsH2Block(blocks[from]) {
      FindIsFirst(blocks, from + 1);
    }
  }

  /** The groups cover every block from the first H2 on, each block once and in order. */
  lemma {:induction false} GroupsTile(blocks: seq<Block>, from: nat)
    requires from <= |blocks|
    ensures var hs := H2Indices(blocks, from);
            hs != [] ==> Flatten(MapSeq(hs, GroupAt(blocks))) == blocks[hs[0]..]
    decreases |blocks| - from
  {
    if from < |blocks| {
      GroupsTile(blocks, from + 1);
      if IsH2Block(blocks[from]) {
        assert H2Indices(blocks, from) == [from] + H2Indices(blocks, from + 1);
        FindIsFirst(blocks, from + 1);
        TileStep(blocks, from, H2Indices(blocks, from + 1));
      } else {
        assert H2Indices(blocks, from) == [] + H2Indices(blocks, from + 1);
        assert [] + H2Indices(blocks, from + 1) == H2Indices(blocks, from + 1);
      }
    }
  }

  /** One H2 more: its group, then the groups of the H2s after it. */
  lemma TileStep(blocks: seq<Block>, from: nat, rest: seq<nat>)
    requires from < |blocks| && IsH2Block(blocks[from])
    requires rest == H2Indices(blocks, from + 1)
    requires FindH2(blocks, from + 1) == (if rest == [] then -1 else rest[0])
    requires rest != [] ==> Flatten(MapSeq(rest, GroupAt(blocks))) == blocks[rest[0]..]
    ensures Flatten(MapSeq([from] + rest, GroupAt(blocks))) == blocks[from..]
  {
    var f := GroupAt(blocks);
    MapSeqAppend([from], rest, f);
    FlattenCons(f(from), MapSeq(rest, f));
    if rest == [] {
      assert f(from) == blocks[from..];
      assert Flatten<Block>([]) == [];
    } else {
      assert f(from) == blocks[from..rest[0]];
      assert blocks[from..rest[0]] + blocks[rest[0]..] == blocks[from..];
    }
  }

  lemma FlattenCons<T>(x: seq<T>, rest: seq<seq<T>>)
    ensures Flatten([x] + rest) == x + Flatten(rest)
  {
    assert ([x] + rest)[1..] == rest;
  }

  /** The H2 groups tile the blocks from the first H2 to the end. */
  lemma H2GroupsCover(blocks: seq<Block>)
    requires H2Indices(blocks, 0) != []
    ensures Flatten(H2Groups(blocks)) == blocks[H2Indices(blocks, 0)[0]..]
    ensures |H2Groups(blocks)| == |H2Indices(blocks, 0)|
  {
    GroupsTile(blocks, 0);
  }

  /** `groupIntoSlides`: nothing for no blocks; the rest of its body is the parameter `group`. */
  function GroupIntoSlides(blocks: seq<Block>, target: int, group: (seq<Block>, int) -> seq<Slide>): (r: seq<Slide>)
    ensures blocks == [] ==> r == []
  {
    if blocks == [] then [] else group(blocks, target)
  }

  /** The position of the first H1 block, which `indexOf(h1Blocks[0])` finds. */
  function FirstH1(blocks: seq<Block>): (i: Option<nat>)
    ensures i.Some? ==> i.value < |blocks| && IsH1Block(blocks[i.value])
    ensures forall j | 0 <= j < |blocks| && (i.None? || j < i.value) :: !IsH1Block(blocks[j])
  {
    if blocks == [] then None
    else if IsH1Block(blocks[0]) then Some(0)
    else match FirstH1(blocks[1..])
      case None => None
      case Some(j) => Some(j + 1)
  }

  class Splitter {
    /** The markdown the splitter was built from. */
    const text: string
    var blocks: seq<Block>

    /** `new TextSplitter(text)`, given the lexer's tokens for `text`. */
    constructor(text: string, tokens: seq<Token>)
      ensures this.text == text && blocks == BlocksTo(tokens, |tokens|)
    {
      this.text := text;
      blocks := [];
      new;
      ParseMarkdown(tokens);
    }

    /** `parseMarkdown`: one block pushed per heading, paragraph, blockquote and list token. */
    method ParseMarkdown(tokens: seq<Token>)
      modifies this
      ensures blocks == old(blocks) + BlocksTo(tokens, |tokens|)
    {
      for k := 0 to |tokens|
        invariant blocks == old(blocks) + BlocksTo(tokens, k)
      {
        match BlockOf(tokens[k])
        case Some(b) => blocks := blocks + [b];
        case None =>
      }
    }

    /** `calculateOptimalSlideCount(maxSlides)` */
    function CalculateOptimalSlideCount(maxSlides: MaxSlides): (n: int)
      reads this
      ensures maxSlides.Count? ==> n == maxSlides.n
      ensures maxSlides.Auto? ==> 3 <= n <= 15
    {
      match maxSlides
      case Count(n) => n
      case Auto =>
        AutoCountBounds(|SmartWrap.SplitWs(text)|, CountKind(blocks, HeadingBlock), CountKind(blocks, QuoteBlock));
        AutoCount(|SmartWrap.SplitWs(text)|, CountKind(blocks, HeadingBlock), CountKind(blocks, QuoteBlock))
    }

    /**
     * `generateSlides(maxSlides)`.  No blocks give the default slide; an H1
     * gives the intro first and hands grouping only the blocks after it,
     * with one slide fewer to fill; the result is never empty.
     */
    method GenerateSlides(maxSlides: MaxSlides, intro: Block -> Slide, defaultSlide: Slide,
                          group: (seq<Block>, int) -> seq<Slide>) returns (slides: seq<Slide>)
      ensures |slides| >= 1
      ensures blocks == [] ==> slides == [defaultSlide]
      ensures blocks != [] && FirstH1(blocks).Some? ==>
                var i := FirstH1(blocks).value;
                slides == [intro(blocks[i])] + GroupIntoSlides(blocks[i + 1..], CalculateOptimalSlideCount(maxSlides) - 1, group)
      ensures blocks != [] && FirstH1(blocks).None? ==>
                var made := GroupIntoSlides(blocks, CalculateOptimalSlideCount(maxSlides), group);
                slides == if made == [] then [defaultSlide] else made
    {
      if |blocks| == 0 {
        return [defaultSlide];
      }
      slides := [];
      var target := CalculateOptimalSlideCount(maxSlides);
      var first := FirstH1(blocks);
      if first.Some? {
        slides := slides + [intro(blocks[first.value])];
      }
      var remaining := if first.Some? then blocks[first.value + 1..] else blocks;
      var content := GroupIntoSlides(remaining, target - (if first.Some? then 1 else 0), group);
      slides := slides + content;
      if |slides| == 0 {
        slides := slides + [defaultSlide];
      }
    }
  }

  // ---- what the extraction promises ----

  /** Every item after the first is preceded by the separator; the first has no bullet. */
  lemma {:induction false} JoinPrefixesRest(ss: seq<string>, sep: string)
    requires ss != []
    ensures Join(ss, sep) == ss[0] + Concat(MapSeq(ss[1..], (s: string) => sep + s))
    decreases |ss|
  {
    if |ss| > 1 {
      JoinPrefixesRest(ss[1..], sep);
      assert ss[1..][1..] == ss[2..];
      assert MapSeq(ss[1..], (s: string) => sep + s)
             == [sep + ss[1]] + MapSeq(ss[2..], (s: string) => sep + s);
    }
  }

  /** The list text is the first item's text, then each later item after the separator. */
  lemma ListTextShape(t: Token)
    requires t.items != []
    ensures ExtractListText(t)
            == ListItemText(t.items[0]) + Concat(MapSeq(ListItemTexts(t.items)[1..], (s: string) => ListSeparator + s))
  {
    JoinPrefixesRest(ListItemTexts(t.items), ListSeparator);
  }

  /** An inner token that is not a paragraph adds nothing to a quote's text. */
  lemma {:induction false} ParagraphTextsSnoc(ts: seq<Token>, x: Token)
    ensures ParagraphTexts(ts + [x]) == ParagraphTexts(ts) + (if x.kind == Paragraph then [x.text] else [])
    decreases |ts|
  {
    if ts == [] {
      assert [x][1..] == [];
    } else {
      assert (ts + [x])[1..] == ts[1..] + [x];
      ParagraphTextsSnoc(ts[1..], x);
    }
  }

  /** A quote's text ignores the inner tokens that are not paragraphs and joins the others in order. */
  lemma QuoteTextSkipsOthers(t: Token, x: Token)
    requires t.tokens.Some? && x.kind != Paragraph
    ensures ExtractBlockquoteText(t.(tokens := Some(t.tokens.value + [x]))) == ExtractBlockquoteText(t)
  {
    ParagraphTextsSnoc(t.tokens.value, x);
    assert ParagraphTexts(t.tokens.value) + [] == ParagraphTexts(t.tokens.value);
  }

  /** Parsing keeps one block per handled token, in token order, and drops the rest. */
  lemma {:induction false} BlocksCount(tokens: seq<Token>, k: nat)
    requires k <= |tokens|
    ensures |BlocksTo(tokens, k)| == |set j | 0 <= j < k && BlockOf(tokens[j]).Some?|
  {
    if k > 0 {
      BlocksCount(tokens, k - 1);
      var prev := set j | 0 <= j < k - 1 && BlockOf(tokens[j]).Some?;
      var now := set j | 0 <= j < k && BlockOf(tokens[j]).Some?;
      if BlockOf(tokens[k - 1]).Some? {
        assert now == prev + {k - 1};
      } else {
        assert now == prev;
      }
    }
  }
}
