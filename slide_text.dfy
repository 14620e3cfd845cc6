/**
 * `processSlideText` of corrected-server.js: every line of a slide's text
 * becomes one `<div>`.  A line whose trimmed form begins with `•` is a list
 * item wrapped at 32 characters, any other non-blank line is trimmed and
 * wrapped at 35, and a blank line is a spacer.  `parseWithCorrectAccents`
 * runs the `marked` library over the wrapped text and is a parameter here.
 */
module SlideText {
  import opened Common
  import SmartWrap

  /** The `<div>` one line becomes, holding the HTML `parseWithCorrectAccents` made. */
  datatype Div = ListItem(html: string) | TextLine(html: string) | Spacer

  const Bullet: char := '•'
  const ItemWidth := 32
  const LineWidth := 35

  // `line.replace(/^•\s*/, '')`: the bullet and the whitespace after it, only at the very start.
  function ItemText(line: string): (r: string)
    ensures |line| > 0 && line[0] == Bullet ==> r == line[1 + LeadingSpace(line[1..])..]
    ensures |line| == 0 || line[0] != Bullet ==> r == line
  {
    if |line| > 0 && line[0] == Bullet then line[1 + LeadingSpace(line[1..])..] else line
  }

  /** The `map` callback for one line. */
  function LineDiv(line: string, accents: string -> string): Div
  {
    var t := Trim(line);
    if |t| > 0 && t[0] == Bullet then ListItem(accents(SmartWrap.Wrap(ItemText(line), ItemWidth)))
    else if t != "" then TextLine(accents(SmartWrap.Wrap(t, LineWidth)))
    else Spacer
  }

  /** The markup of one `<div>`. */
  function Render(d: Div): string
  {
    match d
    case ListItem(h) => "<div class=\"list-item\">• " + h + "</div>"
    case TextLine(h) => "<div class=\"text-line\">" + h + "</div>"
    case Spacer => "<div class=\"text-spacer\"></div>"
  }

  /** The `map` callback, given the accent parser. */
  function LineDivs(accents: string -> string): string -> Div
  {
    line => LineDiv(line, accents)
  }

  function RenderAll(ds: seq<Div>): string
  {
    if ds == [] then "" else Render(ds[0]) + RenderAll(ds[1..])
  }

  /** The `<div>`s of a slide's text: none for empty text, else one per `\n`-separated line. */
  function Divs(text: string, accents: string -> string): seq<Div>
  {
    if text == "" then [] else MapSeq(SplitChar(text, '\n'), LineDivs(accents))
  }

  /** `processSlideText(text)`: the `<div>`s' markup joined with nothing between them. */
  function ProcessSlideText(text: string, accents: string -> string): string
  {
    RenderAll(Divs(text, accents))
  }

  // ---- what the classification promises ----

  /**
   * A line's kind is decided by its trimmed form: a bullet first makes a
   * list item of the line without its opening bullet, other visible text
   * makes a text line of the trimmed line, and a blank line makes a spacer.
   */
  lemma LineKind(line: string, accents: string -> string)
    ensures LineDiv(line, accents).ListItem? <==> StartsWith(Trim(line), [Bullet])
    ensures LineDiv(line, accents).Spacer? <==> IsBlank(line)
    ensures LineDiv(line, accents).ListItem? ==> LineDiv(line, accents) == ListItem(accents(SmartWrap.Wrap(ItemText(line), ItemWidth)))
    ensures LineDiv(line, accents).TextLine? ==> LineDiv(line, accents) == TextLine(accents(SmartWrap.Wrap(Trim(line), LineWidth)))
  {
    var t := Trim(line);
    assert StartsWith(t, [Bullet]) <==> |t| > 0 && t[0] == Bullet;
  }

  /** One `<div>` per line of non-empty text, each of its line's kind. */
  lemma OneDivPerLine(text: string, accents: string -> string)
    requires text != ""
    ensures var lines := SplitChar(text, '\n');
            var ds := Divs(text, accents);
            && |ds| == |lines| && Join(lines, "\n") == text
            && forall i | 0 <= i < |ds| ::
                 && ds[i] == LineDiv(lines[i], accents)
                 && (ds[i].ListItem? <==> StartsWith(Trim(lines[i]), [Bullet]))
                 && (ds[i].Spacer? <==> IsBlank(lines[i]))
  {
    var lines := SplitChar(text, '\n');
    var ds := Divs(text, accents);
    SplitCharJoin(text, '\n');
    forall i | 0 <= i < |ds|
      ensures ds[i].ListItem? <==> StartsWith(Trim(lines[i]), [Bullet])
      ensures ds[i].Spacer? <==> IsBlank(lines[i])
    {
      LineKind(lines[i], accents);
    }
  }

  /** Splitting at a separator splits the pieces on either side of it independently. */
  lemma {:induction false} SplitCharAppend(a: string, b: string, c: char)
    ensures SplitChar(a + [c] + b, c) == SplitChar(a, c) + SplitChar(b, c)
  {
    var s := a + [c] + b;
    if a == [] {
      assert s == [c] + b && s[1..] == b;
      assert SplitChar(s, c) == [""] + SplitChar(b, c);
    } else {
      assert s[0] == a[0] && s[1..] == a[1..] + [c] + b;
      SplitCharAppend(a[1..], b, c);
      var ra, rb := SplitChar(a[1..], c), SplitChar(b, c);
      if a[0] == c {
        assert SplitChar(s, c) == [""] + (ra + rb);
        assert SplitChar(a, c) == [""] + ra;
      } else {
        assert SplitChar(s, c) == [[a[0]] + ra[0]] + (ra + rb)[1..];
        assert (ra + rb)[1..] == ra[1..] + rb;
        assert SplitChar(a, c) == [[a[0]] + ra[0]] + ra[1..];
      }
    }
  }

  /** Each line is processed on its own: the markup of two blocks of lines is their markups in turn. */
  lemma ProcessLinesApart(a: string, b: string, accents: string -> string)
    requires a != "" && b != ""
    ensures ProcessSlideText(a + "\n" + b, accents) == ProcessSlideText(a, accents) + ProcessSlideText(b, accents)
  {
    SplitCharAppend(a, b, '\n');
    var la, lb := SplitChar(a, '\n'), SplitChar(b, '\n');
    MapSeqAppend(la, lb, LineDivs(accents));
    RenderAllAppend(MapSeq(la, LineDivs(accents)), MapSeq(lb, LineDivs(accents)));
  }

  /** Empty text gives no markup at all. */
  lemma EmptyTextIsEmpty(accents: string -> string)
    ensures ProcessSlideText("", accents) == ""
  {
  }

  /** A single line of text is a single `<div>`. */
  lemma SingleLine(line: string, accents: string -> string)
    requires line != "" && '\n' !in line
    ensures Divs(line, accents) == [LineDiv(line, accents)]
  {
    SplitNoSeparator(line, '\n');
  }

  /** Text without the separator does not split. */
  lemma {:induction false} SplitNoSeparator(s: string, c: char)
    requires c !in s
    ensures SplitChar(s, c) == [s]
  {
    if s != [] {
      assert c !in s[1..] by {
        forall k | 0 <= k < |s[1..]| ensures s[1..][k] != c {
          assert s[1..][k] == s[k + 1];
        }
      }
      SplitNoSeparator(s[1..], c);
      assert [s[0]] + s[1..] == s;
    }
  }

  /** The markup is the rendered `<div>`s one after another. */
  lemma {:induction false} RenderAllAppend(a: seq<Div>, b: seq<Div>)
    ensures RenderAll(a + b) == RenderAll(a) + RenderAll(b)
  {
    if a != [] {
      assert (a + b)[1..] == a[1..] + b;
      RenderAllAppend(a[1..], b);
    } else {
      assert a + b == b;
    }
  }

  /**
   * A list item keeps only the bullet that opens its line: a line that
   * begins with `•` loses it and the whitespace after it, while a line with
   * whitespace before the bullet keeps the whole line, bullet included.
   */
  lemma ItemTextStripsLeadingBullet(line: string)
    ensures |line| > 0 && line[0] == Bullet ==> |ItemText(line)| < |line| && (ItemText(line) == [] || !IsJsSpace(ItemText(line)[0]))
    ensures |line| > 0 && IsJsSpace(line[0]) ==> ItemText(line) == line
  {
  }
}
