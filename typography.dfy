/**
 * The hanging-preposition processor of canvas-server.js (`fixHangingWords`):
 * for each short Russian word of a fixed dictionary, in dictionary order, a
 * case-insensitive global replacement of "word followed by whitespace" by
 * "word followed by one no-break space", so that the word is never left at
 * the end of a line.
 *
 * The regular expression is built as `\b<word>\s+` with the flags `gi` and no
 * `u` flag.  Without `u`, `\b` looks only at ASCII word characters, so a
 * boundary in front of a Cyrillic word exists only when an ASCII letter,
 * digit or `_` precedes it.  `AsWritten` models that; `Intended` models the
 * boundary the comment in the source describes (the word is not preceded by
 * a letter) and keeps the matched spelling.
 */
module Typography {
  import opened Common

  const NoBreakSpace: char := '\U{00A0}'

  /** The dictionary, in the order the replacements are applied (canvas-server.js:154-159). */
  const HangingWords: seq<string> := [
    "и", "а", "но", "да", "или", "либо", "то", "не", "ни",
    "за", "для", "без", "при", "про", "под", "над", "через", "между",
    "из", "от", "до", "на", "в", "с", "у", "о", "об", "во", "со", "ко",
    "что", "как", "где", "когда", "если", "чтобы", "который", "которая"
  ]

  predicate IsCyrillicSmall(c: char)
  {
    '\U{0430}' <= c <= '\U{044F}'
  }

  /** Every dictionary word is non-empty and spelt in small Cyrillic letters а-я. */
  predicate CyrillicWord(w: string)
  {
    w != [] && forall k | 0 <= k < |w| :: IsCyrillicSmall(w[k])
  }

  /**
   * The case canonicalisation of a non-Unicode case-insensitive regular
   * expression (`toUpperCase` of one character), for the characters whose
   * upper case is a Latin or a Cyrillic letter.
   */
  function Upper(c: char): char
  {
    if 'a' <= c <= 'z' then (c as int - 32) as char
    else if IsCyrillicSmall(c) then (c as int - 0x20) as char
    else if '\U{0450}' <= c <= '\U{045F}' then (c as int - 0x50) as char
    else if c == '\U{1C80}' then '\U{0412}'
    else if c == '\U{1C81}' then '\U{0414}'
    else if c == '\U{1C82}' then '\U{041E}'
    else if c == '\U{1C83}' then '\U{0421}'
    else if c == '\U{1C84}' || c == '\U{1C85}' then '\U{0422}'
    else if c == '\U{1C86}' then '\U{042A}'
    else if c == '\U{1C87}' then '\U{0462}'
    else if c == '\U{1C88}' then '\U{A64A}'
    else c
  }

  predicate SameLetter(c: char, p: char)
  {
    Upper(c) == Upper(p)
  }

  /** `w` occurs in `s` at `i`, ignoring case. */
  predicate LettersMatch(s: string, i: nat, w: string)
  {
    i + |w| <= |s| && forall k | 0 <= k < |w| :: SameLetter(s[i + k], w[k])
  }

  /** `\w` holds at index `k` (false outside the string). */
  predicate IsWordAt(s: string, k: int)
  {
    0 <= k < |s| && IsAsciiWordChar(s[k])
  }

  /** `\b` at position `i`, without the `u` flag. */
  predicate AsciiBoundary(s: string, i: nat)
  {
    IsWordAt(s, i - 1) != IsWordAt(s, i)
  }

  /** A letter in the sense the source's comment gives `\b`: Latin, digit, `_` or Cyrillic. */
  predicate IsLetter(c: char)
  {
    IsAsciiWordChar(c) || ('\U{0400}' <= c <= '\U{04FF}')
  }

  /** The word starts here: nothing or a non-letter precedes it. */
  predicate WordStart(s: string, i: nat)
  {
    i == 0 || (i <= |s| && !IsLetter(s[i - 1]))
  }

  /** Which boundary the pattern uses. */
  datatype Edition = AsWritten | Intended

  predicate BoundaryAt(e: Edition, s: string, i: nat)
  {
    match e
    case AsWritten => AsciiBoundary(s, i)
    case Intended => WordStart(s, i)
  }

  /**
   * The end of the match of `\b<w>\s+` at index `i`, if it matches there:
   * the word, then the whole run of whitespace after it.
   */
  function MatchAt(e: Edition, s: string, i: nat, w: string): (r: Option<nat>)
    requires i <= |s|
    ensures r.Some? ==> i + |w| < r.value <= |s|
    ensures r.Some? ==> forall k | i + |w| <= k < r.value :: IsJsSpace(s[k])
  {
    if BoundaryAt(e, s, i) && i + |w| < |s| && LettersMatch(s, i, w) && IsJsSpace(s[i + |w|]) then
      var rest := s[i + |w|..];
      var n := LeadingSpace(rest);
      assert forall k | i + |w| <= k < i + |w| + n :: s[k] == rest[k - (i + |w|)];
      Some(i + |w| + n)
    else None
  }

  /** What a match is replaced by: the dictionary word (as written) or the matched text (intended). */
  function Replacement(e: Edition, s: string, i: nat, w: string): string
    requires i + |w| <= |s|
  {
    match e
    case AsWritten => w + [NoBreakSpace]
    case Intended => s[i..i + |w|] + [NoBreakSpace]
  }

  /** `s.replace(/\b<w>\s+/gi, ...)` from index `i` on. */
  function ReplaceFrom(e: Edition, s: string, w: string, i: nat): (r: string)
    requires i <= |s|
    ensures |r| <= |s| - i
    decreases |s| - i
  {
    if i == |s| then []
    else
      match MatchAt(e, s, i, w)
      case Some(end) => Replacement(e, s, i, w) + ReplaceFrom(e, s, w, end)
      case None => [s[i]] + ReplaceFrom(e, s, w, i + 1)
  }

  function ReplaceHanging(e: Edition, s: string, w: string): string
  {
    ReplaceFrom(e, s, w, 0)
  }

  /** The replacements for the dictionary words `ws`, applied in order. */
  function FixAll(e: Edition, s: string, ws: seq<string>): string
    decreases |ws|, s
  {
    if ws == [] then s else FixAll(e, ReplaceHanging(e, s, ws[0]), ws[1..])
  }

  lemma FixAllStep(s: string, ws: seq<string>)
    requires ws != []
    ensures FixAll(Intended, s, ws) == FixAll(Intended, ReplaceHanging(Intended, s, ws[0]), ws[1..])
  {
  }

  /** Empty text stays empty, whichever words are replaced. */
  lemma {:induction false} FixAllOfEmpty(ws: seq<string>)
    ensures FixAll(Intended, [], ws) == []
    decreases |ws|
  {
    if ws != [] {
      FixAllOfEmpty(ws[1..]);
    }
  }

  /** `fixHangingWords(text)` as the source writes it. */
  function FixHangingAsWritten(text: string): string
  {
    FixAll(AsWritten, text, HangingWords)
  }

  /** `fixHangingWords(text)` with the intended word boundary. */
  function FixHanging(text: string): string
  {
    FixAll(Intended, text, HangingWords)
  }

  /**
   * `fixHangingWords` (canvas-server.js:151-171), with the intended word
   * boundary: the `forEach` over the dictionary, each step one global
   * replacement.  Empty text is returned unchanged.
   */
  method FixHangingWords(text: string) returns (result: string)
    ensures result == FixHanging(text)
    ensures Visible(result) == Visible(text)
    ensures |result| <= |text|
  {
    if text == [] {
      FixAllOfEmpty(HangingWords);
      return text;
    }
    var words := HangingWords;
    result := text;
    assert words[0..] == words;
    for j := 0 to |words|
      invariant FixAll(Intended, result, words[j..]) == FixHanging(text)
      invariant Visible(result) == Visible(text)
      invariant |result| <= |text|
    {
      FixAllStep(result, words[j..]);
      assert words[j..][1..] == words[j + 1..];
      IntendedKeepsVisible(result, words[j]);
      result := ReplaceHanging(Intended, result, words[j]);
    }
  }

  // ---- what the replacement keeps ----

  /** The text with all whitespace removed. */
  function Visible(s: string): string
  {
    if s == [] then [] else (if IsJsSpace(s[0]) then [] else [s[0]]) + Visible(s[1..])
  }

  lemma {:induction false} VisibleAppend(a: string, b: string)
    ensures Visible(a + b) == Visible(a) + Visible(b)
  {
    if a == [] {
      assert a + b == b;
    } else {
      assert (a + b)[1..] == a[1..] + b;
      VisibleAppend(a[1..], b);
    }
  }

  lemma {:induction false} VisibleOfSpaces(s: string)
    requires IsBlank(s)
    ensures Visible(s) == []
  {
    if s != [] {
      VisibleOfSpaces(s[1..]);
    }
  }

  /** With the intended replacement only whitespace changes: the visible text stays. */
  lemma {:induction false} ReplaceFromKeepsVisible(s: string, w: string, i: nat)
    requires i <= |s|
    ensures Visible(ReplaceFrom(Intended, s, w, i)) == Visible(s[i..])
    decreases |s| - i, 1
  {
    if i < |s| {
      match MatchAt(Intended, s, i, w)
      case Some(end) =>
        ReplaceFromMatch(s, w, i, end);
        MatchedSpacesInvisible(s, w, i, end);
        MatchKeepsVisible(s, w, i, end);
      case None =>
        SkipKeepsVisible(s, w, i);
    }
  }

  /** A match: the word stays, its whitespace becomes one no-break space. */
  lemma {:induction false} MatchKeepsVisible(s: string, w: string, i: nat, end: nat)
    requires i + |w| < end <= |s|
    requires ReplaceFrom(Intended, s, w, i) == s[i..i + |w|] + [NoBreakSpace] + ReplaceFrom(Intended, s, w, end)
    requires Visible(s[i + |w|..end]) == []
    ensures Visible(ReplaceFrom(Intended, s, w, i)) == Visible(s[i..])
    decreases |s| - i, 0
  {
    ReplaceFromKeepsVisible(s, w, end);
    SliceThree(s, i, i + |w|, end);
    SpacesToNoBreakSpace(s[i..i + |w|], s[i + |w|..end], s[end..], ReplaceFrom(Intended, s, w, end));
  }

  /** A match is replaced by the word as found and one no-break space. */
  lemma ReplaceFromMatch(s: string, w: string, i: nat, end: nat)
    requires i < |s| && MatchAt(Intended, s, i, w) == Some(end)
    ensures ReplaceFrom(Intended, s, w, i) == s[i..i + |w|] + [NoBreakSpace] + ReplaceFrom(Intended, s, w, end)
  {
  }

  /** The whitespace a match consumes is invisible. */
  lemma MatchedSpacesInvisible(s: string, w: string, i: nat, end: nat)
    requires i < |s| && MatchAt(Intended, s, i, w) == Some(end)
    ensures Visible(s[i + |w|..end]) == []
  {
    VisibleOfSpaces(s[i + |w|..end]);
  }

  /** Replacing an invisible middle by a no-break space, and the tail by one with the same visible text. */
  lemma SpacesToNoBreakSpace(a: string, b: string, c: string, r: string)
    requires Visible(b) == [] && Visible(r) == Visible(c)
    ensures Visible(a + [NoBreakSpace] + r) == Visible(a + b + c)
  {
    VisibleDropMiddle(a, b, c);
    NoBreakSpaceInvisible();
    VisibleDropMiddle(a, [NoBreakSpace], r);
  }

  lemma SliceThree(s: string, a: nat, b: nat, c: nat)
    requires a <= b <= c <= |s|
    ensures s[a..] == s[a..b] + s[b..c] + s[c..]
  {
  }

  lemma VisibleDropMiddle(a: string, b: string, c: string)
    requires Visible(b) == []
    ensures Visible(a + b + c) == Visible(a) + Visible(c)
  {
    VisibleAppend(a + b, c);
    VisibleAppend(a, b);
  }

  lemma NoBreakSpaceInvisible()
    ensures Visible([NoBreakSpace]) == []
  {
    assert IsJsSpace(NoBreakSpace);
    assert [NoBreakSpace][1..] == [];
  }

  /** No match: the character is copied. */
  lemma {:induction false} SkipKeepsVisible(s: string, w: string, i: nat)
    requires i < |s| && MatchAt(Intended, s, i, w) == None
    ensures Visible(ReplaceFrom(Intended, s, w, i)) == Visible(s[i..])
    decreases |s| - i, 0
  {
    var rest := ReplaceFrom(Intended, s, w, i + 1);
    ReplaceFromKeepsVisible(s, w, i + 1);
    assert ReplaceFrom(Intended, s, w, i) == [s[i]] + rest;
    assert s[i..] == [s[i]] + s[i + 1..];
    VisibleAppend([s[i]], s[i + 1..]);
    VisibleAppend([s[i]], rest);
  }

  lemma IntendedKeepsVisible(s: string, w: string)
    ensures Visible(ReplaceHanging(Intended, s, w)) == Visible(s)
    ensures |ReplaceHanging(Intended, s, w)| <= |s|
  {
    ReplaceFromKeepsVisible(s, w, 0);
    assert s[0..] == s;
  }

  // ---- where the two editions part ----

  /** A dictionary word never starts at an ASCII word character. */
  lemma CyrillicNotAscii(c: char, p: char)
    requires IsCyrillicSmall(p) && SameLetter(c, p)
    ensures !IsAsciiWordChar(c)
  {
  }

  /** As written, text without ASCII letters, digits and `_` has no `\b` in front of a dictionary word. */
  lemma {:induction false} AsWrittenFromUnchanged(s: string, w: string, i: nat)
    requires CyrillicWord(w)
    requires forall k | 0 <= k < |s| :: !IsAsciiWordChar(s[k])
    requires i <= |s|
    ensures ReplaceFrom(AsWritten, s, w, i) == s[i..]
    decreases |s| - i
  {
    if i < |s| {
      assert !IsWordAt(s, i - 1);
      assert MatchAt(AsWritten, s, i, w) == None by {
        if LettersMatch(s, i, w) {
          CyrillicNotAscii(s[i], w[0]);
        }
      }
      AsWrittenFromUnchanged(s, w, i + 1);
      assert s[i..] == [s[i]] + s[i + 1..];
    }
  }

  lemma DictionaryIsCyrillic()
    ensures forall j | 0 <= j < |HangingWords| :: CyrillicWord(HangingWords[j])
  {
  }

  lemma {:induction false} AsWrittenFixAllUnchanged(s: string, ws: seq<string>)
    requires forall j | 0 <= j < |ws| :: CyrillicWord(ws[j])
    requires forall k | 0 <= k < |s| :: !IsAsciiWordChar(s[k])
    ensures FixAll(AsWritten, s, ws) == s
    decreases |ws|
  {
    if ws != [] {
      AsWrittenFromUnchanged(s, ws[0], 0);
      assert s[0..] == s;
      AsWrittenFixAllUnchanged(s, ws[1..]);
    }
  }

  /**
   * As written, the processor changes nothing in text that holds no ASCII
   * letter, digit or `_`: ordinary Russian text keeps every breakable space.
   */
  lemma AsWrittenIgnoresCyrillicText(s: string)
    requires forall k | 0 <= k < |s| :: !IsAsciiWordChar(s[k])
    ensures FixHangingAsWritten(s) == s
  {
    DictionaryIsCyrillic();
    AsWrittenFixAllUnchanged(s, HangingWords);
  }

  /** The example: "в доме" keeps its ordinary space as written. */
  lemma AsWrittenExample()
    ensures FixHangingAsWritten("в доме") == "в доме"
  {
    AsWrittenIgnoresCyrillicText("в доме");
  }

  /**
   * As written, a capitalised dictionary word after an ASCII word character
   * is matched case-insensitively and put back in its lower-case dictionary
   * form: "xВ д" becomes "xв", a no-break space, then "д".
   */
  lemma AsWrittenLowercases()
    ensures StartsWith(ReplaceHanging(AsWritten, "x\U{0412} \U{0434}", "\U{0432}"), "x\U{0432}\U{00A0}")
  {
    var s := "x\U{0412} \U{0434}";
    var w := "\U{0432}";
    assert !SameLetter(s[0], w[0]);
    assert MatchAt(AsWritten, s, 0, w) == None;
    assert AsciiBoundary(s, 1) && LettersMatch(s, 1, w) && IsJsSpace(s[2]);
    assert LeadingSpace(s[2..]) == 1;
    assert MatchAt(AsWritten, s, 1, w) == Some(3);
    var r := ReplaceHanging(AsWritten, s, w);
    assert r == [s[0]] + (w + [NoBreakSpace]) + ReplaceFrom(AsWritten, s, w, 3);
    assert r[..3] == "x\U{0432}\U{00A0}";
  }

  /** With the intended boundary, a dictionary word at the start of the text is bound to the next word. */
  lemma IntendedBindsLeadingWord(w: string, t: string)
    requires CyrillicWord(w)
    ensures StartsWith(ReplaceHanging(Intended, w + " " + t, w), w + [NoBreakSpace])
  {
    var s := w + " " + t;
    assert LettersMatch(s, 0, w) by {
      forall k | 0 <= k < |w|
        ensures SameLetter(s[k], w[k])
      {
        assert s[k] == w[k];
      }
    }
    assert s[|w|] == ' ';
    var m := MatchAt(Intended, s, 0, w);
    assert m.Some?;
    assert s[0..|w|] == w;
    var r := ReplaceHanging(Intended, s, w);
    assert r == w + [NoBreakSpace] + ReplaceFrom(Intended, s, w, m.value);
    assert r[..|w| + 1] == w + [NoBreakSpace];
  }

  /** The example: "в доме" becomes "в" + no-break space + "доме". */
  lemma IntendedExample()
    ensures StartsWith(ReplaceHanging(Intended, "в доме", "в"), "в\U{00A0}")
  {
    assert "в доме" == "в" + " " + "доме";
    IntendedBindsLeadingWord("в", "доме");
  }
}
