/**
 * The inline tokenizer of canvas-server.js (`parseInline`): the regular
 * expression `(__\*\*.+?\*\*__|__.+?__|\*\*.+?\*\*|[^*_]+)` applied with the
 * global flag, each match classified into a style run, and adjacent runs of
 * the same style merged.
 *
 * The regular expression is modelled on suffixes of the input: `MatchLen(s)`
 * is the length of the match that starts at the first character of `s`, if
 * any; where no alternative matches, `exec` moves on one character, so a
 * stray `*` or `_` is skipped silently.
 */
module InlineTokens {
  import opened Common

  /** One styled span of text. */
  datatype Run = Run(text: string, bold: bool, underline: bool)

  predicate SameStyle(a: Run, b: Run)
  {
    a.bold == b.bold && a.underline == b.underline
  }

  /** Characters the regular-expression `.` does not match. */
  predicate IsLineTerminator(c: char)
  {
    c == '\n' || c == '\r' || c == '\U{2028}' || c == '\U{2029}'
  }

  predicate NoTerminator(s: string)
  {
    forall i | 0 <= i < |s| :: !IsLineTerminator(s[i])
  }

  predicate IsDelimiter(c: char)
  {
    c == '*' || c == '_'
  }

  predicate NoDelimiter(s: string)
  {
    forall i | 0 <= i < |s| :: !IsDelimiter(s[i])
  }

  /**
   * The lazy body `.+?` followed by `close`: the smallest body length m >= k
   * such that the body holds no line terminator and `close` follows it.
   */
  function LazyFrom(s: string, close: string, k: nat): (r: Option<nat>)
    requires 1 <= k
    requires k - 1 <= |s| && NoTerminator(s[..k - 1])
    ensures r.Some? ==> k <= r.value && OccursAt(s, close, r.value) && NoTerminator(s[..r.value])
    ensures r.Some? ==> forall t | k <= t < r.value :: !OccursAt(s, close, t)
    ensures r.None? ==> forall t | k <= t <= |s| :: !(OccursAt(s, close, t) && NoTerminator(s[..t]))
    decreases |s| - k
  {
    if k > |s| then None
    else if IsLineTerminator(s[k - 1]) then
      assert forall t | k <= t <= |s| :: s[..t][k - 1] == s[k - 1];
      None
    else
      assert s[..k] == s[..k - 1] + [s[k - 1]];
      if OccursAt(s, close, k) then Some(k)
      else LazyFrom(s, close, k + 1)
  }

  /** Length of the maximal prefix matched by `[^*_]+`. */
  function PlainLen(s: string): (n: nat)
    ensures n <= |s|
    ensures NoDelimiter(s[..n])
    ensures n < |s| ==> IsDelimiter(s[n])
  {
    if s == [] || IsDelimiter(s[0]) then 0
    else
      var n := PlainLen(s[1..]);
      assert s[..1 + n] == [s[0]] + s[1..][..n];
      1 + n
  }

  /** A chunk the first three alternatives produce: delimited, no line terminator. */
  predicate DelimitedChunk(c: string)
  {
    && NoTerminator(c)
    && ((StartsWith(c, "__") && EndsWith(c, "__")) || (StartsWith(c, "**") && EndsWith(c, "**")))
  }

  /** The alternative `open.+?close` at the start of `s`: the length of its match. */
  function Delimited(s: string, open: string, close: string): (r: Option<nat>)
    requires NoTerminator(open) && NoTerminator(close)
    ensures r.Some? ==> |open| + 1 + |close| <= r.value <= |s|
    ensures r.Some? ==> NoTerminator(s[..r.value])
    ensures r.Some? ==> s[..r.value] == open + s[|open|..r.value - |close|] + close
  {
    if !StartsWith(s, open) then None
    else
      match LazyFrom(s[|open|..], close, 1)
      case None => None
      case Some(m) =>
        var n := |open| + m + |close|;
        assert s[..n] == open + s[|open|..][..m] + close;
        assert s[|open|..n - |close|] == s[|open|..][..m];
        Some(n)
  }

  /** A match of one of the delimited alternatives is a delimited chunk. */
  lemma DelimitedIsChunk(s: string, open: string, close: string)
    requires NoTerminator(open) && NoTerminator(close)
    requires StartsWith(open, "__") || StartsWith(open, "**")
    requires |close| >= 2 && open[..2] == close[|close| - 2..]
    ensures Delimited(s, open, close).Some? ==> DelimitedChunk(s[..Delimited(s, open, close).value])
  {
    var r := Delimited(s, open, close);
    if r.Some? {
      DelimitedShape(s[..r.value], open, s[|open|..r.value - |close|], close);
    }
  }

  lemma DelimitedShape(c: string, open: string, mid: string, close: string)
    requires c == open + mid + close
    requires StartsWith(open, "__") || StartsWith(open, "**")
    requires |close| >= 2 && open[..2] == close[|close| - 2..]
    ensures StartsWith(c, open[..2]) && EndsWith(c, open[..2])
  {
    assert c[..2] == open[..2];
    assert c[|c| - 2..] == close[|close| - 2..];
  }

  /** Length of the regular-expression match at the start of `s`, alternatives tried in order. */
  function MatchLen(s: string): (r: Option<nat>)
    ensures r.Some? ==> 1 <= r.value <= |s|
    ensures r.Some? ==> DelimitedChunk(s[..r.value])
                        || (!IsDelimiter(s[0]) && NoDelimiter(s[..r.value]))
    ensures r.None? ==> s == [] || IsDelimiter(s[0])
  {
    var a1 := Delimited(s, "__**", "**__");
    if a1.Some? then
      DelimitedIsChunk(s, "__**", "**__");
      a1
    else
      var a2 := Delimited(s, "__", "__");
      if a2.Some? then
        DelimitedIsChunk(s, "__", "__");
        a2
      else
        var a3 := Delimited(s, "**", "**");
        if a3.Some? then
          DelimitedIsChunk(s, "**", "**");
          a3
        else if s != [] && !IsDelimiter(s[0]) then Some(PlainLen(s))
        else None
  }

  /** `t.slice(2, -2)` */
  function SliceInner(t: string): string
  {
    if |t| >= 4 then t[2..|t| - 2] else ""
  }

  /** How one matched chunk becomes a run (canvas-server.js:186-201). */
  function Classify(chunk: string): (r: Run)
    ensures DelimitedChunk(chunk) ==> (r.bold || r.underline) && NoTerminator(r.text)
    ensures NoDelimiter(chunk) ==> r == Run(chunk, false, false)
  {
    PlainOpensNothing(chunk);
    InnerKeepsNoTerminator(chunk);
    if StartsWith(chunk, "__") && EndsWith(chunk, "__") then
      var t := SliceInner(chunk);
      InnerKeepsNoTerminator(t);
      if StartsWith(t, "**") && EndsWith(t, "**") then Run(SliceInner(t), true, true)
      else Run(t, false, true)
    else if StartsWith(chunk, "**") && EndsWith(chunk, "**") then Run(SliceInner(chunk), true, false)
    else Run(chunk, false, false)
  }

  lemma InnerKeepsNoTerminator(t: string)
    ensures NoTerminator(t) ==> NoTerminator(SliceInner(t))
  {
    if NoTerminator(t) && |t| >= 4 {
      var u := SliceInner(t);
      assert forall i | 0 <= i < |u| :: u[i] == t[i + 2];
    }
  }

  lemma PlainOpensNothing(chunk: string)
    ensures NoDelimiter(chunk) ==> !StartsWith(chunk, "__") && !StartsWith(chunk, "**")
  {
    if NoDelimiter(chunk) && |chunk| >= 2 {
      assert !IsDelimiter(chunk[0]);
    }
  }

  /** What every scanned token satisfies. */
  predicate WellFormed(r: Run)
  {
    && r.text != ""
    && (!r.bold && !r.underline ==> NoDelimiter(r.text))
    && (r.bold || r.underline ==> NoTerminator(r.text))
  }

  /**
   * The tokens the `exec` loop collects (canvas-server.js:184-205): a match
   * whose inner text is empty is dropped, positions no alternative matches are
   * skipped.  Every token has text; a plain token contains no `*` or `_`; a
   * styled token holds no line break, since `.` does not match one.
   */
  function Scan(s: string): (r: seq<Run>)
    ensures forall i | 0 <= i < |r| :: WellFormed(r[i])
    decreases |s|
  {
    if s == [] then []
    else
      match MatchLen(s)
      case None => Scan(s[1..])
      case Some(n) =>
        var run := Classify(s[..n]);
        (if run.text == "" then [] else [run]) + Scan(s[n..])
  }

  lemma ScanStep(s: string)
    requires s != []
    ensures MatchLen(s).None? ==> Scan(s) == Scan(s[1..])
    ensures MatchLen(s).Some? && Classify(s[..MatchLen(s).value]).text == "" ==>
              Scan(s) == Scan(s[MatchLen(s).value..])
    ensures MatchLen(s).Some? && Classify(s[..MatchLen(s).value]).text != "" ==>
              Scan(s) == [Classify(s[..MatchLen(s).value])] + Scan(s[MatchLen(s).value..])
  {
  }

  /** The merge step applied to one more token (canvas-server.js:209-216). */
  function Absorb(m: seq<Run>, t: Run): seq<Run>
  {
    if m != [] && SameStyle(m[|m| - 1], t) then
      m[..|m| - 1] + [m[|m| - 1].(text := m[|m| - 1].text + t.text)]
    else m + [t]
  }

  /** Merging a whole token list, left to right. */
  function Merged(ts: seq<Run>): seq<Run>
  {
    if ts == [] then [] else Absorb(Merged(ts[..|ts| - 1]), ts[|ts| - 1])
  }

  function Texts(rs: seq<Run>): seq<string>
  {
    seq(|rs|, i requires 0 <= i < |rs| => rs[i].text)
  }

  /** No two neighbouring runs share a style. */
  predicate NoAdjacentSameStyle(rs: seq<Run>)
  {
    forall i | 0 <= i < |rs| - 1 :: !SameStyle(rs[i], rs[i + 1])
  }

  lemma ConcatSnoc(ss: seq<string>, x: string)
    ensures Concat(ss + [x]) == Concat(ss) + x
  {
    if ss != [] {
      assert (ss + [x])[1..] == ss[1..] + [x];
      ConcatSnoc(ss[1..], x);
    }
  }

  /** Merging never leaves two neighbouring runs with the same style. */
  lemma {:induction false} MergedAlternates(ts: seq<Run>)
    ensures NoAdjacentSameStyle(Merged(ts))
  {
    if ts != [] {
      MergedAlternates(ts[..|ts| - 1]);
    }
  }

  /** Merging keeps the text: concatenating the output equals concatenating the input. */
  lemma {:induction false} MergedKeepsText(ts: seq<Run>)
    ensures Concat(Texts(Merged(ts))) == Concat(Texts(ts))
  {
    if ts != [] {
      var init, t := ts[..|ts| - 1], ts[|ts| - 1];
      assert ts == init + [t];
      MergedKeepsText(init);
      AbsorbKeepsText(Merged(init), t);
      TextsSnoc(init, t);
      ConcatSnoc(Texts(init), t.text);
    }
  }

  lemma TextsSnoc(init: seq<Run>, t: Run)
    ensures Texts(init + [t]) == Texts(init) + [t.text]
  {
  }

  /** Absorbing a token appends its text. */
  lemma AbsorbKeepsText(m: seq<Run>, t: Run)
    ensures Concat(Texts(Absorb(m, t))) == Concat(Texts(m)) + t.text
  {
    if m != [] && SameStyle(m[|m| - 1], t) {
      var last := m[|m| - 1];
      TextsSnoc(m[..|m| - 1], last);
      assert m[..|m| - 1] + [last] == m;
      ConcatSnoc(Texts(m[..|m| - 1]), last.text);
      TextsSnoc(m[..|m| - 1], last.(text := last.text + t.text));
      ConcatSnoc(Texts(m[..|m| - 1]), last.text + t.text);
    } else {
      TextsSnoc(m, t);
      ConcatSnoc(Texts(m), t.text);
    }
  }

  /**
   * The `exec` loop of `parseInline` (canvas-server.js:184-205): the tokens,
   * in order.  `rest` is the input from the regular expression's `lastIndex` on.
   */
  method ScanTokens(raw: string) returns (tokens: seq<Run>)
    ensures tokens == Scan(raw)
  {
    tokens := [];
    var rest := raw;
    while rest != []
      invariant tokens + Scan(rest) == Scan(raw)
      decreases |rest|
    {
      var m := MatchLen(rest);
      ScanStep(rest);
      if m.None? {
        assert Scan(rest) == Scan(rest[1..]);
        rest := rest[1..];
      } else {
        var n := m.value;
        var run := Classify(rest[..n]);
        if run.text != "" {
          assert Scan(rest) == [run] + Scan(rest[n..]);
          RunsAssoc(tokens, run, Scan(rest[n..]));
          tokens := tokens + [run];
        } else {
          assert Scan(rest) == Scan(rest[n..]);
        }
        rest := rest[n..];
      }
    }
  }

  lemma RunsAssoc(a: seq<Run>, r: Run, b: seq<Run>)
    ensures a + ([r] + b) == (a + [r]) + b
  {
  }

  /**
   * `parseInline(raw)` (canvas-server.js:179-218): scan, then merge
   * neighbouring tokens of one style.  The result is the merge of the scanned
   * tokens; neighbouring runs differ in style and the text is that of the
   * scanned tokens.
   */
  method ParseInline(raw: string) returns (merged: seq<Run>)
    ensures merged == Merged(Scan(raw))
    ensures NoAdjacentSameStyle(merged)
    ensures Concat(Texts(merged)) == Concat(Texts(Scan(raw)))
  {
    var tokens := ScanTokens(raw);
    merged := [];
    var i := 0;
    while i < |tokens|
      invariant 0 <= i <= |tokens|
      invariant merged == Merged(tokens[..i])
    {
      var t := tokens[i];
      MergedStep(tokens, i);
      if merged != [] && SameStyle(merged[|merged| - 1], t) {
        var last := merged[|merged| - 1];
        merged := merged[..|merged| - 1] + [last.(text := last.text + t.text)];
      } else {
        merged := merged + [t];
      }
      i := i + 1;
    }
    assert tokens[..i] == tokens;
    MergedAlternates(tokens);
    MergedKeepsText(tokens);
  }

  lemma MergedStep(tokens: seq<Run>, i: nat)
    requires i < |tokens|
    ensures Merged(tokens[..i + 1]) == Absorb(Merged(tokens[..i]), tokens[i])
  {
    assert tokens[..i + 1][..i] == tokens[..i];
  }

  // ---- what the grammar gives for the documented forms ----

  lemma LazyFindsFirst(s: string, close: string, m: nat)
    requires 1 <= m && OccursAt(s, close, m) && NoTerminator(s[..m])
    requires forall t | 1 <= t < m :: !OccursAt(s, close, t)
    ensures LazyFrom(s, close, 1) == Some(m)
  {
    assert OccursAt(s, close, m) && NoTerminator(s[..m]);
  }

  lemma LazyFails(s: string, close: string)
    requires forall t | 1 <= t <= |s| :: !OccursAt(s, close, t)
    ensures LazyFrom(s, close, 1) == None
  {
  }

  /** Text without delimiters and line breaks. */
  predicate PlainWord(x: string)
  {
    x != [] && NoDelimiter(x) && NoTerminator(x)
  }

  lemma NoCloseInside(x: string, close: string)
    requires NoDelimiter(x) && |close| == 2 && IsDelimiter(close[0]) && IsDelimiter(close[1])
    ensures forall t | 1 <= t < |x| :: !OccursAt(x + close, close, t)
    ensures OccursAt(x + close, close, |x|)
  {
    forall t | 1 <= t < |x|
      ensures !OccursAt(x + close, close, t)
    {
      assert (x + close)[t] == x[t];
    }
    assert (x + close)[|x|..] == close;
  }

  /** `__x__` gives one underlined run. */
  lemma UnderlineForm(x: string)
    requires PlainWord(x)
    ensures Scan("__" + x + "__") == [Run(x, false, true)]
  {
    UnderlineMatch(x);
    UnderlineClass(x);
    ScanWhole("__" + x + "__");
  }

  lemma UnderlineMatch(x: string)
    requires PlainWord(x)
    ensures MatchLen("__" + x + "__") == Some(|x| + 4)
  {
    var s := "__" + x + "__";
    assert !StartsWith(s, "__**") by { assert s[2] == x[0]; }
    NoCloseInside(x, "__");
    DelimitedWhole("__", x, "__");
  }

  lemma UnderlineClass(x: string)
    requires PlainWord(x)
    ensures Classify("__" + x + "__") == Run(x, false, true)
  {
    var s := "__" + x + "__";
    assert s[..2] == "__" && s[|s| - 2..] == "__";
    assert SliceInner(s) == x;
    assert !StartsWith(x, "**") by { assert !IsDelimiter(x[0]); }
  }

  /** `**x**` gives one bold run. */
  lemma BoldForm(x: string)
    requires PlainWord(x)
    ensures Scan("**" + x + "**") == [Run(x, true, false)]
  {
    BoldMatch(x);
    assert SliceInner("**" + x + "**") == x;
    ScanWhole("**" + x + "**");
  }

  lemma BoldMatch(x: string)
    requires PlainWord(x)
    ensures MatchLen("**" + x + "**") == Some(|x| + 4)
  {
    var s := "**" + x + "**";
    assert !StartsWith(s, "__") by { assert s[0] == '*'; }
    NoCloseInside(x, "**");
    DelimitedWhole("**", x, "**");
  }

  /** A match that covers the whole input gives at most one run. */
  lemma ScanWhole(s: string)
    requires s != [] && MatchLen(s) == Some(|s|)
    ensures Scan(s) == if Classify(s).text == "" then [] else [Classify(s)]
  {
    assert s[..|s|] == s;
    assert s[|s|..] == [];
  }

  /** `open x close` is matched whole by its alternative when `close` first follows at the end. */
  lemma DelimitedWhole(open: string, x: string, close: string)
    requires NoTerminator(open) && NoTerminator(close) && x != [] && NoTerminator(x)
    requires forall t | 1 <= t < |x| :: !OccursAt(x + close, close, t)
    ensures Delimited(open + x + close, open, close) == Some(|open| + |x| + |close|)
  {
    var s := open + x + close;
    assert s[..|open|] == open;
    assert s[|open|..] == x + close;
    assert (x + close)[..|x|] == x;
    assert (x + close)[|x|..] == close;
    LazyFindsFirst(x + close, close, |x|);
  }

  /** `__**x**__` gives one bold and underlined run. */
  lemma BoldUnderlineForm(x: string)
    requires PlainWord(x)
    ensures Scan("__**" + x + "**__") == [Run(x, true, true)]
  {
    BoldUnderlineMatch(x);
    BoldUnderlineClass(x);
    ScanWhole("__**" + x + "**__");
  }

  lemma BoldUnderlineClass(x: string)
    requires PlainWord(x)
    ensures Classify("__**" + x + "**__") == Run(x, true, true)
  {
    Wrapped("__", "**" + x + "**");
    Wrapped("**", x);
    assert "__" + ("**" + x + "**") + "__" == "__**" + x + "**__";
  }

  /** `open + x + open` starts and ends with `open`, and its inner slice is `x`. */
  lemma Wrapped(open: string, x: string)
    requires |open| == 2
    ensures StartsWith(open + x + open, open) && EndsWith(open + x + open, open)
    ensures SliceInner(open + x + open) == x
  {
    var s := open + x + open;
    assert s[..2] == open && s[|s| - 2..] == open;
    assert s[2..|s| - 2] == x;
  }

  lemma BoldUnderlineMatch(x: string)
    requires PlainWord(x)
    ensures MatchLen("__**" + x + "**__") == Some(|x| + 8)
  {
    forall t | 1 <= t < |x|
      ensures !OccursAt(x + "**__", "**__", t)
    {
      assert (x + "**__")[t] == x[t];
    }
    DelimitedWhole("__**", x, "**__");
  }

  /** `**__x__**` is bold only: the underscores stay in the text. */
  lemma BoldOutsideUnderlineForm(x: string)
    requires PlainWord(x)
    ensures Scan("**__" + x + "__**") == [Run("__" + x + "__", true, false)]
  {
    BoldOutsideMatch(x);
    BoldOutsideClass(x);
    ScanWhole("**__" + x + "__**");
  }

  lemma BoldOutsideClass(x: string)
    requires PlainWord(x)
    ensures Classify("**__" + x + "__**") == Run("__" + x + "__", true, false)
  {
    var s := "**__" + x + "__**";
    assert s[0] == '*';
    assert s[..2] == "**" && s[|s| - 2..] == "**";
    assert SliceInner(s) == "__" + x + "__";
  }

  lemma BoldOutsideMatch(x: string)
    requires PlainWord(x)
    ensures MatchLen("**__" + x + "__**") == Some(|x| + 8)
  {
    var y := "__" + x + "__";
    UnderlinedNoStarClose(x);
    UnderlinedNoTerminator(x);
    DelimitedWhole("**", y, "**");
    assert "**" + y + "**" == "**__" + x + "__**";
    assert !StartsWith("**__" + x + "__**", "__");
  }

  lemma UnderlinedNoStarClose(x: string)
    requires PlainWord(x)
    ensures forall t | 1 <= t < |x| + 4 :: !OccursAt("__" + x + "__" + "**", "**", t)
  {
    var z := "__" + x + "__" + "**";
    forall t | 1 <= t < |x| + 4
      ensures !OccursAt(z, "**", t)
    {
      if 2 <= t < 2 + |x| {
        assert z[t] == x[t - 2];
      } else {
        assert z[t] == '_';
      }
    }
  }

  lemma UnderlinedNoTerminator(x: string)
    requires PlainWord(x)
    ensures NoTerminator("__" + x + "__")
  {
    var y := "__" + x + "__";
    forall k | 0 <= k < |y|
      ensures !IsLineTerminator(y[k])
    {
      if 2 <= k < 2 + |x| {
        assert y[k] == x[k - 2];
      }
    }
  }

  /** A lone delimiter that opens no pair is skipped without trace. */
  lemma StrayDelimiterSkipped(c: char, x: string)
    requires IsDelimiter(c)
    requires NoDelimiter(x)
    ensures Scan([c] + x) == Scan(x)
  {
    var s := [c] + x;
    assert s[1..] == x;
    assert !StartsWith(s, "__") && !StartsWith(s, "**") by {
      assert |s| < 2 || !IsDelimiter(s[1]);
    }
    assert MatchLen(s) == None;
  }

  /** A delimited pair whose inner text is empty produces no run. */
  lemma EmptyInnerDropped()
    ensures Scan("__****__") == []
  {
    EmptyInnerMatch();
    EmptyInnerClass();
    ScanWhole("__****__");
  }

  /** The bold-underline alternative needs a character inside, so the underline one matches. */
  lemma EmptyInnerMatch()
    ensures MatchLen("__****__") == Some(8)
  {
    EmptyInnerNotBoldUnderline();
    EmptyInnerUnderline();
  }

  lemma EmptyInnerNotBoldUnderline()
    ensures Delimited("__****__", "__**", "**__") == None
  {
    var s := "__****__";
    assert s[..4] == "__**";
    assert s[4..] == "**__";
    LazyFails(s[4..], "**__");
  }

  lemma EmptyInnerUnderline()
    ensures Delimited("__****__", "__", "__") == Some(8)
  {
    var s := "__****__";
    var body := s[2..];
    assert s[..2] == "__";
    assert body == "****__";
    forall t | 1 <= t < 4
      ensures !OccursAt(body, "__", t)
    {
      assert body[t..t + 2][0] == body[t] == '*';
    }
    assert body[4..6] == "__";
    LazyFindsFirst(body, "__", 4);
  }

  lemma EmptyInnerClass()
    ensures Classify("__****__").text == ""
  {
    var s := "__****__";
    assert s[..2] == "__" && s[6..] == "__";
    assert SliceInner(s) == "****";
    assert "****"[..2] == "**" && "****"[2..] == "**";
    assert SliceInner("****") == "";
  }
}
