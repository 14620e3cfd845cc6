/**
 * `intelligentTextWrap` of corrected-server.js; its caller `processSlideText`
 * is the SlideText module.
 *
 * The wrap replaces every match of thirteen "keep together" patterns by a
 * placeholder `__TOKEN<i>_<n>__` that contains no whitespace, splits the text
 * on whitespace runs, fills lines greedily by character count, joins them
 * with newlines and finally replaces each placeholder, in the order they
 * were made, by the text it stood for.
 */
module SmartWrap {
  import opened Common
  import Typography

  // ---- the keep-together patterns ----

  /** The pieces the thirteen regular expressions are built from. */
  datatype Atom =
    | Digits          // \d+
    | WordChars       // \w+ (ASCII only)
    | Spaces          // \s+
    | OptSpaces       // \s*
    | Lit(w: string)  // a literal
    | Alt(ws: seq<string>)  // (w1|w2|...), tried in order

  /** A pattern and whether it carries the `i` flag. */
  datatype Pattern = Pattern(atoms: seq<Atom>, ci: bool)

  const DurationUnits: seq<string> := ["час", "часа", "часов", "минут", "минуты", "секунд", "секунды", "дня", "дней",
                                       "недель", "недели", "месяцев", "месяца", "лет", "года", "годов"]

  /** The patterns of corrected-server.js:15-29, in order. */
  const KeepTogether: seq<Pattern> := [
    Pattern([Digits, OptSpaces, Alt(DurationUnits)], true),
    Pattern([Digits, Lit("%")], false),
    Pattern([Digits, Lit("/"), Digits], false),
    Pattern([Lit("без"), Spaces, Lit("пропорционального")], true),
    Pattern([Lit("роста"), Spaces, Lit("штата")], true),
    Pattern([Lit("масштабирование"), Spaces, Lit("без")], true),
    Pattern([Lit("пропорционального"), Spaces, Lit("роста")], true),
    Pattern([WordChars, Spaces, Lit("практики")], true),
    Pattern([WordChars, Spaces, Lit("стратегии")], true),
    Pattern([WordChars, Spaces, Lit("качества")], true),
    Pattern([Lit("автоматизация"), Spaces, WordChars], true),
    Pattern([Lit("качественные"), Spaces, WordChars], true),
    Pattern([Lit("эффективные"), Spaces, WordChars], true)
  ]

  /** A pattern whose first piece always consumes a character, so no match is empty. */
  predicate NonEmptyStart(p: Pattern)
  {
    p.atoms != [] && match p.atoms[0]
      case Digits => true
      case WordChars => true
      case Spaces => true
      case OptSpaces => false
      case Lit(w) => w != []
      case Alt(ws) => forall j | 0 <= j < |ws| :: ws[j] != []
  }

  predicate InRun(a: Atom, c: char)
  {
    match a
    case Digits => IsDigit(c)
    case WordChars => IsAsciiWordChar(c)
    case _ => IsJsSpace(c)
  }

  /** The length of the longest run of `a`'s characters at `p`. */
  function RunLength(s: string, p: nat, a: Atom): (n: nat)
    requires p <= |s|
    ensures p + n <= |s|
    decreases |s| - p
  {
    if p == |s| || !InRun(a, s[p]) then 0 else 1 + RunLength(s, p + 1, a)
  }

  /** `w` at `p`, comparing case-insensitively when `ci`. */
  predicate LitAt(s: string, p: nat, w: string, ci: bool)
    requires p <= |s|
    ensures LitAt(s, p, w, ci) ==> p + |w| <= |s|
    decreases |w|
  {
    w == [] || (p < |s| && (if ci then Typography.SameLetter(s[p], w[0]) else s[p] == w[0]) && LitAt(s, p + 1, w[1..], ci))
  }

  /**
   * Where a match of `atoms` starting at `p` ends.  Runs are taken whole:
   * in every pattern above a run is followed by a piece that cannot start
   * with a character of the run, so backtracking into it never helps.
   */
  function MatchAtoms(s: string, p: nat, atoms: seq<Atom>, ci: bool): (r: Option<nat>)
    requires p <= |s|
    ensures r.Some? ==> p <= r.value <= |s|
    decreases |atoms|, 0
  {
    if atoms == [] then Some(p)
    else match atoms[0]
      case Lit(w) => if LitAt(s, p, w, ci) then MatchAtoms(s, p + |w|, atoms[1..], ci) else None
      case Alt(ws) => MatchAlt(s, p, ws, 0, atoms[1..], ci)
      case _ =>
        var n := RunLength(s, p, atoms[0]);
        if n == 0 && atoms[0] != OptSpaces then None else MatchAtoms(s, p + n, atoms[1..], ci)
  }

  /** The alternatives from the `j`-th on, the first whose continuation matches. */
  function MatchAlt(s: string, p: nat, ws: seq<string>, j: nat, rest: seq<Atom>, ci: bool): (r: Option<nat>)
    requires p <= |s|
    ensures r.Some? ==> p <= r.value <= |s|
    decreases |rest|, 1, |ws| - j
  {
    if j >= |ws| then None
    else if LitAt(s, p, ws[j], ci) && MatchAtoms(s, p + |ws[j]|, rest, ci).Some? then MatchAtoms(s, p + |ws[j]|, rest, ci)
    else MatchAlt(s, p, ws, j + 1, rest, ci)
  }

  /** The leftmost match at or after `from`, as (start, end). */
  function FindFrom(s: string, from: nat, pat: Pattern): (r: Option<(nat, nat)>)
    requires from <= |s|
    ensures r.Some? ==> from <= r.value.0 <= r.value.1 <= |s|
    ensures r.Some? ==> MatchAtoms(s, r.value.0, pat.atoms, pat.ci) == Some(r.value.1)
    decreases |s| - from
  {
    match MatchAtoms(s, from, pat.atoms, pat.ci)
    case Some(e) => Some((from, e))
    case None => if from == |s| then None else FindFrom(s, from + 1, pat)
  }

  /** The match found is the leftmost one, and none is found only when there is none. */
  lemma {:induction false} FindFromLeftmost(s: string, from: nat, pat: Pattern)
    requires from <= |s|
    ensures FindFrom(s, from, pat).Some? ==>
              forall q | from <= q < FindFrom(s, from, pat).value.0 :: MatchAtoms(s, q, pat.atoms, pat.ci).None?
    ensures FindFrom(s, from, pat).None? ==> forall q | from <= q <= |s| :: MatchAtoms(s, q, pat.atoms, pat.ci).None?
    decreases |s| - from
  {
    if MatchAtoms(s, from, pat.atoms, pat.ci).None? && from < |s| {
      FindFromLeftmost(s, from + 1, pat);
    }
  }

  lemma NonEmptyMatch(s: string, p: nat, pat: Pattern)
    requires p <= |s| && NonEmptyStart(pat) && MatchAtoms(s, p, pat.atoms, pat.ci).Some?
    ensures MatchAtoms(s, p, pat.atoms, pat.ci).value > p
  {
    var rest := pat.atoms[1..];
    match pat.atoms[0]
    case Alt(ws) => AltConsumes(s, p, ws, 0, rest, pat.ci);
    case _ =>
  }

  lemma {:induction false} AltConsumes(s: string, p: nat, ws: seq<string>, j: nat, rest: seq<Atom>, ci: bool)
    requires p <= |s| && forall i | 0 <= i < |ws| :: ws[i] != []
    requires MatchAlt(s, p, ws, j, rest, ci).Some?
    ensures MatchAlt(s, p, ws, j, rest, ci).value > p
    decreases |ws| - j
  {
    if !(LitAt(s, p, ws[j], ci) && MatchAtoms(s, p + |ws[j]|, rest, ci).Some?) {
      AltConsumes(s, p, ws, j + 1, rest, ci);
    }
  }

  // ---- placeholders ----

  /** A protected match: its placeholder and the text it stands for. */
  datatype Saved = Saved(token: string, text: string)

  /** `__TOKEN${index}_${tokens.length}__` */
  function Placeholder(index: nat, n: nat): string
  {
    "__TOKEN" + NatToString(index) + "_" + NatToString(n) + "__"
  }

  /**
   * `s.replace(pattern, match => placeholder)` from `from` on, where `made`
   * placeholders exist already: the rewritten rest and the protected matches.
   */
  function ReplaceFrom(s: string, from: nat, pat: Pattern, index: nat, made: nat): (r: (string, seq<Saved>))
    requires from <= |s| && NonEmptyStart(pat)
    decreases |s| - from
  {
    match FindFrom(s, from, pat)
    case None => (s[from..], [])
    case Some((q, e)) =>
      NonEmptyMatch(s, q, pat);
      var tok := Placeholder(index, made);
      var rest := ReplaceFrom(s, e, pat, index, made + 1);
      (s[from..q] + tok + rest.0, [Saved(tok, s[q..e])] + rest.1)
  }

  lemma AllNonEmptyStart()
    ensures forall i | 0 <= i < |KeepTogether| :: NonEmptyStart(KeepTogether[i])
  {
  }

  /** The text and the saved matches after the first `k` patterns. */
  function Protected(s: string, k: nat): (string, seq<Saved>)
    requires k <= |KeepTogether|
  {
    if k == 0 then (s, [])
    else
      var prev := Protected(s, k - 1);
      AllNonEmptyStart();
      var step := ReplaceFrom(prev.0, 0, KeepTogether[k - 1], k - 1, |prev.1|);
      (step.0, prev.1 + step.1)
  }

  // ---- splitting and filling ----

  predicate NoSpace(w: string)
  {
    forall k | 0 <= k < |w| :: !IsJsSpace(w[k])
  }

  /** `s.split(/\s+/)`: a leading or trailing whitespace run gives an empty first or last piece. */
  function SplitWs(s: string): (r: seq<string>)
    ensures |r| >= 1
    ensures forall i | 0 <= i < |r| :: NoSpace(r[i])
    decreases |s|
  {
    if s == [] then [""]
    else if IsJsSpace(s[0]) then [""] + SplitWs(s[LeadingSpace(s)..])
    else
      var rest := SplitWs(s[1..]);
      [[s[0]] + rest[0]] + rest[1..]
  }

  /** `currentLine ? `${currentLine} ${word}` : word` */
  function Extend(cur: string, w: string): string
  {
    if cur != "" then cur + " " + w else w
  }

  /** The finished lines and `currentLine` after the first `k` words. */
  /** One word of the greedy loop on the state (lines so far, current line). */
  function FillStep(st: (seq<string>, string), w: string, maxWidth: int): (seq<string>, string)
  {
    var test := Extend(st.1, w);
    if |test| <= maxWidth || st.1 == "" then (st.0, test) else (st.0 + [st.1], w)
  }

  function FillTo(words: seq<string>, k: nat, maxWidth: int): (st: (seq<string>, string))
    requires k <= |words|
  {
    if k == 0 then ([], "") else FillStep(FillTo(words, k - 1, maxWidth), words[k - 1], maxWidth)
  }

  /** The lines of a state, with the current line pushed when it is not empty. */
  function Lines(st: (seq<string>, string)): seq<string>
  {
    if st.1 != "" then st.0 + [st.1] else st.0
  }

  function Fill(words: seq<string>, maxWidth: int): seq<string>
  {
    Lines(FillTo(words, |words|, maxWidth))
  }

  // ---- restoring ----

  /** `s.replace(new RegExp(tok, 'g'), with)`; a placeholder holds no regular-expression syntax. */
  function ReplaceAll(s: string, tok: string, with: string): string
    requires tok != []
    decreases |s|
  {
    if |s| < |tok| then s
    else if s[..|tok|] == tok then with + ReplaceAll(s[|tok|..], tok, with)
    else [s[0]] + ReplaceAll(s[1..], tok, with)
  }

  lemma PlaceholderShape(index: nat, n: nat)
    ensures |Placeholder(index, n)| >= 11 && Placeholder(index, n)[..7] == "__TOKEN"
    ensures NoSpace(Placeholder(index, n))
  {
    var p := Placeholder(index, n);
    var a, b := NatToString(index), NatToString(n);
    assert p == "__TOKEN" + a + "_" + b + "__";
    forall k | 0 <= k < |p|
      ensures !IsJsSpace(p[k])
    {
      if 7 <= k < 7 + |a| {
        assert p[k] == a[k - 7];
      } else if 7 + |a| + 1 <= k < 7 + |a| + 1 + |b| {
        assert p[k] == b[k - 8 - |a|];
      }
    }
  }

  /** The result after restoring the first `k` saved matches, in the order they were made. */
  function RestoredTo(s: string, saved: seq<Saved>, k: nat): string
    requires k <= |saved| && forall i | 0 <= i < |saved| :: saved[i].token != []
  {
    if k == 0 then s else ReplaceAll(RestoredTo(s, saved, k - 1), saved[k - 1].token, saved[k - 1].text)
  }

  /** `intelligentTextWrap(text, maxWidth)` as written. */
  function WrapAsWritten(text: string, maxWidth: int): string
  {
    if text == "" || |text| <= maxWidth then text
    else
      var prot := Protected(text, |KeepTogether|);
      SavedTokens(text, |KeepTogether|);
      RestoredTo(Join(Fill(SplitWs(prot.0), maxWidth), "\n"), prot.1, |prot.1|)
  }

  /** Every saved match carries a placeholder. */
  lemma {:induction false} SavedTokens(s: string, k: nat)
    requires k <= |KeepTogether|
    ensures forall i | 0 <= i < |Protected(s, k).1| :: Protected(s, k).1[i].token != []
  {
    if k > 0 {
      SavedTokens(s, k - 1);
      AllNonEmptyStart();
      var prev := Protected(s, k - 1);
      ReplaceFromTokens(prev.0, 0, KeepTogether[k - 1], k - 1, |prev.1|);
    }
  }

  lemma {:induction false} ReplaceFromTokens(s: string, from: nat, pat: Pattern, index: nat, made: nat)
    requires from <= |s| && NonEmptyStart(pat)
    ensures forall i | 0 <= i < |ReplaceFrom(s, from, pat, index, made).1| ::
              ReplaceFrom(s, from, pat, index, made).1[i].token != []
    decreases |s| - from
  {
    match FindFrom(s, from, pat)
    case None =>
    case Some((q, e)) =>
      NonEmptyMatch(s, q, pat);
      PlaceholderShape(index, made);
      ReplaceFromTokens(s, e, pat, index, made + 1);
  }

  /** The first loop of `intelligentTextWrap`: every pattern in turn replaces its matches by placeholders. */
  method ProtectPhrases(text: string) returns (processed: string, tokens: seq<Saved>)
    ensures (processed, tokens) == Protected(text, |KeepTogether|)
  {
    processed, tokens := text, [];
    AllNonEmptyStart();
    for index := 0 to |KeepTogether|
      invariant (processed, tokens) == Protected(text, index)
    {
      var step := ReplaceFrom(processed, 0, KeepTogether[index], index, |tokens|);
      processed, tokens := step.0, tokens + step.1;
    }
  }

  /** The greedy loop: a word joins the current line while the line stays within `maxWidth`. */
  method FillLines(words: seq<string>, maxWidth: int) returns (lines: seq<string>)
    ensures lines == Fill(words, maxWidth)
  {
    var current := "";
    lines := [];
    for k := 0 to |words|
      invariant (lines, current) == FillTo(words, k, maxWidth)
    {
      var word := words[k];
      var test := if current != "" then current + " " + word else word;
      if |test| <= maxWidth || current == "" {
        current := test;
      } else {
        lines, current := lines + [current], word;
      }
    }
    if current != "" {
      lines := lines + [current];
    }
  }

  /** The last loop: each placeholder, in the order it was made, becomes its phrase again. */
  method RestorePhrases(s: string, tokens: seq<Saved>) returns (r: string)
    requires forall i | 0 <= i < |tokens| :: tokens[i].token != []
    ensures r == RestoredTo(s, tokens, |tokens|)
  {
    r := s;
    for j := 0 to |tokens|
      invariant r == RestoredTo(s, tokens, j)
    {
      r := ReplaceAll(r, tokens[j].token, tokens[j].text);
    }
  }

  /** `intelligentTextWrap(text, maxWidth)`: protect, split, fill, join, restore. */
  method IntelligentTextWrap(text: string, maxWidth: int) returns (r: string)
    ensures r == WrapAsWritten(text, maxWidth)
    ensures text == "" || |text| <= maxWidth ==> r == text
  {
    if text == "" || |text| <= maxWidth {
      return text;
    }
    var processed, tokens := ProtectPhrases(text);
    var lines := FillLines(SplitWs(processed), maxWidth);
    SavedTokens(text, |KeepTogether|);
    r := RestorePhrases(Join(lines, "\n"), tokens);
  }

  // ---- what the filling promises ----

  /** A line is within the width, or it is one word that alone is wider. */
  predicate LineFits(line: string, words: seq<string>, maxWidth: int)
  {
    |line| <= maxWidth || line in words
  }

  predicate StateFits(st: (seq<string>, string), words: seq<string>, maxWidth: int)
  {
    (forall i | 0 <= i < |st.0| :: LineFits(st.0[i], words, maxWidth)) && LineFits(st.1, words, maxWidth)
  }

  lemma FillStepFits(st: (seq<string>, string), w: string, words: seq<string>, maxWidth: int)
    requires StateFits(st, words, maxWidth) && w in words
    ensures StateFits(FillStep(st, w, maxWidth), words, maxWidth)
  {
  }

  lemma {:induction false} FillToFits(words: seq<string>, k: nat, maxWidth: int)
    requires k <= |words| && maxWidth >= 0
    ensures StateFits(FillTo(words, k, maxWidth), words, maxWidth)
  {
    if k > 0 {
      FillToFits(words, k - 1, maxWidth);
      FillStepFits(FillTo(words, k - 1, maxWidth), words[k - 1], words, maxWidth);
    }
  }

  /** Every line is at most `maxWidth` characters long unless it is a single word. */
  lemma FillFits(words: seq<string>, maxWidth: int)
    requires maxWidth >= 0
    ensures forall i | 0 <= i < |Fill(words, maxWidth)| :: LineFits(Fill(words, maxWidth)[i], words, maxWidth)
  {
    FillToFits(words, |words|, maxWidth);
  }

  predicate AllNonEmpty(words: seq<string>)
  {
    forall i | 0 <= i < |words| :: words[i] != ""
  }

  /** One step adds the word to the joined text and keeps every line non-empty. */
  lemma FillStepKeepsWords(st: (seq<string>, string), w: string, maxWidth: int)
    requires st.1 != "" && w != "" && AllNonEmpty(st.0)
    ensures var next := FillStep(st, w, maxWidth);
            && AllNonEmpty(next.0) && next.1 != ""
            && Join(Lines(next), " ") == Join(Lines(st), " ") + " " + w
  {
    var test := Extend(st.1, w);
    JoinSnoc(st.0, st.1, " ");
    if |test| <= maxWidth {
      JoinSnoc(st.0, test, " ");
    } else {
      JoinSnoc(st.0 + [st.1], w, " ");
    }
  }

  /**
   * With no empty word, the lines are the words in order, each line a run of
   * consecutive words joined by one space: joining the lines with spaces
   * gives back the words joined with spaces, and no line is empty.
   */
  lemma {:induction false} FillToKeepsWords(words: seq<string>, k: nat, maxWidth: int)
    requires k <= |words| && AllNonEmpty(words)
    ensures AllNonEmpty(FillTo(words, k, maxWidth).0)
    ensures k > 0 ==> FillTo(words, k, maxWidth).1 != ""
    ensures Join(Lines(FillTo(words, k, maxWidth)), " ") == Join(words[..k], " ")
  {
    if k == 1 {
      assert words[..1] == [words[0]];
    } else if k > 1 {
      FillToKeepsWords(words, k - 1, maxWidth);
      FillStepKeepsWords(FillTo(words, k - 1, maxWidth), words[k - 1], maxWidth);
      assert words[..k] == words[..k - 1] + [words[k - 1]];
      JoinSnoc(words[..k - 1], words[k - 1], " ");
    }
  }

  lemma FillKeepsWords(words: seq<string>, maxWidth: int)
    requires AllNonEmpty(words)
    ensures AllNonEmpty(Fill(words, maxWidth))
    ensures Join(Fill(words, maxWidth), " ") == Join(words, " ")
  {
    FillToKeepsWords(words, |words|, maxWidth);
    assert words[..|words|] == words;
  }

  // ---- splitting undoes joining ----

  lemma {:induction false} SplitWordThenRest(w: string, rest: string)
    requires w != [] && NoSpace(w) && rest != [] && !IsJsSpace(rest[0])
    ensures SplitWs(w + " " + rest) == [w] + SplitWs(rest)
    decreases |w|
  {
    var s := w + " " + rest;
    assert s[0] == w[0] && !IsJsSpace(s[0]);
    if |w| == 1 {
      var t := " " + rest;
      assert s[1..] == t;
      assert t[1..] == rest;
      assert LeadingSpace(t[1..]) == 0;
      assert LeadingSpace(t) == 1;
      assert SplitWs(t) == [""] + SplitWs(rest);
      assert [s[0]] + "" == w;
    } else {
      assert s[1..] == w[1..] + " " + rest;
      assert NoSpace(w[1..]) by {
        forall k | 0 <= k < |w[1..]| ensures !IsJsSpace(w[1..][k]) {
          assert w[1..][k] == w[k + 1];
        }
      }
      SplitWordThenRest(w[1..], rest);
      assert [w[0]] + w[1..] == w;
    }
  }

  lemma {:induction false} SplitWord(w: string)
    requires w != [] && NoSpace(w)
    ensures SplitWs(w) == [w]
    decreases |w|
  {
    assert !IsJsSpace(w[0]);
    if |w| == 1 {
      assert w[1..] == [];
      assert [w[0]] + "" == w;
    } else {
      assert NoSpace(w[1..]) by {
        forall k | 0 <= k < |w[1..]| ensures !IsJsSpace(w[1..][k]) {
          assert w[1..][k] == w[k + 1];
        }
      }
      SplitWord(w[1..]);
      assert [w[0]] + w[1..] == w;
    }
  }

  /** Splitting words joined by single spaces gives the words back. */
  lemma {:induction false} SplitJoin(ws: seq<string>)
    requires ws != [] && AllNonEmpty(ws) && forall i | 0 <= i < |ws| :: NoSpace(ws[i])
    ensures SplitWs(Join(ws, " ")) == ws
  {
    if |ws| == 1 {
      SplitWord(ws[0]);
    } else {
      SplitJoin(ws[1..]);
      var rest := Join(ws[1..], " ");
      assert rest != [] && rest[0] == ws[1][0] by {
        JoinHead(ws[1..]);
      }
      SplitWordThenRest(ws[0], rest);
      assert [ws[0]] + ws[1..] == ws;
    }
  }

  lemma JoinHead(ws: seq<string>)
    requires ws != [] && ws[0] != []
    ensures Join(ws, " ") != [] && Join(ws, " ")[0] == ws[0][0]
  {
  }

  // ---- a placeholder inside a placeholder ----

  /**
   * Restoring from the last saved match back to the first: a later
   * placeholder, whose text may hold an earlier one, is opened before the
   * earlier one is looked for.
   */
  function RestoredBack(s: string, saved: seq<Saved>, k: nat): string
    requires k <= |saved| && forall i | 0 <= i < |saved| :: saved[i].token != []
    decreases k
  {
    if k == 0 then s else RestoredBack(ReplaceAll(s, saved[k - 1].token, saved[k - 1].text), saved, k - 1)
  }

  /** The wrap with the placeholders restored last-made first. */
  function Wrap(text: string, maxWidth: int): string
  {
    if text == "" || |text| <= maxWidth then text
    else
      var prot := Protected(text, |KeepTogether|);
      SavedTokens(text, |KeepTogether|);
      RestoredBack(Join(Fill(SplitWs(prot.0), maxWidth), "\n"), prot.1, |prot.1|)
  }

  /** Whether a match of `a` can begin with the character `c`. */
  predicate CanStart(a: Atom, c: char, ci: bool)
  {
    match a
    case Lit(w) => w == [] || (if ci then Typography.SameLetter(c, w[0]) else c == w[0])
    case Alt(ws) => exists j | 0 <= j < |ws| :: ws[j] == [] || (if ci then Typography.SameLetter(c, ws[j][0]) else c == ws[j][0])
    case OptSpaces => true
    case _ => InRun(a, c)
  }

  /**
   * A pattern has no match from `from` on when at every position its first
   * piece cannot begin or the whole pattern fails.
   */
  lemma {:induction false} NoMatchFrom(s: string, from: nat, pat: Pattern)
    requires from <= |s| && NonEmptyStart(pat)
    requires forall q | from <= q < |s| :: !CanStart(pat.atoms[0], s[q], pat.ci) || MatchAtoms(s, q, pat.atoms, pat.ci).None?
    ensures FindFrom(s, from, pat) == None
    decreases |s| - from
  {
    if from < |s| && CanStart(pat.atoms[0], s[from], pat.ci) {
    } else {
      assert MatchAtoms(s, from, pat.atoms, pat.ci).None? by {
        match pat.atoms[0]
        case Alt(ws) => AltNoStart(s, from, ws, 0, pat.atoms[1..], pat.ci);
        case _ =>
      }
    }
    if from < |s| {
      NoMatchFrom(s, from + 1, pat);
    }
  }

  lemma {:induction false} AltNoStart(s: string, p: nat, ws: seq<string>, j: nat, rest: seq<Atom>, ci: bool)
    requires p <= |s| && forall i | 0 <= i < |ws| :: ws[i] != []
    requires p < |s| ==> !CanStart(Alt(ws), s[p], ci)
    ensures MatchAlt(s, p, ws, j, rest, ci) == None
    decreases |ws| - j
  {
    if j < |ws| {
      assert !LitAt(s, p, ws[j], ci);
      AltNoStart(s, p, ws, j + 1, rest, ci);
    }
  }

  /** In a text without whitespace, a run followed by `\s+` never matches. */
  lemma NoGapNoMatch(s: string, q: nat, pat: Pattern)
    requires q <= |s| && NoSpace(s) && |pat.atoms| >= 2 && pat.atoms[1] == Spaces
    requires pat.atoms[0] == WordChars || pat.atoms[0] == Digits
    ensures MatchAtoms(s, q, pat.atoms, pat.ci).None?
  {
    var n := RunLength(s, q, pat.atoms[0]);
    if n > 0 {
      assert pat.atoms[1..][0] == Spaces;
      assert RunLength(s, q + n, Spaces) == 0;
    }
  }

  /** A run of `a`'s characters from `p` to `e`, ended by the text or another character, has length `e - p`. */
  lemma {:induction false} RunLengthIs(s: string, p: nat, e: nat, a: Atom)
    requires p <= e <= |s| && forall k | p <= k < e :: InRun(a, s[k])
    requires e < |s| ==> !InRun(a, s[e])
    ensures RunLength(s, p, a) == e - p
    decreases e - p
  {
    if p < e {
      RunLengthIs(s, p + 1, e, a);
    }
  }

  /** `w` is at `p` when the text holds it there. */
  lemma {:induction false} LitAtIs(s: string, p: nat, w: string, ci: bool)
    requires p + |w| <= |s| && s[p..p + |w|] == w
    ensures LitAt(s, p, w, ci)
    decreases |w|
  {
    if w != [] {
      assert s[p] == w[0];
      assert s[p + 1..p + |w|] == w[1..];
      LitAtIs(s, p + 1, w[1..], ci);
    }
  }

  /** A piece that must consume a character and cannot begin at `p` fails there. */
  lemma StartFails(s: string, p: nat, atoms: seq<Atom>, ci: bool)
    requires p <= |s| && NonEmptyStart(Pattern(atoms, ci))
    requires p < |s| ==> !CanStart(atoms[0], s[p], ci)
    ensures MatchAtoms(s, p, atoms, ci).None?
  {
    match atoms[0]
    case Alt(ws) => AltNoStart(s, p, ws, 0, atoms[1..], ci);
    case _ =>
  }

  /** A pattern whose first piece begins nowhere from `from` on has no match there. */
  lemma NoStartAnywhere(s: string, from: nat, pat: Pattern)
    requires from <= |s| && NonEmptyStart(pat)
    requires forall q | from <= q < |s| :: !CanStart(pat.atoms[0], s[q], pat.ci)
    ensures FindFrom(s, from, pat) == None
  {
    NoMatchFrom(s, from, pat);
  }

  // ---- the passes over "5% практики" ----

  const Word := "практики"
  /** What follows "5%" in the sample. */
  const Rest := " " + Word
  const Sample := "5%" + Rest
  const PercentToken := "__TOKEN1_0__"
  const PhraseToken := "__TOKEN7_1__"
  /** The sample after `/\d+%/g`. */
  const AfterPercent := PercentToken + Rest

  /** No duration word begins with "%". */
  lemma DurationAltFails()
    ensures MatchAtoms(Sample, 1, [Alt(DurationUnits)], true).None?
  {
    assert !CanStart(Alt(DurationUnits), Sample[1], true);
    StartFails(Sample, 1, [Alt(DurationUnits)], true);
  }

  /** After a run of its piece, a pattern goes on with the rest at the run's end. */
  lemma RunThen(s: string, p: nat, atoms: seq<Atom>, ci: bool, n: nat)
    requires p <= |s| && atoms != [] && (atoms[0] == Digits || atoms[0] == WordChars || atoms[0] == Spaces || atoms[0] == OptSpaces)
    requires n == RunLength(s, p, atoms[0]) && (n > 0 || atoms[0] == OptSpaces)
    ensures MatchAtoms(s, p, atoms, ci) == MatchAtoms(s, p + n, atoms[1..], ci)
  {
  }

  lemma DurationFailsAtDigit(s: string)
    requires s == Sample
    ensures MatchAtoms(s, 0, [Digits, OptSpaces, Alt(DurationUnits)], true).None?
  {
    RunThen(s, 0, [Digits, OptSpaces, Alt(DurationUnits)], true, 1);
    RunThen(s, 1, [OptSpaces, Alt(DurationUnits)], true, 0);
    DurationAltFails();
  }

  /** `\d+\s*(час|...)`: the only digit is followed by "%", so the text stays as it is. */
  lemma DurationPass()
    ensures ReplaceFrom(Sample, 0, KeepTogether[0], 0, 0) == (Sample, [])
  {
    assert KeepTogether[0] == Pattern([Digits, OptSpaces, Alt(DurationUnits)], true);
    DurationFailsAtDigit(Sample);
    assert forall q | 1 <= q < |Sample| :: !IsDigit(Sample[q]);
    NoMatchFrom(Sample, 0, KeepTogether[0]);
  }

  lemma PlaceholderNames()
    ensures Placeholder(1, 0) == PercentToken && Placeholder(7, 1) == PhraseToken
  {
  }

  /** A pattern that matches from the start up to `e` and nowhere after: one placeholder. */
  lemma ReplaceOnce(s: string, pat: Pattern, index: nat, made: nat, e: nat)
    requires NonEmptyStart(pat) && e <= |s|
    requires MatchAtoms(s, 0, pat.atoms, pat.ci) == Some(e) && FindFrom(s, e, pat) == None
    ensures ReplaceFrom(s, 0, pat, index, made) == (Placeholder(index, made) + s[e..], [Saved(Placeholder(index, made), s[..e])])
  {
    var tok := Placeholder(index, made);
    assert FindFrom(s, 0, pat) == Some((0, e));
    assert ReplaceFrom(s, e, pat, index, made + 1) == (s[e..], []);
    assert ReplaceFrom(s, 0, pat, index, made) == (s[0..0] + tok + s[e..], [Saved(tok, s[0..e])] + []);
    assert s[0..0] + tok + s[e..] == tok + s[e..];
    assert [Saved(tok, s[0..e])] + [] == [Saved(tok, s[..e])];
  }

  /** A run followed by a literal. */
  lemma RunLit(s: string, p: nat, a: Atom, w: string, ci: bool, n: nat)
    requires p <= |s| && (a == Digits || a == WordChars)
    requires n == RunLength(s, p, a) && n > 0 && LitAt(s, p + n, w, ci)
    ensures MatchAtoms(s, p, [a, Lit(w)], ci) == Some(p + n + |w|)
  {
    var e := p + n + |w|;
    assert MatchAtoms(s, e, [], ci) == Some(e);
    assert [Lit(w)][1..] == [];
    assert MatchAtoms(s, p + n, [Lit(w)], ci) == Some(e);
    assert [a, Lit(w)][1..] == [Lit(w)];
  }

  /** `/\d+%/g` on a digit, "%" and a text without digits: the two characters become a placeholder. */
  lemma PercentPassOn(c: char, r: string, made: nat)
    requires IsDigit(c) && forall k | 0 <= k < |r| :: !IsDigit(r[k])
    ensures ReplaceFrom([c, '%'] + r, 0, KeepTogether[1], 1, made)
            == (Placeholder(1, made) + r, [Saved(Placeholder(1, made), [c, '%'])])
  {
    var s := [c, '%'] + r;
    var pat := KeepTogether[1];
    assert pat == Pattern([Digits, Lit("%")], false);
    assert s[1..2] == "%";
    RunLengthIs(s, 0, 1, Digits);
    LitAtIs(s, 1, "%", false);
    RunLit(s, 0, Digits, "%", false, 1);
    assert forall q | 2 <= q < |s| :: s[q] == r[q - 2];
    NoStartAnywhere(s, 2, pat);
    ReplaceOnce(s, pat, 1, made, 2);
    assert s[2..] == r && s[..2] == [c, '%'];
  }

  /** `/\d+%/g` protects "5%". */
  lemma PercentPass()
    ensures ReplaceFrom(Sample, 0, KeepTogether[1], 1, 0) == (AfterPercent, [Saved(PercentToken, "5%")])
  {
    assert Sample == ['5', '%'] + Rest;
    assert forall k | 0 <= k < |Rest| :: !IsDigit(Rest[k]);
    PercentPassOn('5', Rest, 0);
    PlaceholderNames();
  }

  lemma FractionFailsAt(s: string, q: nat)
    requires q + 1 < |s| && IsDigit(s[q]) && s[q + 1] == '_'
    ensures MatchAtoms(s, q, [Digits, Lit("/"), Digits], false).None?
  {
    RunLengthIs(s, q, q + 1, Digits);
    RunThen(s, q, [Digits, Lit("/"), Digits], false, 1);
  }

  /** `/\d+\/\d+/g`: the placeholder's digits are followed by "_". */
  lemma FractionPass()
    ensures ReplaceFrom(AfterPercent, 0, KeepTogether[2], 2, 1) == (AfterPercent, [])
  {
    assert KeepTogether[2] == Pattern([Digits, Lit("/"), Digits], false);
    assert AfterPercent[7] == '1' && AfterPercent[8] == '_' && AfterPercent[9] == '0' && AfterPercent[10] == '_';
    FractionFailsAt(AfterPercent, 7);
    FractionFailsAt(AfterPercent, 9);
    assert forall q | 0 <= q < |AfterPercent| && q != 7 && q != 9 :: !IsDigit(AfterPercent[q]);
    NoMatchFrom(AfterPercent, 0, KeepTogether[2]);
  }

  /** The characters of the texts below: ASCII or small Cyrillic letters. */
  predicate Plain(c: char)
  {
    c < '\U{0080}' || Typography.IsCyrillicSmall(c)
  }

  /** A plain character and a small Cyrillic letter are the same letter only when equal. */
  lemma OtherLetter(c: char, l: char)
    requires Plain(c) && Typography.IsCyrillicSmall(l) && c != l
    ensures !Typography.SameLetter(c, l)
  {
  }

  /**
   * A pattern beginning with the literal `w`, case-insensitively, has no
   * match in `s` if `w`'s first letter occurs nowhere in the plain text `s`
   * except at `at`, where `w` fails.
   */
  lemma LitOnlyAt(s: string, pat: Pattern, w: string, at: int)
    requires pat.atoms != [] && pat.atoms[0] == Lit(w) && pat.ci && w != [] && Typography.IsCyrillicSmall(w[0])
    requires forall q | 0 <= q < |s| :: Plain(s[q])
    requires forall q | 0 <= q < |s| && q != at :: s[q] != w[0]
    requires 0 <= at < |s| ==> !LitAt(s, at, w, true)
    ensures FindFrom(s, 0, pat) == None
  {
    forall q | 0 <= q < |s| && q != at
      ensures !CanStart(pat.atoms[0], s[q], pat.ci)
    {
      OtherLetter(s[q], w[0]);
    }
    NoMatchFrom(s, 0, pat);
  }

  /** "без" and "масштабирование" begin with letters the text does not hold. */
  lemma AbsentWordPasses()
    ensures ReplaceFrom(AfterPercent, 0, KeepTogether[3], 3, 1) == (AfterPercent, [])
    ensures ReplaceFrom(AfterPercent, 0, KeepTogether[5], 5, 1) == (AfterPercent, [])
  {
    assert KeepTogether[3] == Pattern([Lit("без"), Spaces, Lit("пропорционального")], true);
    assert KeepTogether[5] == Pattern([Lit("масштабирование"), Spaces, Lit("без")], true);
    assert forall q | 0 <= q < |AfterPercent| :: Plain(AfterPercent[q]) && AfterPercent[q] != 'б' && AfterPercent[q] != 'м';
    LitOnlyAt(AfterPercent, KeepTogether[3], "без", -1);
    LitOnlyAt(AfterPercent, KeepTogether[5], "масштабирование", -1);
  }

  /** "роста" could begin only at the "р" of "практики", which "а" follows. */
  lemma GrowthPass()
    ensures ReplaceFrom(AfterPercent, 0, KeepTogether[4], 4, 1) == (AfterPercent, [])
  {
    assert KeepTogether[4] == Pattern([Lit("роста"), Spaces, Lit("штата")], true);
    assert forall q | 0 <= q < |AfterPercent| :: Plain(AfterPercent[q]) && (q == 14 || AfterPercent[q] != 'р');
    OtherLetter(AfterPercent[15], 'о');
    LitOnlyAt(AfterPercent, KeepTogether[4], "роста", 14);
  }

  /** "пропорционального" could begin only at the "п" of "практики", which "р", "а" follow. */
  lemma ProportionalPass()
    ensures ReplaceFrom(AfterPercent, 0, KeepTogether[6], 6, 1) == (AfterPercent, [])
  {
    assert KeepTogether[6] == Pattern([Lit("пропорционального"), Spaces, Lit("роста")], true);
    assert forall q | 0 <= q < |AfterPercent| :: Plain(AfterPercent[q]) && (q == 13 || AfterPercent[q] != 'п');
    OtherLetter(AfterPercent[15], 'о');
    LitOnlyAt(AfterPercent, KeepTogether[6], "пропорционального", 13);
  }

  /** A run, a whitespace run and a literal, one after the other. */
  lemma RunSpacesLit(s: string, p: nat, a: Atom, w: string, ci: bool, n: nat, m: nat)
    requires p <= |s| && (a == Digits || a == WordChars)
    requires n == RunLength(s, p, a) && n > 0
    requires m == RunLength(s, p + n, Spaces) && m > 0
    requires LitAt(s, p + n + m, w, ci)
    ensures MatchAtoms(s, p, [a, Spaces, Lit(w)], ci) == Some(p + n + m + |w|)
  {
    var e := p + n + m + |w|;
    assert MatchAtoms(s, e, [], ci) == Some(e);
    assert [Lit(w)][1..] == [];
    assert MatchAtoms(s, p + n + m, [Lit(w)], ci) == Some(e);
    assert [Spaces, Lit(w)][1..] == [Lit(w)];
    assert MatchAtoms(s, p + n, [Spaces, Lit(w)], ci) == Some(e);
    assert [a, Spaces, Lit(w)][1..] == [Spaces, Lit(w)];
  }

  /** `\w+` takes a whole run of word characters, here a placeholder: `_`, Latin letters and digits. */
  /** A run of word characters, one space and a word that does not begin with a space. */
  lemma PhraseMatchGen(s: string, tok: string, w: string)
    requires s == tok + " " + w
    requires tok != [] && forall k | 0 <= k < |tok| :: IsAsciiWordChar(tok[k])
    requires w != [] && !IsJsSpace(w[0])
    ensures MatchAtoms(s, 0, [WordChars, Spaces, Lit(w)], true) == Some(|s|)
  {
    PhraseRuns(s, tok, w);
    RunSpacesLit(s, 0, WordChars, w, true, |tok|, 1);
  }

  /** The runs the phrase pattern sees in `tok w`. */
  lemma PhraseRuns(s: string, tok: string, w: string)
    requires s == tok + " " + w
    requires tok != [] && forall k | 0 <= k < |tok| :: IsAsciiWordChar(tok[k])
    requires w != [] && !IsJsSpace(w[0])
    ensures RunLength(s, 0, WordChars) == |tok| && RunLength(s, |tok|, Spaces) == 1
    ensures LitAt(s, |tok| + 1, w, true)
  {
    PhraseWordRun(s, tok, w);
    PhraseSpaceRun(s, tok, w);
    PhraseWord(s, tok, w);
  }

  lemma PhraseWordRun(s: string, tok: string, w: string)
    requires s == tok + " " + w
    requires forall k | 0 <= k < |tok| :: IsAsciiWordChar(tok[k])
    ensures RunLength(s, 0, WordChars) == |tok|
  {
    assert forall k | 0 <= k < |tok| :: s[k] == tok[k];
    assert s[|tok|] == ' ';
    RunLengthIs(s, 0, |tok|, WordChars);
  }

  lemma PhraseSpaceRun(s: string, tok: string, w: string)
    requires s == tok + " " + w
    requires w != [] && !IsJsSpace(w[0])
    ensures RunLength(s, |tok|, Spaces) == 1
  {
    assert s[|tok|] == ' ' && s[|tok| + 1] == w[0];
    RunLengthIs(s, |tok|, |tok| + 1, Spaces);
  }

  lemma PhraseWord(s: string, tok: string, w: string)
    requires s == tok + " " + w
    ensures LitAt(s, |tok| + 1, w, true)
  {
    assert s[|tok| + 1..] == w;
    LitAtIs(s, |tok| + 1, w, true);
  }

  lemma PhraseMatchOn(tok: string)
    requires tok != [] && forall k | 0 <= k < |tok| :: IsAsciiWordChar(tok[k])
    ensures MatchAtoms(tok + Rest, 0, [WordChars, Spaces, Lit(Word)], true) == Some(|tok + Rest|)
  {
    assert tok + Rest == tok + " " + Word;
    PhraseMatchGen(tok + Rest, tok, Word);
  }

  /** `/\w+\s+практики/gi` swallows a placeholder together with the word after it. */
  lemma PhrasePassOn(tok: string, made: nat)
    requires tok != [] && forall k | 0 <= k < |tok| :: IsAsciiWordChar(tok[k])
    ensures ReplaceFrom(tok + Rest, 0, KeepTogether[7], 7, made)
            == (Placeholder(7, made), [Saved(Placeholder(7, made), tok + Rest)])
  {
    var s := tok + Rest;
    var pat := KeepTogether[7];
    assert pat == Pattern([WordChars, Spaces, Lit(Word)], true);
    PhraseMatchOn(tok);
    NoStartAnywhere(s, |s|, pat);
    ReplaceOnce(s, pat, 7, made, |s|);
    var t := Placeholder(7, made);
    assert t + s[|s|..] == t && s[..|s|] == s;
    assert ReplaceFrom(s, 0, pat, 7, made) == (t, [Saved(t, s)]);
  }

  lemma PhrasePass()
    ensures ReplaceFrom(AfterPercent, 0, KeepTogether[7], 7, 1) == (PhraseToken, [Saved(PhraseToken, AfterPercent)])
  {
    PlaceholderNames();
    assert forall k | 0 <= k < |PercentToken| :: IsAsciiWordChar(PercentToken[k]);
    PhrasePassOn(PercentToken, 1);
  }

  /** With no whitespace left, `\w+\s+стратегии` and `\w+\s+качества` find nothing. */
  lemma GapPass(i: nat)
    requires i == 8 || i == 9
    ensures ReplaceFrom(PhraseToken, 0, KeepTogether[i], i, 2) == (PhraseToken, [])
  {
    var pat := KeepTogether[i];
    assert pat.atoms[0] == WordChars && pat.atoms[1] == Spaces && NonEmptyStart(pat);
    PlaceholderShape(7, 1);
    PlaceholderNames();
    forall q | 0 <= q <= |PhraseToken|
      ensures MatchAtoms(PhraseToken, q, pat.atoms, pat.ci).None?
    {
      NoGapNoMatch(PhraseToken, q, pat);
    }
    NoMatchFrom(PhraseToken, 0, pat);
  }

  /** The last three patterns begin with Cyrillic words; the placeholder is Latin. */
  lemma LatinPasses(i: nat)
    requires 10 <= i < 13
    ensures ReplaceFrom(PhraseToken, 0, KeepTogether[i], i, 2) == (PhraseToken, [])
  {
    var pat := KeepTogether[i];
    assert pat.atoms[0] == Lit([pat.atoms[0].w[0]] + pat.atoms[0].w[1..]) && pat.ci && NonEmptyStart(pat);
    assert Typography.IsCyrillicSmall(pat.atoms[0].w[0]);
    NoStartAnywhere(PhraseToken, 0, pat);
  }

  // ---- the whole pipeline on "5% практики" ----

  /** The two saved matches: the percentage, then the phrase that swallowed its placeholder. */
  const SampleSaved := [Saved(PercentToken, "5%"), Saved(PhraseToken, AfterPercent)]

  /** One pattern's pass, given the state before it and the pass's own result. */
  lemma ProtectedStep(s: string, k: nat, t: string, saved: seq<Saved>, t': string, made: seq<Saved>, after: seq<Saved>)
    requires 0 < k <= |KeepTogether| && NonEmptyStart(KeepTogether[k - 1])
    requires Protected(s, k - 1) == (t, saved)
    requires ReplaceFrom(t, 0, KeepTogether[k - 1], k - 1, |saved|) == (t', made) && after == saved + made
    ensures Protected(s, k) == (t', after)
  {
  }

  /** The percentage is the only match of the first two patterns. */
  lemma SampleProtectedTwo()
    ensures Protected(Sample, 2) == (AfterPercent, [Saved(PercentToken, "5%")])
  {
    AllNonEmptyStart();
    DurationPass();
    ProtectedStep(Sample, 1, Sample, [], Sample, [], []);
    PercentPass();
    ProtectedStep(Sample, 2, Sample, [], AfterPercent, [Saved(PercentToken, "5%")], [Saved(PercentToken, "5%")]);
  }

  /** Patterns three to seven find nothing in `__TOKEN1_0__ практики`. */
  lemma SampleProtectedSeven()
    ensures Protected(Sample, 7) == (AfterPercent, [Saved(PercentToken, "5%")])
  {
    var one := [Saved(PercentToken, "5%")];
    assert one + [] == one;
    AllNonEmptyStart();
    SampleProtectedTwo();
    FractionPass();
    ProtectedStep(Sample, 3, AfterPercent, one, AfterPercent, [], one);
    AbsentWordPasses();
    ProtectedStep(Sample, 4, AfterPercent, one, AfterPercent, [], one);
    GrowthPass();
    ProtectedStep(Sample, 5, AfterPercent, one, AfterPercent, [], one);
    ProtectedStep(Sample, 6, AfterPercent, one, AfterPercent, [], one);
    ProportionalPass();
    ProtectedStep(Sample, 7, AfterPercent, one, AfterPercent, [], one);
  }

  /**
   * Protecting "5% практики": the percentage becomes `__TOKEN1_0__`, and
   * `\w+\s+практики` then takes that placeholder with the word after it.
   */
  lemma SampleProtected()
    ensures Protected(Sample, |KeepTogether|) == (PhraseToken, SampleSaved)
  {
    assert SampleSaved + [] == SampleSaved;
    assert SampleSaved == [Saved(PercentToken, "5%")] + [Saved(PhraseToken, AfterPercent)];
    AllNonEmptyStart();
    SampleProtectedSeven();
    PhrasePass();
    ProtectedStep(Sample, 8, AfterPercent, [Saved(PercentToken, "5%")], PhraseToken, [Saved(PhraseToken, AfterPercent)], SampleSaved);
    GapPass(8);
    ProtectedStep(Sample, 9, PhraseToken, SampleSaved, PhraseToken, [], SampleSaved);
    GapPass(9);
    ProtectedStep(Sample, 10, PhraseToken, SampleSaved, PhraseToken, [], SampleSaved);
    LatinPasses(10);
    ProtectedStep(Sample, 11, PhraseToken, SampleSaved, PhraseToken, [], SampleSaved);
    LatinPasses(11);
    ProtectedStep(Sample, 12, PhraseToken, SampleSaved, PhraseToken, [], SampleSaved);
    LatinPasses(12);
    ProtectedStep(Sample, 13, PhraseToken, SampleSaved, PhraseToken, [], SampleSaved);
  }

  /** One word, however long, is one line. */
  lemma SingleWordLines(w: string, maxWidth: int)
    requires w != [] && NoSpace(w)
    ensures Join(Fill(SplitWs(w), maxWidth), "\n") == w
  {
    SplitWord(w);
    assert FillTo([w], 1, maxWidth) == ([], w);
  }

  /** In creation order the percentage is looked for before the phrase that holds it is opened. */
  lemma SampleRestoredInOrder()
    ensures RestoredTo(PhraseToken, SampleSaved, 2) == AfterPercent
  {
    assert PhraseToken[7] != PercentToken[7];
    assert PhraseToken[..|PercentToken|] != PercentToken;
    assert ReplaceAll(PhraseToken[1..], PercentToken, "5%") == PhraseToken[1..];
    assert [PhraseToken[0]] + PhraseToken[1..] == PhraseToken;
    assert ReplaceAll(PhraseToken, PercentToken, "5%") == PhraseToken;
    assert RestoredTo(PhraseToken, SampleSaved, 1) == PhraseToken;
    assert PhraseToken[|PhraseToken|..] == [];
    assert ReplaceAll(PhraseToken, PhraseToken, AfterPercent) == AfterPercent + [];
  }

  /** Last-made first, the phrase is opened and then the percentage inside it. */
  lemma SampleRestoredBack()
    ensures RestoredBack(PhraseToken, SampleSaved, 2) == Sample
  {
    assert PhraseToken[|PhraseToken|..] == [];
    assert ReplaceAll(PhraseToken, PhraseToken, AfterPercent) == AfterPercent + [];
    assert AfterPercent[..|PercentToken|] == PercentToken && AfterPercent[|PercentToken|..] == Rest;
    assert ReplaceAll(Rest, PercentToken, "5%") == Rest;
    assert ReplaceAll(AfterPercent, PercentToken, "5%") == "5%" + Rest;
    assert RestoredBack("5%" + Rest, SampleSaved, 0) == Sample;
    assert SampleSaved[0] == Saved(PercentToken, "5%") && SampleSaved[1] == Saved(PhraseToken, AfterPercent);
    assert RestoredBack(AfterPercent, SampleSaved, 1) == Sample;
    assert ReplaceAll(PhraseToken, SampleSaved[1].token, SampleSaved[1].text) == AfterPercent;
  }

  /**
   * The wrap as written leaves `__TOKEN1_0__` in its output: the placeholder
   * is restored only after it was already looked for.
   */
  lemma AsWrittenLeavesPlaceholder(maxWidth: int)
    requires maxWidth < |Sample|
    ensures WrapAsWritten(Sample, maxWidth) == AfterPercent
  {
    SampleProtected();
    PlaceholderShape(7, 1);
    PlaceholderNames();
    var prot := Protected(Sample, |KeepTogether|);
    assert |prot.1| == 2;
    SingleWordLines(PhraseToken, maxWidth);
    assert Join(Fill(SplitWs(prot.0), maxWidth), "\n") == PhraseToken;
    SampleRestoredInOrder();
  }

  /** Restoring the last-made placeholder first gives the sample back whole. */
  lemma WrapRestoresSample(maxWidth: int)
    requires maxWidth < |Sample|
    ensures Wrap(Sample, maxWidth) == Sample
  {
    SampleProtected();
    PlaceholderShape(7, 1);
    PlaceholderNames();
    var prot := Protected(Sample, |KeepTogether|);
    assert |prot.1| == 2;
    SingleWordLines(PhraseToken, maxWidth);
    assert Join(Fill(SplitWs(prot.0), maxWidth), "\n") == PhraseToken;
    SampleRestoredBack();
  }
}
