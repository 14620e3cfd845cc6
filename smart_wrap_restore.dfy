/**
 * Why restoring the placeholders of `intelligentTextWrap` last-made first
 * gives every phrase back, for every text without an underscore.
 *
 * A text that went through the keep-together pass is read as a sequence of
 * pieces: characters other than `_`, and whole placeholders.  A placeholder
 * `__TOKEN<i>_<n>__` can only be found where one was put, so replacing it
 * swaps exactly those pieces; the pass itself only cuts at piece borders;
 * and splitting, filling and joining only move whitespace, which no
 * placeholder holds.  Restoring the last-made placeholder first then leaves
 * only earlier ones behind, down to none.
 */
module SmartWrapRestore {
  import opened Common
  import opened SmartWrap
  import Typography

  datatype Piece = Ch(c: char) | Tok(t: string)

  function Text(p: Piece): string
  {
    match p
    case Ch(c) => [c]
    case Tok(t) => t
  }

  function Render(ps: seq<Piece>): string
    decreases |ps|
  {
    if ps == [] then "" else Text(ps[0]) + Render(ps[1..])
  }

  ghost predicate IsPlaceholder(t: string)
  {
    exists i: nat, n: nat :: t == Placeholder(i, n)
  }

  /** A character other than `_`, or a placeholder from `ts`. */
  ghost predicate ValidPiece(p: Piece, ts: set<string>)
  {
    match p
    case Ch(c) => c != '_'
    case Tok(t) => t in ts && IsPlaceholder(t)
  }

  ghost predicate Valid(ps: seq<Piece>, ts: set<string>)
  {
    forall k | 0 <= k < |ps| :: ValidPiece(ps[k], ts)
  }

  predicate NoUnderscore(s: string)
  {
    forall k | 0 <= k < |s| :: s[k] != '_'
  }

  // ---- rendering ----

  lemma {:induction false} RenderAppend(a: seq<Piece>, b: seq<Piece>)
    ensures Render(a + b) == Render(a) + Render(b)
    decreases |a|
  {
    if a == [] {
      assert a + b == b;
    } else {
      assert (a + b)[0] == a[0] && (a + b)[1..] == a[1..] + b;
      RenderAppend(a[1..], b);
    }
  }

  lemma ValidSlice(ps: seq<Piece>, ts: set<string>, i: nat, j: nat)
    requires Valid(ps, ts) && i <= j <= |ps|
    ensures Valid(ps[i..j], ts)
  {
    assert forall k | 0 <= k < j - i :: ps[i..j][k] == ps[i + k];
  }

  lemma ValidAppend(a: seq<Piece>, b: seq<Piece>, ts: set<string>)
    requires Valid(a, ts) && Valid(b, ts)
    ensures Valid(a + b, ts)
  {
    assert forall k | |a| <= k < |a + b| :: (a + b)[k] == b[k - |a|];
  }

  lemma ValidGrow(ps: seq<Piece>, ts: set<string>, us: set<string>)
    requires Valid(ps, ts) && ts <= us
    ensures Valid(ps, us)
  {
    forall k | 0 <= k < |ps|
      ensures ValidPiece(ps[k], us)
    {
      assert ValidPiece(ps[k], ts);
    }
  }

  /** Pieces with no placeholder render without an underscore. */
  lemma {:induction false} NoTokenNoUnderscore(ps: seq<Piece>)
    requires Valid(ps, {})
    ensures NoUnderscore(Render(ps))
    decreases |ps|
  {
    if ps != [] {
      assert ValidPiece(ps[0], {});
      ValidSlice(ps, {}, 1, |ps|);
      NoTokenNoUnderscore(ps[1..]);
    }
  }

  /** A text without underscores is a sequence of character pieces. */
  function Chars(s: string): (ps: seq<Piece>)
    ensures |ps| == |s|
    ensures forall k | 0 <= k < |ps| :: ps[k] == Ch(s[k])
  {
    seq(|s|, k requires 0 <= k < |s| => Ch(s[k]))
  }

  lemma {:induction false} CharsRender(s: string)
    ensures Render(Chars(s)) == s
    decreases |s|
  {
    if s != [] {
      assert Chars(s)[1..] == Chars(s[1..]);
      CharsRender(s[1..]);
    }
  }

  // ---- the shape of a placeholder ----

  /** `__TOKEN`, the digits of the pattern index, `_`, the digits of the count, `__`. */
  lemma PlaceholderChars(i: nat, n: nat)
    ensures var p, a, b := Placeholder(i, n), |NatToString(i)|, |NatToString(n)|;
            a >= 1 && b >= 1 && |p| == 10 + a + b
            && p[0] == '_' && p[1] == '_' && p[2] == 'T' && p[3] == 'O' && p[4] == 'K' && p[5] == 'E' && p[6] == 'N'
            && (forall k | 7 <= k < 7 + a :: IsDigit(p[k]))
            && p[7 + a] == '_'
            && (forall k | 8 + a <= k < 8 + a + b :: IsDigit(p[k]))
            && p[8 + a + b] == '_' && p[9 + a + b] == '_'
  {
    var x, y := NatToString(i), NatToString(n);
    var p := Placeholder(i, n);
    assert p == "__TOKEN" + x + "_" + y + "__";
    assert forall k | 7 <= k < 7 + |x| :: p[k] == x[k - 7];
    assert forall k | 8 + |x| <= k < 8 + |x| + |y| :: p[k] == y[k - 8 - |x|];
  }

  /** Every character of a placeholder is a `\w` character. */
  lemma PlaceholderWordChars(t: string)
    requires IsPlaceholder(t)
    ensures forall k | 0 <= k < |t| :: IsAsciiWordChar(t[k])
  {
    var i: nat, n: nat :| t == Placeholder(i, n);
    PlaceholderChars(i, n);
  }

  /** A placeholder at the start of another placeholder (and whatever follows it) is that placeholder. */
  lemma PrefixIsSame(p: string, q: string, r: string)
    requires IsPlaceholder(p) && IsPlaceholder(q)
    requires StartsWith(q + r, p)
    ensures p == q
  {
    var i: nat, n: nat :| p == Placeholder(i, n);
    var i': nat, n': nat :| q == Placeholder(i', n');
    PlaceholderChars(i, n);
    PlaceholderChars(i', n');
    var s := q + r;
    assert forall k | 0 <= k < |p| :: s[k] == p[k];
    assert forall k | 0 <= k < |q| :: s[k] == q[k];
    assert |NatToString(i)| == |NatToString(i')|;
    assert |p| == |q|;
    assert p == s[..|p|] == q;
  }

  /** In rendered pieces, the first underscore opens a placeholder, so another follows it. */
  lemma {:induction false} FirstUnderscore(rs: seq<Piece>, ts: set<string>, m: nat)
    requires Valid(rs, ts)
    requires m < |Render(rs)| && Render(rs)[m] == '_'
    requires forall k | 0 <= k < m :: Render(rs)[k] != '_'
    ensures m + 1 < |Render(rs)| && Render(rs)[m + 1] == '_'
    decreases |rs|
  {
    var r := Render(rs);
    assert ValidPiece(rs[0], ts);
    assert r == Text(rs[0]) + Render(rs[1..]);
    match rs[0]
    case Ch(c) =>
      assert r[0] == c;
      ValidSlice(rs, ts, 1, |rs|);
      assert forall k | 0 <= k < |r| - 1 :: Render(rs[1..])[k] == r[k + 1];
      FirstUnderscore(rs[1..], ts, m - 1);
    case Tok(t) =>
      var i: nat, n: nat :| t == Placeholder(i, n);
      PlaceholderChars(i, n);
      assert r[0] == t[0] && r[1] == t[1];
  }

  /** Inside a placeholder, two underscores in a row come only at its end. */
  lemma InnerPair(q: string, j: nat)
    requires IsPlaceholder(q)
    requires 1 <= j < |q| - 1 && q[j] == '_' && q[j + 1] == '_'
    ensures j == |q| - 2
  {
    var i': nat, n': nat :| q == Placeholder(i', n');
    PlaceholderChars(i', n');
  }

  /** What a placeholder looks like: `__T`, no underscore up to one at `m`, and no second one after it. */
  lemma MiddleUnderscore(p: string) returns (m: nat)
    requires IsPlaceholder(p)
    ensures 2 < m && m + 1 < |p| && p[0] == '_' && p[1] == '_' && p[2] == 'T' && p[m] == '_' && p[m + 1] != '_'
    ensures forall k | 2 <= k < m :: p[k] != '_'
  {
    var i: nat, n: nat :| p == Placeholder(i, n);
    PlaceholderChars(i, n);
    m := 7 + |NatToString(i)|;
  }

  /** Rendered pieces never start with a placeholder less its first character. */
  lemma NotAfterOne(p: string, rs: seq<Piece>, ts: set<string>)
    requires IsPlaceholder(p) && Valid(rs, ts)
    ensures !StartsWith(Render(rs), p[1..])
  {
    var r := Render(rs);
    if StartsWith(r, p[1..]) {
      var m := MiddleUnderscore(p);
      assert r[0] == p[1] && r[1] == p[2];
      FirstUnderscore(rs, ts, 0);
    }
  }

  /** Rendered pieces never start with a placeholder less its first two characters. */
  lemma NotAfterTwo(p: string, rs: seq<Piece>, ts: set<string>)
    requires IsPlaceholder(p) && Valid(rs, ts)
    ensures !StartsWith(Render(rs), p[2..])
  {
    var r := Render(rs);
    if StartsWith(r, p[2..]) {
      var m := MiddleUnderscore(p);
      assert forall k | 0 <= k < m - 2 :: r[k] == p[k + 2];
      assert r[m - 2] == p[m];
      FirstUnderscore(rs, ts, m - 2);
    }
  }

  /** A text that starts with `p` at `j` starts with `p[d..]` at `j + d`. */
  lemma StartsAfter(s: string, j: nat, d: nat, p: string)
    requires j + d <= |s| && d <= |p| && StartsWith(s[j..], p)
    ensures StartsWith(s[j + d..], p[d..])
  {
    forall k | 0 <= k < |p| - d
      ensures s[j + d..][k] == p[d..][k]
    {
      assert s[j + d..][k] == s[j..][d + k] && s[j..][..|p|][d + k] == p[d + k];
    }
  }

  /** A placeholder never starts inside another one that is followed by rendered pieces. */
  lemma NoInnerStart(p: string, q: string, rs: seq<Piece>, ts: set<string>, j: nat)
    requires IsPlaceholder(p) && IsPlaceholder(q) && Valid(rs, ts)
    requires 1 <= j < |q|
    ensures !StartsWith((q + Render(rs))[j..], p)
  {
    var r := Render(rs);
    var s := q + r;
    if StartsWith(s[j..], p) {
      var m := MiddleUnderscore(p);
      assert s[j..][..|p|][0] == p[0] && s[j..][..|p|][1] == p[1];
      if j == |q| - 1 {
        assert s[j + 1..] == r;
        StartsAfter(s, j, 1, p);
        NotAfterOne(p, rs, ts);
      } else {
        InnerPair(q, j);
        assert s[j + 2..] == r;
        StartsAfter(s, j, 2, p);
        NotAfterTwo(p, rs, ts);
      }
    }
  }

  // ---- replacing a placeholder swaps exactly its pieces ----

  /** The pieces with every `Tok(p)` replaced by the pieces `xs`. */
  function Subst(ps: seq<Piece>, p: string, xs: seq<Piece>): seq<Piece>
    decreases |ps|
  {
    if ps == [] then [] else (if ps[0] == Tok(p) then xs else [ps[0]]) + Subst(ps[1..], p, xs)
  }

  /** `ReplaceAll` passes over a stretch where the token does not start. */
  lemma {:induction false} ReplaceAllSkip(s: string, tok: string, with: string, k: nat)
    requires tok != [] && k <= |s|
    requires forall j | 0 <= j < k :: !StartsWith(s[j..], tok)
    ensures ReplaceAll(s, tok, with) == s[..k] + ReplaceAll(s[k..], tok, with)
    decreases k
  {
    if k > 0 {
      if |s| < |tok| {
        assert s[..k] + s[k..] == s;
      } else {
        assert s[0..] == s;
        forall j | 0 <= j < k - 1
          ensures !StartsWith(s[1..][j..], tok)
        {
          assert s[1..][j..] == s[j + 1..];
        }
        ReplaceAllSkip(s[1..], tok, with, k - 1);
        assert s[1..][k - 1..] == s[k..];
        assert [s[0]] + s[1..][..k - 1] == s[..k];
      }
    }
  }

  /** Replacing a placeholder in rendered pieces is substituting its pieces. */
  lemma {:induction false} ReplacePieces(ps: seq<Piece>, ts: set<string>, p: string, xs: seq<Piece>)
    requires Valid(ps, ts) && IsPlaceholder(p) && p != []
    ensures ReplaceAll(Render(ps), p, Render(xs)) == Render(Subst(ps, p, xs))
    decreases |ps|
  {
    if ps != [] {
      var s, x := Render(ps), Render(xs);
      var r := Render(ps[1..]);
      ValidSlice(ps, ts, 1, |ps|);
      ReplacePieces(ps[1..], ts, p, xs);
      assert s == Text(ps[0]) + r;
      assert ValidPiece(ps[0], ts);
      var m := MiddleUnderscore(p);
      match ps[0]
      case Ch(c) =>
        RenderAppend([ps[0]], Subst(ps[1..], p, xs));
        assert Render([ps[0]]) == [c];
        if |s| < |p| {
          assert ReplaceAll(r, p, x) == r;
        } else {
          assert s[0] == c != p[0];
          assert s[1..] == r;
        }
      case Tok(q) =>
        if q == p {
          RenderAppend(xs, Subst(ps[1..], p, xs));
          assert s[..|p|] == p && s[|p|..] == r;
        } else {
          RenderAppend([ps[0]], Subst(ps[1..], p, xs));
          assert Render([ps[0]]) == q;
          forall j | 0 <= j < |q|
            ensures !StartsWith(s[j..], p)
          {
            if j == 0 {
              assert s[0..] == q + r;
              if StartsWith(q + r, p) {
                PrefixIsSame(p, q, r);
              }
            } else {
              NoInnerStart(p, q, ps[1..], ts, j);
            }
          }
          ReplaceAllSkip(s, p, x, |q|);
          assert s[..|q|] == q && s[|q|..] == r;
        }
    }
  }

  lemma {:induction false} SubstValid(ps: seq<Piece>, ts: set<string>, p: string, xs: seq<Piece>, us: set<string>)
    requires Valid(ps, ts) && Valid(xs, us) && ts - {p} <= us
    ensures Valid(Subst(ps, p, xs), us)
    decreases |ps|
  {
    if ps != [] {
      ValidSlice(ps, ts, 1, |ps|);
      SubstValid(ps[1..], ts, p, xs, us);
      assert ValidPiece(ps[0], ts);
      if ps[0] != Tok(p) {
        assert ValidPiece(ps[0], us);
        assert Valid([ps[0]], us);
        ValidAppend([ps[0]], Subst(ps[1..], p, xs), us);
      } else {
        ValidAppend(xs, Subst(ps[1..], p, xs), us);
      }
    }
  }

  // ---- restoring last-made first ----

  /** The placeholders of the first `k` saved matches. */
  function TokensOf(saved: seq<Saved>, k: nat): set<string>
    requires k <= |saved|
  {
    set j | 0 <= j < k :: saved[j].token
  }

  /**
   * Saved matches as the keep-together pass makes them: each placeholder
   * stands for a text made of characters and of placeholders made before it
   * (`texts` holds those pieces).
   */
  ghost predicate WellMade(saved: seq<Saved>, texts: seq<seq<Piece>>)
  {
    |texts| == |saved|
    && forall j | 0 <= j < |saved| ::
         IsPlaceholder(saved[j].token) && saved[j].token != []
         && Render(texts[j]) == saved[j].text && Valid(texts[j], TokensOf(saved, j))
  }

  /** Restoring the first `k` saved matches last-made first leaves no underscore. */
  lemma {:induction false} RestoredBackOpens(ps: seq<Piece>, saved: seq<Saved>, texts: seq<seq<Piece>>, k: nat)
    requires WellMade(saved, texts) && k <= |saved|
    requires Valid(ps, TokensOf(saved, k))
    ensures NoUnderscore(RestoredBack(Render(ps), saved, k))
    decreases k
  {
    if k == 0 {
      assert TokensOf(saved, 0) == {};
      NoTokenNoUnderscore(ps);
    } else {
      var p := saved[k - 1].token;
      ReplacePieces(ps, TokensOf(saved, k), p, texts[k - 1]);
      var next := Subst(ps, p, texts[k - 1]);
      assert TokensOf(saved, k) - {p} <= TokensOf(saved, k - 1);
      SubstValid(ps, TokensOf(saved, k), p, texts[k - 1], TokensOf(saved, k - 1));
      RestoredBackOpens(next, saved, texts, k - 1);
    }
  }

  // ---- splitting, filling and joining keep the pieces ----

  /** A text made of pieces whose placeholders come from `ts`. */
  ghost predicate Tokened(s: string, ts: set<string>)
  {
    exists ps :: Valid(ps, ts) && Render(ps) == s
  }

  ghost predicate AllTokened(ws: seq<string>, ts: set<string>)
  {
    forall i | 0 <= i < |ws| :: Tokened(ws[i], ts)
  }

  lemma EmptyTokened(ts: set<string>)
    ensures Tokened("", ts)
  {
    assert Valid([], ts) && Render([]) == "";
  }

  lemma CharTokened(c: char, ts: set<string>)
    requires c != '_'
    ensures Tokened([c], ts)
  {
    assert ValidPiece(Ch(c), ts);
    assert Valid([Ch(c)], ts) && Render([Ch(c)]) == [c];
  }

  lemma ConcatTokened(a: string, b: string, ts: set<string>)
    requires Tokened(a, ts) && Tokened(b, ts)
    ensures Tokened(a + b, ts)
  {
    var xs :| Valid(xs, ts) && Render(xs) == a;
    var ys :| Valid(ys, ts) && Render(ys) == b;
    RenderAppend(xs, ys);
    ValidAppend(xs, ys, ts);
  }

  /** A word made of pieces in front of words made of pieces. */
  lemma AllTokenedCons(w: string, ws: seq<string>, ts: set<string>)
    requires Tokened(w, ts) && AllTokened(ws, ts)
    ensures AllTokened([w] + ws, ts)
  {
    var all := [w] + ws;
    assert all[1..] == ws;
    forall i | 1 <= i < |all|
      ensures Tokened(all[i], ts)
    {
      assert all[i] == all[1..][i - 1];
    }
  }

  lemma AllTokenedTail(ws: seq<string>, ts: set<string>)
    requires ws != [] && AllTokened(ws, ts)
    ensures AllTokened(ws[1..], ts)
  {
    forall i | 0 <= i < |ws[1..]|
      ensures Tokened(ws[1..][i], ts)
    {
      assert ws[1..][i] == ws[i + 1];
    }
  }

  /** Splitting a text that begins with a word without whitespace glues that word to the first piece. */
  lemma {:induction false} SplitAfterWord(w: string, r: string)
    requires NoSpace(w)
    ensures SplitWs(w + r) == [w + SplitWs(r)[0]] + SplitWs(r)[1..]
    decreases |w|
  {
    if w == [] {
      var rs := SplitWs(r);
      assert w + r == r && w + rs[0] == rs[0];
      assert [rs[0]] + rs[1..] == rs;
    } else {
      var s := w + r;
      assert s[0] == w[0] && !IsJsSpace(s[0]);
      assert s[1..] == w[1..] + r;
      assert NoSpace(w[1..]) by {
        forall k | 0 <= k < |w[1..]| ensures !IsJsSpace(w[1..][k]) {
          assert w[1..][k] == w[k + 1];
        }
      }
      SplitAfterWord(w[1..], r);
      assert [w[0]] + (w[1..] + SplitWs(r)[0]) == w + SplitWs(r)[0];
    }
  }

  /** A whitespace run at the start of rendered pieces is that many character pieces. */
  lemma {:induction false} SpacePrefix(ps: seq<Piece>, ts: set<string>, k: nat)
    requires Valid(ps, ts) && k <= |Render(ps)|
    requires forall i | 0 <= i < k :: IsJsSpace(Render(ps)[i])
    ensures k <= |ps| && Render(ps)[k..] == Render(ps[k..])
    decreases k
  {
    if k > 0 {
      var s := Render(ps);
      assert ps != [];
      assert s == Text(ps[0]) + Render(ps[1..]);
      assert ValidPiece(ps[0], ts);
      assert IsJsSpace(s[0]);
      assert ps[0].Ch?;
      assert s[1..] == Render(ps[1..]);
      ValidSlice(ps, ts, 1, |ps|);
      forall i | 0 <= i < k - 1
        ensures IsJsSpace(Render(ps[1..])[i])
      {
        assert Render(ps[1..])[i] == s[i + 1];
      }
      SpacePrefix(ps[1..], ts, k - 1);
      assert ps[1..][k - 1..] == ps[k..];
    }
  }

  /** Every piece of a split of rendered pieces is itself made of pieces. */
  lemma {:induction false} SplitTokened(ps: seq<Piece>, ts: set<string>)
    requires Valid(ps, ts)
    ensures AllTokened(SplitWs(Render(ps)), ts)
    decreases |ps|
  {
    var s := Render(ps);
    if ps == [] {
      EmptyTokened(ts);
    } else {
      var r := Render(ps[1..]);
      assert s == Text(ps[0]) + r;
      assert ValidPiece(ps[0], ts);
      ValidSlice(ps, ts, 1, |ps|);
      if ps[0].Ch? && IsJsSpace(ps[0].c) {
        var l := LeadingSpace(s);
        SpacePrefix(ps, ts, l);
        ValidSlice(ps, ts, l, |ps|);
        SplitTokened(ps[l..], ts);
        EmptyTokened(ts);
        AllTokenedCons("", SplitWs(Render(ps[l..])), ts);
      } else {
        SplitTokened(ps[1..], ts);
        var rs := SplitWs(r);
        var w := Text(ps[0]);
        assert Tokened(w, ts) by {
          assert Valid([ps[0]], ts) && Render([ps[0]]) == w;
        }
        if ps[0].Tok? {
          var i: nat, n: nat :| ps[0].t == Placeholder(i, n);
          PlaceholderShape(i, n);
        }
        assert NoSpace(w);
        SplitAfterWord(w, r);
        assert Tokened(rs[0], ts);
        ConcatTokened(w, rs[0], ts);
        AllTokenedTail(rs, ts);
        AllTokenedCons(w + rs[0], rs[1..], ts);
        assert SplitWs(s) == [w + rs[0]] + rs[1..];
      }
    }
  }

  ghost predicate StateTokened(st: (seq<string>, string), ts: set<string>)
  {
    AllTokened(st.0, ts) && Tokened(st.1, ts)
  }

  /** The greedy fill only glues pieces of the words with spaces. */
  lemma {:induction false} FillToTokened(words: seq<string>, k: nat, maxWidth: int, ts: set<string>)
    requires k <= |words| && AllTokened(words, ts)
    ensures StateTokened(FillTo(words, k, maxWidth), ts)
    decreases k
  {
    if k == 0 {
      EmptyTokened(ts);
    } else {
      FillToTokened(words, k - 1, maxWidth, ts);
      FillStepTokened(FillTo(words, k - 1, maxWidth), words[k - 1], maxWidth, ts);
    }
  }

  lemma FillStepTokened(st: (seq<string>, string), w: string, maxWidth: int, ts: set<string>)
    requires StateTokened(st, ts) && Tokened(w, ts)
    ensures StateTokened(FillStep(st, w, maxWidth), ts)
  {
    CharTokened(' ', ts);
    ConcatTokened(st.1, " ", ts);
    ConcatTokened(st.1 + " ", w, ts);
    assert forall i | 0 <= i < |st.0| :: (st.0 + [st.1])[i] == st.0[i];
  }

  lemma {:induction false} JoinTokened(ws: seq<string>, sep: string, ts: set<string>)
    requires AllTokened(ws, ts) && Tokened(sep, ts)
    ensures Tokened(Join(ws, sep), ts)
    decreases |ws|
  {
    if |ws| == 0 {
      EmptyTokened(ts);
    } else if |ws| > 1 {
      JoinTokened(ws[1..], sep, ts);
      assert Tokened(ws[0], ts);
      ConcatTokened(ws[0], sep, ts);
      ConcatTokened(ws[0] + sep, Join(ws[1..], sep), ts);
    }
  }

  /** Splitting on whitespace, filling lines and joining them with newlines keeps the pieces. */
  lemma LinesTokened(ps: seq<Piece>, ts: set<string>, maxWidth: int)
    requires Valid(ps, ts)
    ensures Tokened(Join(Fill(SplitWs(Render(ps)), maxWidth), "\n"), ts)
  {
    var words := SplitWs(Render(ps));
    SplitTokened(ps, ts);
    FillToTokened(words, |words|, maxWidth, ts);
    var st := FillTo(words, |words|, maxWidth);
    assert AllTokened(Lines(st), ts) by {
      if st.1 != "" {
        assert forall i | 0 <= i < |st.0| :: (st.0 + [st.1])[i] == st.0[i];
      }
    }
    CharTokened('\n', ts);
    JoinTokened(Lines(st), "\n", ts);
  }

  // ---- piece borders in the rendered text ----

  /** Where the `j`-th piece starts in the rendered text. */
  function Off(ps: seq<Piece>, j: nat): nat
    requires j <= |ps|
  {
    |Render(ps[..j])|
  }

  lemma OffSlice(ps: seq<Piece>, i: nat, j: nat)
    requires i <= j <= |ps|
    ensures Off(ps, i) <= Off(ps, j) <= |Render(ps)|
    ensures Render(ps)[Off(ps, i)..Off(ps, j)] == Render(ps[i..j])
  {
    RenderAppend(ps[..i], ps[i..j]);
    assert ps[..i] + ps[i..j] == ps[..j];
    RenderAppend(ps[..j], ps[j..]);
    assert ps[..j] + ps[j..] == ps;
  }

  lemma OffEnds(ps: seq<Piece>)
    ensures Off(ps, 0) == 0 && Off(ps, |ps|) == |Render(ps)|
  {
    assert ps[..0] == [] && ps[..|ps|] == ps;
  }

  /** The `j`-th piece sits between the `j`-th and the next border; a placeholder starts with `_`. */
  lemma OffAt(ps: seq<Piece>, ts: set<string>, j: nat)
    requires Valid(ps, ts) && j < |ps|
    ensures Off(ps, j + 1) == Off(ps, j) + |Text(ps[j])| <= |Render(ps)| && |Text(ps[j])| >= 1
    ensures Render(ps)[Off(ps, j)..Off(ps, j + 1)] == Text(ps[j])
    ensures Render(ps)[Off(ps, j)] == if ps[j].Ch? then ps[j].c else '_'
  {
    OffSlice(ps, j, j + 1);
    assert ps[j..j + 1] == [ps[j]];
    assert Render([ps[j]]) == Text(ps[j]);
    assert ValidPiece(ps[j], ts);
    if ps[j].Tok? {
      var m := MiddleUnderscore(ps[j].t);
    }
  }

  lemma OffGrows(ps: seq<Piece>, ts: set<string>, i: nat, j: nat)
    requires Valid(ps, ts) && i < j <= |ps|
    ensures Off(ps, i) < Off(ps, j)
  {
    OffAt(ps, ts, i);
    OffSlice(ps, i + 1, j);
  }

  /** `q` is a border between pieces. */
  ghost predicate Bd(ps: seq<Piece>, q: nat)
  {
    exists j | 0 <= j <= |ps| :: Off(ps, j) == q
  }

  /** The piece a position of the rendered text falls in. */
  lemma {:induction false} LocateFrom(ps: seq<Piece>, ts: set<string>, q: nat, j0: nat) returns (j: nat)
    requires Valid(ps, ts) && j0 <= |ps| && Off(ps, j0) <= q < |Render(ps)|
    ensures j0 <= j < |ps| && Off(ps, j) <= q < Off(ps, j + 1)
    decreases |ps| - j0
  {
    OffEnds(ps);
    assert j0 < |ps|;
    if q < Off(ps, j0 + 1) {
      j := j0;
    } else {
      j := LocateFrom(ps, ts, q, j0 + 1);
    }
  }

  /** A character other than `_` at a border is a character piece, so a border follows it. */
  lemma BdStep(ps: seq<Piece>, ts: set<string>, q: nat)
    requires Valid(ps, ts) && Bd(ps, q) && q < |Render(ps)| && Render(ps)[q] != '_'
    ensures Bd(ps, q + 1)
  {
    var j :| 0 <= j <= |ps| && Off(ps, j) == q;
    OffEnds(ps);
    OffAt(ps, ts, j);
  }

  /** The characters of a placeholder piece, where it sits in the rendered text. */
  lemma TokenChars(ps: seq<Piece>, ts: set<string>, j: nat)
    requires Valid(ps, ts) && j < |ps| && ps[j].Tok?
    ensures Off(ps, j + 1) == Off(ps, j) + |ps[j].t| <= |Render(ps)|
    ensures forall x | 0 <= x < |ps[j].t| :: Render(ps)[Off(ps, j) + x] == ps[j].t[x]
  {
    OffAt(ps, ts, j);
    SliceChars(Render(ps), Off(ps, j), Off(ps, j + 1), ps[j].t);
  }

  lemma SliceChars(s: string, o: nat, e: nat, t: string)
    requires o <= e <= |s| && s[o..e] == t
    ensures forall x | 0 <= x < |t| :: s[o + x] == t[x]
  {
    forall x | 0 <= x < |t|
      ensures s[o + x] == t[x]
    {
      assert s[o + x] == s[o..e][x];
    }
  }

  /** A position that is no border lies inside a placeholder, past its first character. */
  lemma InsideToken(ps: seq<Piece>, ts: set<string>, q: nat) returns (j: nat, m: nat)
    requires Valid(ps, ts) && q < |Render(ps)| && !Bd(ps, q)
    ensures j < |ps| && ps[j].Tok? && IsPlaceholder(ps[j].t)
    ensures 1 <= m < |ps[j].t| && Off(ps, j) + m == q
  {
    OffEnds(ps);
    j := LocateFrom(ps, ts, q, 0);
    OffAt(ps, ts, j);
    assert ValidPiece(ps[j], ts);
    assert Off(ps, j) != q;
    m := q - Off(ps, j);
  }

  /** Inside a placeholder the character and the one before it are `\w` characters. */
  lemma InsideWord(ps: seq<Piece>, ts: set<string>, q: nat)
    requires Valid(ps, ts) && q < |Render(ps)| && q !in OffSet(ps)
    ensures 0 < q && IsAsciiWordChar(Render(ps)[q]) && IsAsciiWordChar(Render(ps)[q - 1])
  {
    var t, o, m := TokenAround(ps, ts, q);
    PlaceholderWordChars(t);
    assert Render(ps)[o + m] == t[m];
    assert Render(ps)[o + (m - 1)] == t[m - 1];
  }

  // ---- the keep-together patterns match from border to border ----

  /** No character of a placeholder can be taken for a character of `w`. */
  predicate NoWordMatch(w: string, ci: bool)
  {
    forall k | 0 <= k < |w| :: if ci then Typography.IsCyrillicSmall(w[k]) else !IsAsciiWordChar(w[k])
  }

  predicate GoodAtom(a: Atom, ci: bool)
  {
    match a
    case Lit(w) => w != [] && NoWordMatch(w, ci)
    case Alt(ws) => forall j | 0 <= j < |ws| :: ws[j] != [] && NoWordMatch(ws[j], ci)
    case _ => true
  }

  predicate GoodAtoms(atoms: seq<Atom>, ci: bool)
  {
    forall k | 0 <= k < |atoms| :: GoodAtom(atoms[k], ci)
  }

  /** The atoms begin with a literal or a choice of literals. */
  predicate LitFirst(atoms: seq<Atom>)
  {
    atoms != [] && (atoms[0].Lit? || atoms[0].Alt?)
  }

  /**
   * What makes a pattern unable to match inside a placeholder: its literals
   * hold no `\w` character, and a leading digit run is followed, past
   * optional spaces, by a literal.
   */
  predicate GoodPattern(pat: Pattern)
  {
    NonEmptyStart(pat) && GoodAtoms(pat.atoms, pat.ci)
    && (pat.atoms[0] == Digits ==>
          LitFirst(pat.atoms[1..]) || (|pat.atoms| >= 2 && pat.atoms[1] == OptSpaces && LitFirst(pat.atoms[2..])))
  }

  lemma CyrillicWords()
    ensures forall j | 0 <= j < |DurationUnits| :: DurationUnits[j] != [] && NoWordMatch(DurationUnits[j], true)
    ensures NoWordMatch("без", true) && NoWordMatch("пропорционального", true) && NoWordMatch("роста", true)
    ensures NoWordMatch("штата", true) && NoWordMatch("масштабирование", true) && NoWordMatch("практики", true)
    ensures NoWordMatch("стратегии", true) && NoWordMatch("качества", true) && NoWordMatch("автоматизация", true)
    ensures NoWordMatch("качественные", true) && NoWordMatch("эффективные", true)
    ensures NoWordMatch("%", false) && NoWordMatch("/", false)
  {
  }

  lemma GoodPatterns()
    ensures forall i | 0 <= i < |KeepTogether| :: GoodPattern(KeepTogether[i])
  {
    CyrillicWords();
  }

  /** A `\w` character is never taken for a character of such a literal. */
  lemma WordCharNoMatch(c: char, w: string, ci: bool, k: nat)
    requires IsAsciiWordChar(c) && NoWordMatch(w, ci) && k < |w|
    ensures if ci then !Typography.SameLetter(c, w[k]) else c != w[k]
  {
    if ci && Typography.SameLetter(c, w[k]) {
      Typography.CyrillicNotAscii(c, w[k]);
    }
  }

  /** Atoms that begin with such a literal fail at a `\w` character. */
  lemma WordCharFails(s: string, p: nat, atoms: seq<Atom>, ci: bool)
    requires p < |s| && IsAsciiWordChar(s[p]) && LitFirst(atoms) && GoodAtom(atoms[0], ci)
    ensures MatchAtoms(s, p, atoms, ci).None?
  {
    match atoms[0]
    case Lit(w) =>
      WordCharNoMatch(s[p], w, ci, 0);
      StartFails(s, p, atoms, ci);
    case Alt(ws) =>
      forall j | 0 <= j < |ws|
        ensures !(if ci then Typography.SameLetter(s[p], ws[j][0]) else s[p] == ws[j][0])
      {
        WordCharNoMatch(s[p], ws[j], ci, 0);
      }
      StartFails(s, p, atoms, ci);
  }

  /** A run stops at the end of the text or at a character outside it. */
  lemma {:induction false} RunStops(s: string, p: nat, a: Atom)
    requires p <= |s|
    ensures p + RunLength(s, p, a) < |s| ==> !InRun(a, s[p + RunLength(s, p, a)])
    decreases |s| - p
  {
    if p < |s| && InRun(a, s[p]) {
      RunStops(s, p + 1, a);
    }
  }

  /** A digit inside a placeholder starts a digit group that an underscore ends. */
  lemma DigitsInToken(t: string, m: nat) returns (k: nat)
    requires IsPlaceholder(t) && m < |t| && IsDigit(t[m])
    ensures m < k < |t| && t[k] == '_' && forall x | m <= x < k :: IsDigit(t[x])
  {
    var i: nat, n: nat :| t == Placeholder(i, n);
    PlaceholderChars(i, n);
    var a := |NatToString(i)|;
    if m < 7 + a {
      k := 7 + a;
    } else {
      k := 8 + a + |NatToString(n)|;
    }
  }

  // ---- matching against the borders alone ----

  /**
   * What the matching needs to know about the borders `b` of a text:
   * the end is one; a character other than `_` at a border is followed by
   * one; off the borders sit `\w` characters after a `\w` character; and a
   * digit off the borders starts a digit group that an underscore ends.
   */
  ghost predicate Borders(s: string, b: set<nat>)
  {
    |s| in b
    && (forall q | q in b && q < |s| && s[q] != '_' :: q + 1 in b)
    && (forall q | 0 <= q < |s| && q !in b :: 0 < q && IsAsciiWordChar(s[q]) && IsAsciiWordChar(s[q - 1]))
    && (forall q | 0 <= q < |s| && q !in b && IsDigit(s[q]) ::
          exists k | q < k < |s| :: s[k] == '_' && forall x | q <= x < k :: IsDigit(s[x]))
  }

  /** A literal read from a border ends at a border. */
  lemma {:induction false} LitEnd(s: string, b: set<nat>, p: nat, w: string, ci: bool)
    requires Borders(s, b) && p in b && p <= |s| && LitAt(s, p, w, ci) && NoWordMatch(w, ci)
    ensures p + |w| in b
    decreases |w|
  {
    if w != [] {
      if s[p] == '_' {
        WordCharNoMatch(s[p], w, ci, 0);
      }
      assert p + 1 in b;
      assert NoWordMatch(w[1..], ci) by {
        assert forall k | 0 <= k < |w[1..]| :: w[1..][k] == w[k + 1];
      }
      LitEnd(s, b, p + 1, w[1..], ci);
    }
  }

  /** A run of digits or whitespace read from a border ends at a border. */
  lemma {:induction false} RunEnd(s: string, b: set<nat>, p: nat, a: Atom)
    requires Borders(s, b) && p in b && p <= |s|
    requires a == Digits || a == Spaces || a == OptSpaces
    ensures p + RunLength(s, p, a) in b
    decreases |s| - p
  {
    if p < |s| && InRun(a, s[p]) {
      assert s[p] != '_';
      assert p + 1 in b;
      RunEnd(s, b, p + 1, a);
      assert RunLength(s, p, a) == 1 + RunLength(s, p + 1, a);
    } else {
      assert RunLength(s, p, a) == 0;
    }
  }

  /** A `\w` run ends at a border wherever it starts: a placeholder is all `\w`. */
  lemma WordRunEnd(s: string, b: set<nat>, p: nat)
    requires Borders(s, b) && p <= |s|
    ensures p + RunLength(s, p, WordChars) in b
  {
    var e := p + RunLength(s, p, WordChars);
    RunStops(s, p, WordChars);
    assert e < |s| ==> !IsAsciiWordChar(s[e]);
  }

  /** `MatchAlt` takes its `j`-th alternative. */
  predicate AltTaken(s: string, p: nat, ws: seq<string>, j: nat, rest: seq<Atom>, ci: bool)
    requires p <= |s| && j < |ws|
    ensures AltTaken(s, p, ws, j, rest, ci) ==>
              LitAt(s, p, ws[j], ci) && MatchAlt(s, p, ws, j, rest, ci) == MatchAtoms(s, p + |ws[j]|, rest, ci)
    ensures !AltTaken(s, p, ws, j, rest, ci) ==> MatchAlt(s, p, ws, j, rest, ci) == MatchAlt(s, p, ws, j + 1, rest, ci)
  {
    LitAt(s, p, ws[j], ci) && MatchAtoms(s, p + |ws[j]|, rest, ci).Some?
  }

  /** A match of good atoms from a border ends at a border. */
  lemma {:induction false} AtomsEnd(s: string, b: set<nat>, p: nat, atoms: seq<Atom>, ci: bool)
    requires Borders(s, b) && p in b && p <= |s| && GoodAtoms(atoms, ci)
    requires MatchAtoms(s, p, atoms, ci).Some?
    ensures MatchAtoms(s, p, atoms, ci).value in b
    decreases |atoms|, 0
  {
    if atoms != [] {
      assert GoodAtom(atoms[0], ci);
      assert GoodAtoms(atoms[1..], ci) by {
        assert forall k | 0 <= k < |atoms[1..]| :: atoms[1..][k] == atoms[k + 1];
      }
      match atoms[0]
      case Lit(w) =>
        LitEnd(s, b, p, w, ci);
        AtomsEnd(s, b, p + |w|, atoms[1..], ci);
      case Alt(ws) =>
        AltEnd(s, b, p, ws, 0, atoms[1..], ci);
      case WordChars =>
        WordRunEnd(s, b, p);
        AtomsEnd(s, b, p + RunLength(s, p, WordChars), atoms[1..], ci);
      case _ =>
        RunEnd(s, b, p, atoms[0]);
        AtomsEnd(s, b, p + RunLength(s, p, atoms[0]), atoms[1..], ci);
    }
  }

  lemma {:induction false} AltEnd(s: string, b: set<nat>, p: nat, ws: seq<string>, j: nat, rest: seq<Atom>, ci: bool)
    requires Borders(s, b) && p in b && p <= |s| && GoodAtoms(rest, ci)
    requires forall i | 0 <= i < |ws| :: ws[i] != [] && NoWordMatch(ws[i], ci)
    requires MatchAlt(s, p, ws, j, rest, ci).Some?
    ensures MatchAlt(s, p, ws, j, rest, ci).value in b
    decreases |rest|, 1, |ws| - j
  {
    assert j < |ws|;
    if AltTaken(s, p, ws, j, rest, ci) {
      LitEnd(s, b, p, ws[j], ci);
      AtomsEnd(s, b, p + |ws[j]|, rest, ci);
    } else {
      AltEnd(s, b, p, ws, j + 1, rest, ci);
    }
  }

  /** A digit run that starts off the borders meets an underscore. */
  lemma DigitRunInside(s: string, b: set<nat>, q: nat) returns (e: nat)
    requires Borders(s, b) && q < |s| && q !in b && IsDigit(s[q])
    ensures e == q + RunLength(s, q, Digits) && e < |s| && s[e] == '_'
  {
    var k :| q < k < |s| && s[k] == '_' && forall x | q <= x < k :: IsDigit(s[x]);
    RunLengthIs(s, q, k, Digits);
    e := k;
  }

  /** A good pattern matches off the borders only by a `\w` run that also matches one character earlier. */
  lemma MatchInside(s: string, b: set<nat>, q: nat, pat: Pattern)
    requires Borders(s, b) && q <= |s| && q !in b && GoodPattern(pat)
    requires MatchAtoms(s, q, pat.atoms, pat.ci).Some?
    ensures pat.atoms[0] == WordChars && 0 < q
    ensures MatchAtoms(s, q - 1, pat.atoms, pat.ci) == MatchAtoms(s, q, pat.atoms, pat.ci)
  {
    var atoms, ci := pat.atoms, pat.ci;
    assert q < |s| && IsAsciiWordChar(s[q]) && IsAsciiWordChar(s[q - 1]);
    assert GoodAtom(atoms[0], ci);
    match atoms[0]
    case Lit(_) =>
      WordCharFails(s, q, atoms, ci);
    case Alt(_) =>
      WordCharFails(s, q, atoms, ci);
    case Digits =>
      var e := DigitRunInside(s, b, q);
      assert MatchAtoms(s, q, atoms, ci) == MatchAtoms(s, e, atoms[1..], ci);
      if LitFirst(atoms[1..]) {
        assert GoodAtom(atoms[1], ci);
        WordCharFails(s, e, atoms[1..], ci);
      } else {
        assert GoodAtom(atoms[2], ci);
        assert atoms[1..][0] == OptSpaces && atoms[1..][1..] == atoms[2..];
        assert RunLength(s, e, OptSpaces) == 0;
        WordCharFails(s, e, atoms[2..], ci);
      }
    case WordChars =>
      assert RunLength(s, q - 1, WordChars) == 1 + RunLength(s, q, WordChars);
    case _ =>
  }

  /** The leftmost match of a good pattern from a border starts and ends at borders. */
  lemma MatchBounds(s: string, b: set<nat>, from: nat, pat: Pattern)
    requires Borders(s, b) && from in b && from <= |s| && GoodPattern(pat)
    requires FindFrom(s, from, pat).Some?
    ensures FindFrom(s, from, pat).value.0 in b && FindFrom(s, from, pat).value.1 in b
  {
    var q := FindFrom(s, from, pat).value.0;
    FindFromLeftmost(s, from, pat);
    if q !in b {
      MatchInside(s, b, q, pat);
    }
    AtomsEnd(s, b, q, pat.atoms, pat.ci);
  }

  // ---- the borders of rendered pieces ----

  /** The borders between pieces, as positions of the rendered text. */
  function OffSet(ps: seq<Piece>): set<nat>
  {
    set j | 0 <= j <= |ps| :: Off(ps, j)
  }

  lemma BdIn(ps: seq<Piece>, q: nat)
    ensures Bd(ps, q) <==> q in OffSet(ps)
  {
    if Bd(ps, q) {
      var j :| 0 <= j <= |ps| && Off(ps, j) == q;
      assert Off(ps, j) in OffSet(ps);
    }
  }

  lemma StepBorders(ps: seq<Piece>, ts: set<string>)
    requires Valid(ps, ts)
    ensures var s, b := Render(ps), OffSet(ps);
            |s| in b && forall q | q in b && q < |s| && s[q] != '_' :: q + 1 in b
  {
    var s, b := Render(ps), OffSet(ps);
    OffEnds(ps);
    assert Off(ps, |ps|) in b;
    forall q | q in b && q < |s| && s[q] != '_'
      ensures q + 1 in b
    {
      StepBorder(ps, ts, q);
    }
  }

  lemma StepBorder(ps: seq<Piece>, ts: set<string>, q: nat)
    requires Valid(ps, ts) && q in OffSet(ps) && q < |Render(ps)| && Render(ps)[q] != '_'
    ensures q + 1 in OffSet(ps)
  {
    BdIn(ps, q);
    BdStep(ps, ts, q);
    BdIn(ps, q + 1);
  }

  lemma InsideBorders(ps: seq<Piece>, ts: set<string>)
    requires Valid(ps, ts)
    ensures var s, b := Render(ps), OffSet(ps);
            forall q | 0 <= q < |s| && q !in b :: 0 < q && IsAsciiWordChar(s[q]) && IsAsciiWordChar(s[q - 1])
  {
    var s, b := Render(ps), OffSet(ps);
    forall q | 0 <= q < |s| && q !in b
      ensures 0 < q && IsAsciiWordChar(s[q]) && IsAsciiWordChar(s[q - 1])
    {
      InsideWord(ps, ts, q);
    }
  }

  lemma DigitBorder(ps: seq<Piece>, ts: set<string>, q: nat) returns (k: nat)
    requires Valid(ps, ts) && q < |Render(ps)| && q !in OffSet(ps) && IsDigit(Render(ps)[q])
    ensures q < k < |Render(ps)| && Render(ps)[k] == '_' && forall x | q <= x < k :: IsDigit(Render(ps)[x])
  {
    var t, o, m := TokenAround(ps, ts, q);
    k := DigitsAcross(Render(ps), o, t, m);
  }

  /** A position off the piece borders lies inside a placeholder `t` laid in at `o`. */
  lemma TokenAround(ps: seq<Piece>, ts: set<string>, q: nat) returns (t: string, o: nat, m: nat)
    requires Valid(ps, ts) && q < |Render(ps)| && q !in OffSet(ps)
    ensures IsPlaceholder(t) && 1 <= m < |t| && o + m == q && o + |t| <= |Render(ps)|
    ensures forall x | 0 <= x < |t| :: Render(ps)[o + x] == t[x]
  {
    BdIn(ps, q);
    var j;
    j, m := InsideToken(ps, ts, q);
    TokenChars(ps, ts, j);
    t, o := ps[j].t, Off(ps, j);
  }

  /** A digit inside a placeholder laid into `s` at `o` starts a digit run that ends at an underscore. */
  lemma DigitsAcross(s: string, o: nat, t: string, m: nat) returns (k: nat)
    requires o + |t| <= |s| && forall x | 0 <= x < |t| :: s[o + x] == t[x]
    requires IsPlaceholder(t) && m < |t| && IsDigit(s[o + m])
    ensures o + m < k < |s| && s[k] == '_' && forall x | o + m <= x < k :: IsDigit(s[x])
  {
    assert s[o + m] == t[m];
    var k0 := DigitsInToken(t, m);
    k := o + k0;
    assert s[o + k0] == t[k0];
    forall x | o + m <= x < k
      ensures IsDigit(s[x])
    {
      assert s[o + (x - o)] == t[x - o];
    }
  }

  lemma DigitBorders(ps: seq<Piece>, ts: set<string>)
    requires Valid(ps, ts)
    ensures var s, b := Render(ps), OffSet(ps);
            forall q | 0 <= q < |s| && q !in b && IsDigit(s[q]) ::
              exists k | q < k < |s| :: s[k] == '_' && forall x | q <= x < k :: IsDigit(s[x])
  {
    var s, b := Render(ps), OffSet(ps);
    forall q | 0 <= q < |s| && q !in b && IsDigit(s[q])
      ensures exists k | q < k < |s| :: s[k] == '_' && forall x | q <= x < k :: IsDigit(s[x])
    {
      var k := DigitBorder(ps, ts, q);
    }
  }

  /** The piece borders of rendered pieces are borders in the sense the matching needs. */
  lemma BordersOfPieces(ps: seq<Piece>, ts: set<string>)
    requires Valid(ps, ts)
    ensures Borders(Render(ps), OffSet(ps))
  {
    StepBorders(ps, ts);
    InsideBorders(ps, ts);
    DigitBorders(ps, ts);
  }

  // ---- the keep-together pass on pieces ----

  lemma IsPlaceholderOf(index: nat, n: nat)
    ensures IsPlaceholder(Placeholder(index, n)) && Placeholder(index, n) != []
  {
    PlaceholderChars(index, n);
  }

  lemma TokensOfCons(x: Saved, rest: seq<Saved>)
    ensures TokensOf([x] + rest, |rest| + 1) == {x.token} + TokensOf(rest, |rest|)
  {
    var all := [x] + rest;
    forall t | t in TokensOf(all, |all|)
      ensures t in {x.token} + TokensOf(rest, |rest|)
    {
      var j :| 0 <= j < |all| && all[j].token == t;
      if j > 0 {
        assert rest[j - 1] == all[j];
      }
    }
    forall t | t in TokensOf(rest, |rest|)
      ensures t in TokensOf(all, |all|)
    {
      var j :| 0 <= j < |rest| && rest[j].token == t;
      assert all[j + 1] == rest[j];
    }
    assert all[0].token == x.token;
  }

  /** The leftmost match from a piece border starts and ends at piece borders. */
  lemma MatchAtBorders(ps: seq<Piece>, ts: set<string>, from: nat, pat: Pattern)
    requires Valid(ps, ts) && from in OffSet(ps) && from <= |Render(ps)| && GoodPattern(pat)
    requires FindFrom(Render(ps), from, pat).Some?
    ensures FindFrom(Render(ps), from, pat).value.0 in OffSet(ps)
    ensures FindFrom(Render(ps), from, pat).value.1 in OffSet(ps)
    ensures FindFrom(Render(ps), from, pat).value.0 < FindFrom(Render(ps), from, pat).value.1
  {
    BordersOfPieces(ps, ts);
    MatchBounds(Render(ps), OffSet(ps), from, pat);
    NonEmptyMatch(Render(ps), FindFrom(Render(ps), from, pat).value.0, pat);
  }

  lemma IndexOf(ps: seq<Piece>, q: nat) returns (j: nat)
    requires q in OffSet(ps)
    ensures j <= |ps| && Off(ps, j) == q
  {
    j :| 0 <= j <= |ps| && Off(ps, j) == q;
  }

  /** Borders come in the order of their pieces. */
  lemma OffOrder(ps: seq<Piece>, ts: set<string>, i: nat, j: nat)
    requires Valid(ps, ts) && i <= |ps| && j <= |ps|
    ensures Off(ps, i) <= Off(ps, j) ==> i <= j
    ensures Off(ps, i) < Off(ps, j) ==> i < j
  {
    if j < i {
      OffGrows(ps, ts, j, i);
    }
  }

  /** The leftmost match from a piece border spans whole pieces. */
  lemma MatchPieces(ps: seq<Piece>, ts: set<string>, j0: nat, pat: Pattern) returns (i: nat, j: nat)
    requires Valid(ps, ts) && j0 <= |ps| && Off(ps, j0) <= |Render(ps)| && GoodPattern(pat)
    requires FindFrom(Render(ps), Off(ps, j0), pat).Some?
    ensures j0 <= i < j <= |ps| && Off(ps, j0) <= Off(ps, i) < Off(ps, j) <= |Render(ps)|
    ensures Off(ps, i) == FindFrom(Render(ps), Off(ps, j0), pat).value.0
    ensures Off(ps, j) == FindFrom(Render(ps), Off(ps, j0), pat).value.1
  {
    var from := Off(ps, j0);
    assert from in OffSet(ps);
    MatchAtBorders(ps, ts, from, pat);
    var m := FindFrom(Render(ps), from, pat).value;
    i := IndexOf(ps, m.0);
    j := IndexOf(ps, m.1);
    OffOrder(ps, ts, j0, i);
    OffOrder(ps, ts, i, j);
  }

  /** The pieces before a match, its placeholder, and what follows. */
  lemma Assemble(ps: seq<Piece>, ts: set<string>, j0: nat, i: nat, tok: string, out': seq<Piece>, all: set<string>)
    requires Valid(ps, ts) && j0 <= i <= |ps| && IsPlaceholder(tok) && tok in all && ts <= all && Valid(out', all)
    ensures Off(ps, j0) <= Off(ps, i) <= |Render(ps)|
    ensures Render(ps[j0..i] + [Tok(tok)] + out') == Render(ps)[Off(ps, j0)..Off(ps, i)] + tok + Render(out')
    ensures Valid(ps[j0..i] + [Tok(tok)] + out', all)
  {
    OffSlice(ps, j0, i);
    assert Render([Tok(tok)]) == tok;
    RenderAppend(ps[j0..i], [Tok(tok)]);
    RenderAppend(ps[j0..i] + [Tok(tok)], out');
    ValidSlice(ps, ts, j0, i);
    ValidGrow(ps[j0..i], ts, all);
    assert ValidPiece(Tok(tok), all);
    assert Valid([Tok(tok)], all);
    ValidAppend(ps[j0..i], [Tok(tok)], all);
    ValidAppend(ps[j0..i] + [Tok(tok)], out', all);
  }

  /** The protected text is the pieces the match spans. */
  lemma Cut(ps: seq<Piece>, ts: set<string>, i: nat, j: nat)
    requires Valid(ps, ts) && i <= j <= |ps|
    ensures Off(ps, i) <= Off(ps, j) <= |Render(ps)|
    ensures Render(ps[i..j]) == Render(ps)[Off(ps, i)..Off(ps, j)] && Valid(ps[i..j], ts)
  {
    OffSlice(ps, i, j);
    ValidSlice(ps, ts, i, j);
  }

  /**
   * `out` and `texts` are the pieces of the keep-together replacement from
   * `from` on: the result is pieces again, and each protected text is made
   * of the pieces it was cut from.
   */
  ghost predicate Replaced(ps: seq<Piece>, ts: set<string>, from: nat, pat: Pattern, index: nat, made: nat,
                           out: seq<Piece>, texts: seq<seq<Piece>>)
    requires from <= |Render(ps)| && NonEmptyStart(pat)
  {
    var r := ReplaceFrom(Render(ps), from, pat, index, made);
    Render(out) == r.0 && Valid(out, ts + TokensOf(r.1, |r.1|)) && TextsFit(r.1, texts, ts)
  }

  /** A saved match holds a placeholder and the text `t` renders. */
  ghost predicate Fits(x: Saved, t: seq<Piece>, ts: set<string>)
  {
    IsPlaceholder(x.token) && Render(t) == x.text && Valid(t, ts)
  }

  ghost predicate TextsFit(saved: seq<Saved>, texts: seq<seq<Piece>>, ts: set<string>)
  {
    |texts| == |saved| && forall i | 0 <= i < |saved| :: Fits(saved[i], texts[i], ts)
  }

  lemma TextsFitCons(x: Saved, rest: seq<Saved>, t: seq<Piece>, texts: seq<seq<Piece>>, ts: set<string>)
    requires IsPlaceholder(x.token) && Render(t) == x.text && Valid(t, ts)
    requires TextsFit(rest, texts, ts)
    ensures TextsFit([x] + rest, [t] + texts, ts)
  {
    var all, ts2 := [x] + rest, [t] + texts;
    assert Fits(x, t, ts);
    assert all[1..] == rest && ts2[1..] == texts;
    forall y | 1 <= y < |all|
      ensures Fits(all[y], ts2[y], ts)
    {
      assert Fits(all[1..][y - 1], ts2[1..][y - 1], ts);
    }
    assert all[0] == x && ts2[0] == t && |ts2| == |all|;
  }

  lemma NoMatchPieces(ps: seq<Piece>, ts: set<string>, j0: nat, pat: Pattern, index: nat, made: nat)
    returns (out: seq<Piece>, texts: seq<seq<Piece>>)
    requires Valid(ps, ts) && j0 <= |ps| && Off(ps, j0) <= |Render(ps)| && GoodPattern(pat)
    requires FindFrom(Render(ps), Off(ps, j0), pat).None?
    ensures Replaced(ps, ts, Off(ps, j0), pat, index, made, out, texts)
  {
    var s, from := Render(ps), Off(ps, j0);
    var r := ReplaceFrom(s, from, pat, index, made);
    assert r == (s[from..], []);
    OffEnds(ps);
    out, texts := ps[j0..], [];
    OffSlice(ps, j0, |ps|);
    assert ps[j0..|ps|] == out && s[from..|s|] == s[from..];
    ValidSlice(ps, ts, j0, |ps|);
    ValidGrow(out, ts, ts + TokensOf(r.1, |r.1|));
  }

  lemma MatchGlue(ps: seq<Piece>, ts: set<string>, j0: nat, pat: Pattern, index: nat, made: nat,
                  i: nat, j: nat, out': seq<Piece>, texts': seq<seq<Piece>>)
    returns (out: seq<Piece>, texts: seq<seq<Piece>>)
    requires Valid(ps, ts) && j0 <= i < j <= |ps| && Off(ps, j0) <= Off(ps, i) < Off(ps, j) <= |Render(ps)| && GoodPattern(pat)
    requires FindFrom(Render(ps), Off(ps, j0), pat) == Some((Off(ps, i), Off(ps, j)))
    requires Replaced(ps, ts, Off(ps, j), pat, index, made + 1, out', texts')
    ensures Replaced(ps, ts, Off(ps, j0), pat, index, made, out, texts)
  {
    var s, from, q, e := Render(ps), Off(ps, j0), Off(ps, i), Off(ps, j);
    var r := ReplaceFrom(s, from, pat, index, made);
    var tok := Placeholder(index, made);
    IsPlaceholderOf(index, made);
    var rest := ReplaceFrom(s, e, pat, index, made + 1);
    assert r == (s[from..q] + tok + rest.0, [Saved(tok, s[q..e])] + rest.1);
    TokensOfCons(Saved(tok, s[q..e]), rest.1);
    var all := ts + TokensOf(r.1, |r.1|);
    ValidGrow(out', ts + TokensOf(rest.1, |rest.1|), all);
    Assemble(ps, ts, j0, i, tok, out', all);
    Cut(ps, ts, i, j);
    out := ps[j0..i] + [Tok(tok)] + out';
    texts := [ps[i..j]] + texts';
    TextsFitCons(Saved(tok, s[q..e]), rest.1, ps[i..j], texts', ts);
  }

  /** Replacing the matches of a keep-together pattern from the `j0`-th border on keeps the pieces. */
  lemma {:induction false} ReplaceFromPieces(ps: seq<Piece>, ts: set<string>, j0: nat, pat: Pattern, index: nat, made: nat)
    returns (out: seq<Piece>, texts: seq<seq<Piece>>)
    requires Valid(ps, ts) && j0 <= |ps| && Off(ps, j0) <= |Render(ps)| && GoodPattern(pat)
    ensures Replaced(ps, ts, Off(ps, j0), pat, index, made, out, texts)
    decreases |Render(ps)| - Off(ps, j0)
  {
    if FindFrom(Render(ps), Off(ps, j0), pat).None? {
      out, texts := NoMatchPieces(ps, ts, j0, pat, index, made);
    } else {
      var i, j := MatchPieces(ps, ts, j0, pat);
      OffSlice(ps, j, |ps|);
      var out', texts' := ReplaceFromPieces(ps, ts, j, pat, index, made + 1);
      out, texts := MatchGlue(ps, ts, j0, pat, index, made, i, j, out', texts');
    }
  }

  // ---- the whole keep-together pass, and the wrap ----

  lemma TokensOfPrefix(a: seq<Saved>, b: seq<Saved>, j: nat)
    requires j <= |a|
    ensures TokensOf(a + b, j) == TokensOf(a, j)
  {
    forall t | t in TokensOf(a + b, j)
      ensures t in TokensOf(a, j)
    {
      var i :| 0 <= i < j && (a + b)[i].token == t;
      assert a[i] == (a + b)[i];
    }
    forall t | t in TokensOf(a, j)
      ensures t in TokensOf(a + b, j)
    {
      var i :| 0 <= i < j && a[i].token == t;
      assert a[i] == (a + b)[i];
    }
  }

  lemma TokensOfGrow(a: seq<Saved>, b: seq<Saved>, j: nat)
    requires |a| <= j <= |a| + |b|
    ensures TokensOf(a, |a|) <= TokensOf(a + b, j)
  {
    forall t | t in TokensOf(a, |a|)
      ensures t in TokensOf(a + b, j)
    {
      var i :| 0 <= i < |a| && a[i].token == t;
      assert a[i] == (a + b)[i];
    }
  }

  lemma TokensOfAppend(a: seq<Saved>, b: seq<Saved>)
    ensures TokensOf(a + b, |a + b|) == TokensOf(a, |a|) + TokensOf(b, |b|)
  {
    TokensOfGrow(a, b, |a + b|);
    forall t | t in TokensOf(a + b, |a + b|)
      ensures t in TokensOf(a, |a|) + TokensOf(b, |b|)
    {
      var i :| 0 <= i < |a + b| && (a + b)[i].token == t;
      if i < |a| {
        assert a[i] == (a + b)[i];
      } else {
        assert b[i - |a|] == (a + b)[i];
      }
    }
    forall t | t in TokensOf(b, |b|)
      ensures t in TokensOf(a + b, |a + b|)
    {
      var i :| 0 <= i < |b| && b[i].token == t;
      assert b[i] == (a + b)[|a| + i];
    }
  }

  /** Matches saved by a later pattern, over the placeholders of earlier ones, keep the saved matches well made. */
  lemma WellMadeAppend(a: seq<Saved>, ta: seq<seq<Piece>>, b: seq<Saved>, tb: seq<seq<Piece>>)
    requires WellMade(a, ta) && TextsFit(b, tb, TokensOf(a, |a|))
    ensures WellMade(a + b, ta + tb)
  {
    var s, t := a + b, ta + tb;
    forall j | 0 <= j < |s|
      ensures IsPlaceholder(s[j].token) && s[j].token != []
              && Render(t[j]) == s[j].text && Valid(t[j], TokensOf(s, j))
    {
      if j < |a| {
        assert s[j] == a[j] && t[j] == ta[j];
        TokensOfPrefix(a, b, j);
      } else {
        assert s[j] == b[j - |a|] && t[j] == tb[j - |a|];
        assert Fits(b[j - |a|], tb[j - |a|], TokensOf(a, |a|));
        TokensOfGrow(a, b, j);
        ValidGrow(t[j], TokensOf(a, |a|), TokensOf(s, j));
        var i: nat, n: nat :| s[j].token == Placeholder(i, n);
        IsPlaceholderOf(i, n);
      }
    }
  }

  /** The text after the first `k` keep-together patterns, read as pieces, with the saved matches well made. */
  lemma {:induction false} ProtectedPieces(text: string, k: nat) returns (ps: seq<Piece>, texts: seq<seq<Piece>>)
    requires NoUnderscore(text) && k <= |KeepTogether|
    ensures var prot := Protected(text, k);
            Render(ps) == prot.0 && WellMade(prot.1, texts) && Valid(ps, TokensOf(prot.1, |prot.1|))
    decreases k
  {
    if k == 0 {
      ps, texts := Chars(text), [];
      CharsRender(text);
    } else {
      var prev := Protected(text, k - 1);
      var ps0, texts0 := ProtectedPieces(text, k - 1);
      var ts0 := TokensOf(prev.1, |prev.1|);
      GoodPatterns();
      AllNonEmptyStart();
      OffEnds(ps0);
      var pat := KeepTogether[k - 1];
      var step := ReplaceFrom(prev.0, 0, pat, k - 1, |prev.1|);
      var out, stepTexts := ReplaceFromPieces(ps0, ts0, 0, pat, k - 1, |prev.1|);
      assert Protected(text, k) == (step.0, prev.1 + step.1);
      ps, texts := out, texts0 + stepTexts;
      TokensOfAppend(prev.1, step.1);
      WellMadeAppend(prev.1, texts0, step.1, stepTexts);
    }
  }

  /**
   * `intelligentTextWrap` with its restore loop corrected to run over the
   * placeholders last-made first: for a text without an underscore, no
   * placeholder is left in the wrapped text.
   */
  lemma WrapLeavesNoPlaceholder(text: string, maxWidth: int)
    requires NoUnderscore(text)
    ensures NoUnderscore(Wrap(text, maxWidth))
  {
    if text != "" && |text| > maxWidth {
      var prot := Protected(text, |KeepTogether|);
      var ps, texts := ProtectedPieces(text, |KeepTogether|);
      var ts := TokensOf(prot.1, |prot.1|);
      LinesTokened(ps, ts, maxWidth);
      var joined := Join(Fill(SplitWs(prot.0), maxWidth), "\n");
      var qs :| Valid(qs, ts) && Render(qs) == joined;
      RestoredBackOpens(qs, prot.1, texts, |prot.1|);
    }
  }
}
