/**
 * Shared vocabulary: optional values and the few JavaScript string
 * primitives (whitespace classes, trim, split, join, String(n)) that the
 * carousel code relies on.  Strings are sequences of Unicode scalar values;
 * the source's UTF-16 code units coincide with them for the Cyrillic and
 * Latin text this code handles.
 */
module Common {

  datatype Option<+T> = None | Some(value: T)

  /** The JavaScript `\s` class, which is also what `String.prototype.trim` removes. */
  predicate IsJsSpace(c: char)
  {
    c == ' ' || c == '\t' || c == '\n' || c == '\U{000B}' || c == '\U{000C}' || c == '\r'
    || c == '\U{00A0}' || c == '\U{1680}' || ('\U{2000}' <= c <= '\U{200A}')
    || c == '\U{2028}' || c == '\U{2029}' || c == '\U{202F}' || c == '\U{205F}'
    || c == '\U{3000}' || c == '\U{FEFF}'
  }

  /** The JavaScript `\w` class without the `u` flag: ASCII letters, digits and `_`. */
  predicate IsAsciiWordChar(c: char)
  {
    ('a' <= c <= 'z') || ('A' <= c <= 'Z') || ('0' <= c <= '9') || c == '_'
  }

  /** The JavaScript `\d` class. */
  predicate IsDigit(c: char)
  {
    '0' <= c <= '9'
  }

  predicate IsBlank(s: string)
  {
    forall i | 0 <= i < |s| :: IsJsSpace(s[i])
  }

  predicate StartsWith(s: string, p: string)
  {
    |p| <= |s| && s[..|p|] == p
  }

  predicate EndsWith(s: string, p: string)
  {
    |p| <= |s| && s[|s| - |p|..] == p
  }

  /** `p` occurs in `s` starting at index `i`. */
  predicate OccursAt(s: string, p: string, i: int)
  {
    0 <= i && i + |p| <= |s| && s[i..i + |p|] == p
  }

  /** `s.includes(p)` */
  predicate Contains(s: string, p: string)
  {
    exists i | 0 <= i <= |s| :: OccursAt(s, p, i)
  }

  function Concat(ss: seq<string>): (r: string)
  {
    if ss == [] then "" else ss[0] + Concat(ss[1..])
  }

  /** `ss.join(sep)` */
  function Join(ss: seq<string>, sep: string): string
  {
    if |ss| == 0 then ""
    else if |ss| == 1 then ss[0]
    else ss[0] + sep + Join(ss[1..], sep)
  }

  /** Joining one more string adds the separator only when there was something before it. */
  lemma {:induction false} JoinSnoc(ss: seq<string>, s: string, sep: string)
    ensures Join(ss + [s], sep) == if ss == [] then s else Join(ss, sep) + sep + s
  {
    if |ss| > 1 {
      assert (ss + [s])[1..] == ss[1..] + [s];
      JoinSnoc(ss[1..], s, sep);
    } else if |ss| == 1 {
      assert (ss + [s])[1..] == [s];
    }
  }

  /** Number of leading characters of `s` that are JavaScript whitespace. */
  function LeadingSpace(s: string): (k: nat)
    ensures k <= |s|
    ensures forall i | 0 <= i < k :: IsJsSpace(s[i])
    ensures k < |s| ==> !IsJsSpace(s[k])
  {
    if s == [] || !IsJsSpace(s[0]) then 0 else 1 + LeadingSpace(s[1..])
  }

  /** Number of trailing characters of `s` that are JavaScript whitespace. */
  function TrailingSpace(s: string): (k: nat)
    ensures k <= |s|
    ensures forall i | |s| - k <= i < |s| :: IsJsSpace(s[i])
    ensures k < |s| ==> !IsJsSpace(s[|s| - 1 - k])
  {
    if s == [] || !IsJsSpace(s[|s| - 1]) then 0 else 1 + TrailingSpace(s[..|s| - 1])
  }

  /** `s.trim()` */
  function Trim(s: string): (r: string)
    ensures |r| <= |s|
    ensures r == [] <==> IsBlank(s)
    ensures r != [] ==> !IsJsSpace(r[0]) && !IsJsSpace(r[|r| - 1])
  {
    var a := LeadingSpace(s);
    if a == |s| then "" else
      var t := s[a..];
      var b := TrailingSpace(t);
      assert b < |t| by { assert !IsJsSpace(t[0]); }
      t[..|t| - b]
  }

  /** `s.split(c)` for a one-character separator: the pieces between occurrences of `c`. */
  function SplitChar(s: string, c: char): (r: seq<string>)
    ensures |r| >= 1
    ensures forall i | 0 <= i < |r| :: c !in r[i]
  {
    if s == [] then [""]
    else
      var rest := SplitChar(s[1..], c);
      if s[0] == c then [""] + rest
      else [[s[0]] + rest[0]] + rest[1..]
  }

  /** Joining the pieces with the separator gives the string back. */
  lemma {:induction false} SplitCharJoin(s: string, c: char)
    ensures Join(SplitChar(s, c), [c]) == s
  {
    if s != [] {
      SplitCharJoin(s[1..], c);
      var rest := SplitChar(s[1..], c);
      if s[0] == c {
        JoinCons("", rest, [c]);
      } else {
        JoinExtendHead(s[0], rest, [c]);
      }
      assert [s[0]] + s[1..] == s;
    }
  }

  lemma JoinCons(x: string, rest: seq<string>, sep: string)
    requires rest != []
    ensures Join([x] + rest, sep) == x + sep + Join(rest, sep)
  {
    assert ([x] + rest)[1..] == rest;
  }

  /** Putting a character in front of the first piece puts it in front of the joined string. */
  lemma JoinExtendHead(ch: char, rest: seq<string>, sep: string)
    requires rest != []
    ensures Join([[ch] + rest[0]] + rest[1..], sep) == [ch] + Join(rest, sep)
  {
    var r := [[ch] + rest[0]] + rest[1..];
    if |rest| > 1 {
      assert r[1..] == rest[1..];
    }
  }

  /** `xs.map(f)` */
  function MapSeq<A, B>(xs: seq<A>, f: A -> B): (r: seq<B>)
    ensures |r| == |xs|
    ensures forall k | 0 <= k < |xs| :: r[k] == f(xs[k])
  {
    seq(|xs|, k requires 0 <= k < |xs| => f(xs[k]))
  }

  lemma MapSeqAppend<A, B>(xs: seq<A>, ys: seq<A>, f: A -> B)
    ensures MapSeq(xs + ys, f) == MapSeq(xs, f) + MapSeq(ys, f)
  {
  }

  lemma MapSeqPrefix<A, B>(xs: seq<A>, idx: nat, f: A -> B)
    requires idx < |xs|
    ensures MapSeq(xs[..idx + 1], f) == MapSeq(xs[..idx], f) + [f(xs[idx])]
  {
  }

  function DigitChar(d: nat): char
    requires d < 10
  {
    "0123456789"[d]
  }

  /** Decimal notation of a natural number, as JavaScript's `String(n)` writes it. */
  function NatToString(n: nat): (r: string)
    ensures |r| >= 1
    ensures forall i | 0 <= i < |r| :: IsDigit(r[i])
  {
    if n < 10 then [DigitChar(n)] else NatToString(n / 10) + [DigitChar(n % 10)]
  }

  /** `String(n)` for an integer `n`. */
  function IntToString(n: int): string
  {
    if n < 0 then "-" + NatToString(-n) else NatToString(n)
  }

  /** `Math.ceil(a / b)` for integers, b > 0. */
  function CeilDiv(a: int, b: int): (q: int)
    requires b > 0
    ensures (q - 1) * b < a <= q * b
  {
    if a % b == 0 then a / b else a / b + 1
  }

  /** `Math.round(a / b)` for integers, b > 0: the nearest integer, halves rounded up. */
  function RoundDiv(a: int, b: int): (q: int)
    requires b > 0
    ensures 2 * q * b - b <= 2 * a < 2 * q * b + b
  {
    (2 * a + b) / (2 * b)
  }

  function Min(a: int, b: int): int { if a <= b then a else b }
  function Max(a: int, b: int): int { if a >= b then a else b }
}
