/**
 * The HTML side of src/renderer/puppeteerRenderer.ts: the `{{key}}` and
 * `{{#if key}}…{{/if}}` template engine of `replaceTemplateVariables`, the
 * flags and variables `generateSlideHTML` hands to it, and the per-type
 * content of `generateSlideContent`.  `marked` and `marked.parseInline` are
 * injected functions, the patterns are PatternGenerator's with the pool seed
 * the caller draws, and the Puppeteer screenshots are not modelled.
 */
module PuppeteerRenderer {
  import opened Common
  import CarouselSchema
  import PatternGenerator
  import FinalSlide

  /** The values `templateVars` holds: strings, numbers and booleans. */
  datatype Value = Str(s: string) | Num(n: int) | Bool(b: bool)

  /** `String(value)` */
  function Text(v: Value): string
  {
    match v
    case Str(s) => s
    case Num(n) => IntToString(n)
    case Bool(b) => if b then "true" else "false"
  }

  /** JavaScript truthiness of a template value: `''`, `0` and `false` are falsy. */
  predicate Truthy(v: Value)
  {
    match v
    case Str(s) => s != ""
    case Num(n) => n != 0
    case Bool(b) => b
  }

  /** A `Record<string, any>` as `Object.entries` lists it: its keys in insertion order. */
  type Vars = seq<(string, Value)>

  /** `vars[key]` for an own key. */
  function Lookup(vars: Vars, key: string): Option<Value>
  {
    if vars == [] then None
    else if vars[0].0 == key then Some(vars[0].1)
    else Lookup(vars[1..], key)
  }

  /** The first entry with a key is the one `Lookup` finds; without such an entry there is none. */
  lemma {:induction false} LookupFirst(vars: Vars, key: string, i: nat)
    requires i <= |vars|
    requires forall j | 0 <= j < i :: vars[j].0 != key
    ensures i < |vars| && vars[i].0 == key ==> Lookup(vars, key) == Some(vars[i].1)
    ensures i == |vars| ==> Lookup(vars, key) == None
  {
    if i > 0 {
      LookupFirst(vars[1..], key, i - 1);
    }
  }

  /**
   * `vars[name]` as the conditional's callback tests it: an own key by its
   * value, and every name a plain object inherits from `Object.prototype`
   * is a truthy function or object.
   */
  predicate Holds(vars: Vars, name: string)
  {
    match Lookup(vars, name)
    case Some(v) => Truthy(v)
    case None => FinalSlide.Inherited(name)
  }

  /** A non-empty run of `\w` characters, as `(\w+)` captures and as the keys of `templateVars` are. */
  predicate IsWord(s: string)
  {
    |s| > 0 && forall i | 0 <= i < |s| :: IsAsciiWordChar(s[i])
  }

  predicate BraceFree(s: string)
  {
    forall i | 0 <= i < |s| :: s[i] != '{'
  }

  // ---- {{key}} ----

  /** `{{key}}`, the literal text `new RegExp(`{{${key}}}`, 'g')` matches for a plain key. */
  function Placeholder(key: string): (p: string)
    ensures |p| == |key| + 4 && p[0] == '{' && p[1] == '{'
  {
    "{{" + key + "}}"
  }

  /**
   * `s.replace(p, r)` for a global pattern matching the literal `p`, with `r`
   * inserted as it is: every occurrence, left to right and without overlap.
   */
  function ReplaceAll(s: string, p: string, r: string): string
    requires p != []
  {
    ReplaceAt(s, p, r, 0)
  }

  /** The global replace from index `i` of `s` on. */
  function ReplaceAt(s: string, p: string, r: string, i: nat): string
    requires p != [] && i <= |s|
    decreases |s| - i
  {
    if |s| - i < |p| then s[i..]
    else if s[i..i + |p|] == p then r + ReplaceAt(s, p, r, i + |p|)
    else [s[i]] + ReplaceAt(s, p, r, i + 1)
  }

  /** An occurrence in `s[k..]` is an occurrence in `s`, `k` further on. */
  lemma DroppedOccurrence(s: string, p: string, k: nat, i: nat)
    requires k <= |s|
    ensures OccursAt(s[k..], p, i) <==> OccursAt(s, p, k + i)
  {
    if i + |p| <= |s| - k {
      assert s[k..][i..i + |p|] == s[k + i..k + i + |p|];
    }
  }

  /** From an index on which the pattern no longer occurs, the text is copied. */
  lemma {:induction false} ReplaceAtAbsent(s: string, p: string, r: string, i: nat)
    requires p != [] && i <= |s|
    requires forall j | i <= j <= |s| :: !OccursAt(s, p, j)
    ensures ReplaceAt(s, p, r, i) == s[i..]
    decreases |s| - i
  {
    if |s| - i >= |p| {
      assert !OccursAt(s, p, i);
      ReplaceAtAbsent(s, p, r, i + 1);
      assert [s[i]] + s[i + 1..] == s[i..];
    }
  }

  /** A text without the pattern comes back unchanged. */
  lemma ReplaceAllAbsent(s: string, p: string, r: string)
    requires p != [] && !Contains(s, p)
    ensures ReplaceAll(s, p, r) == s
  {
    ReplaceAtAbsent(s, p, r, 0);
  }

  /** Up to the next occurrence the text is copied; the occurrence is replaced and the scan goes on after it. */
  lemma {:induction false} ReplaceAtFirst(s: string, p: string, r: string, i: nat, k: nat)
    requires p != [] && i <= k && OccursAt(s, p, k)
    requires forall j | i <= j < k :: !OccursAt(s, p, j)
    ensures ReplaceAt(s, p, r, i) == s[i..k] + r + ReplaceAt(s, p, r, k + |p|)
    decreases k - i
  {
    if i < k {
      ReplaceAtCopies(s, p, r, i);
      ReplaceAtFirst(s, p, r, i + 1, k);
      ConsSlice(s, i, k, r, ReplaceAt(s, p, r, k + |p|));
    } else {
      ReplaceAtReplaces(s, p, r, i);
    }
  }

  /** A position where the pattern does not start is copied. */
  lemma ReplaceAtCopies(s: string, p: string, r: string, i: nat)
    requires p != [] && i + |p| <= |s| && !OccursAt(s, p, i)
    ensures ReplaceAt(s, p, r, i) == [s[i]] + ReplaceAt(s, p, r, i + 1)
  {
  }

  /** A position where the pattern starts is replaced. */
  lemma ReplaceAtReplaces(s: string, p: string, r: string, i: nat)
    requires p != [] && OccursAt(s, p, i)
    ensures ReplaceAt(s, p, r, i) == s[i..i] + r + ReplaceAt(s, p, r, i + |p|)
  {
    assert s[i..i] + r == r;
  }

  lemma ConsSlice(s: string, i: nat, k: nat, r: string, x: string)
    requires i < k <= |s|
    ensures [s[i]] + (s[i + 1..k] + r + x) == s[i..k] + r + x
  {
    assert [s[i]] + s[i + 1..k] == s[i..k];
  }

  /**
   * The first occurrence of the pattern is replaced and the scan goes on
   * after it: with `ReplaceAllAbsent`, this pins down every global replace.
   */
  lemma ReplaceAllFirst(s: string, p: string, r: string, k: nat)
    requires p != [] && OccursAt(s, p, k)
    requires forall j | 0 <= j < k :: !OccursAt(s, p, j)
    ensures ReplaceAll(s, p, r) == s[..k] + r + ReplaceAt(s, p, r, k + |p|)
  {
    ReplaceAtFirst(s, p, r, 0, k);
  }

  /** The first occurrence at `k` is the first occurrence at `k - 1` of `s[1..]`. */
  lemma ShiftFirst(s: string, p: string, k: nat)
    requires 0 < k && OccursAt(s, p, k)
    requires forall j | 0 <= j < k :: !OccursAt(s, p, j)
    ensures OccursAt(s[1..], p, k - 1)
    ensures forall j | 0 <= j < k - 1 :: !OccursAt(s[1..], p, j)
  {
    forall j | 0 <= j < k - 1
      ensures !OccursAt(s[1..], p, j)
    {
      DroppedOccurrence(s, p, 1, j);
    }
    DroppedOccurrence(s, p, 1, k - 1);
  }

  /** A `{` in `a + {{k}} + b` with brace-free `a` and `b` and a plain key opens the placeholder. */
  lemma BracesOfPlaceholder(a: string, k: string, b: string, j: nat)
    requires BraceFree(a) && BraceFree(b) && IsWord(k)
    requires j < |a + Placeholder(k) + b|
    ensures (a + Placeholder(k) + b)[j] == '{' ==> j == |a| || j == |a| + 1
  {
    var s := a + Placeholder(k) + b;
    if j < |a| {
      assert s[j] == a[j];
    } else if j >= |a| + |k| + 4 {
      assert s[j] == b[j - |a| - |k| - 4];
    } else if |a| + 2 <= j < |a| + 2 + |k| {
      assert s[j] == k[j - |a| - 2];
    } else {
      assert j >= |a| + 2 + |k| ==> s[j] == '}';
    }
  }

  /** No other plain key's placeholder occurs in a text whose only braces are one placeholder's. */
  lemma OnlyItsOwnPlaceholder(a: string, k: string, b: string, key: string)
    requires BraceFree(a) && BraceFree(b) && IsWord(k) && IsWord(key) && key != k
    ensures !Contains(a + Placeholder(k) + b, Placeholder(key))
  {
    var s := a + Placeholder(k) + b;
    var p := Placeholder(key);
    forall j | 0 <= j <= |s|
      ensures !OccursAt(s, p, j)
    {
      if j + |p| <= |s| {
        if s[j] != '{' {
          Differs(s, p, j, 0);
        } else if s[j + 1] != '{' {
          Differs(s, p, j, 1);
        } else {
          BracesOfPlaceholder(a, k, b, j);
          BracesOfPlaceholder(a, k, b, j + 1);
          assert j == |a|;
          assert s[|a|..|a| + |k| + 4] == Placeholder(k);
          if |key| < |k| {
            assert s[j + 2 + |key|] == k[|key|];
            Differs(s, p, j, 2 + |key|);
          } else if |key| > |k| {
            assert s[j + 2 + |k|] == '}';
            Differs(s, p, j, 2 + |k|);
          } else {
            var i :| 0 <= i < |k| && key[i] != k[i];
            assert s[j + 2 + i] == k[i];
            Differs(s, p, j, 2 + i);
          }
        }
      }
    }
  }

  /** One differing character rules an occurrence out. */
  lemma Differs(s: string, p: string, j: nat, d: nat)
    requires j + |p| <= |s| && d < |p| && s[j + d] != p[d]
    ensures !OccursAt(s, p, j)
  {
    assert s[j..j + |p|][d] == s[j + d];
  }

  /**
   * The substitution inserts the value as it is: the one placeholder of
   * `k` in `a + {{k}} + b` becomes `t`, whatever `t` holds.
   */
  lemma ValueInsertedVerbatim(a: string, k: string, b: string, t: string)
    requires BraceFree(a) && BraceFree(b)
    ensures ReplaceAll(a + Placeholder(k) + b, Placeholder(k), t) == a + t + b
  {
    var s := a + Placeholder(k) + b;
    var p := Placeholder(k);
    PlaceholderFirst(a, k, b);
    ReplaceAllFirst(s, p, t, |a|);
    PlaceholderLast(a, k, b);
    ReplaceAtAbsent(s, p, t, |a| + |p|);
  }

  /** The placeholder after a brace-free prefix is the first occurrence. */
  lemma PlaceholderFirst(a: string, k: string, b: string)
    requires BraceFree(a)
    ensures OccursAt(a + Placeholder(k) + b, Placeholder(k), |a|)
    ensures forall j | 0 <= j < |a| :: !OccursAt(a + Placeholder(k) + b, Placeholder(k), j)
    ensures (a + Placeholder(k) + b)[..|a|] == a
  {
    var s := a + Placeholder(k) + b;
    var p := Placeholder(k);
    assert s[|a|..|a| + |p|] == p;
    forall j | 0 <= j < |a|
      ensures !OccursAt(s, p, j)
    {
      assert s[j] == a[j];
      Differs(s, p, j, 0);
    }
  }

  /** Nothing after the placeholder matches it again in a brace-free suffix. */
  lemma PlaceholderLast(a: string, k: string, b: string)
    requires BraceFree(b)
    ensures forall j | |a| + |k| + 4 <= j <= |a + Placeholder(k) + b| ::
              !OccursAt(a + Placeholder(k) + b, Placeholder(k), j)
    ensures (a + Placeholder(k) + b)[|a| + |k| + 4..] == b
  {
    var s := a + Placeholder(k) + b;
    var p := Placeholder(k);
    forall j | |a| + |p| <= j <= |s|
      ensures !OccursAt(s, p, j)
    {
      if j + |p| <= |s| {
        assert s[j] == b[j - |a| - |p|];
        Differs(s, p, j, 0);
      }
    }
  }

  /** The template after the first `n` passes of the `forEach`. */
  function Substituted(template: string, vars: Vars, n: nat): string
    requires n <= |vars|
  {
    if n == 0 then template
    else ReplaceAll(Substituted(template, vars, n - 1), Placeholder(vars[n - 1].0), Text(vars[n - 1].1))
  }

  /** A template holding no placeholder of any key passes through the substitution unchanged. */
  lemma {:induction false} SubstitutedUntouched(template: string, vars: Vars, n: nat)
    requires n <= |vars|
    requires forall i | 0 <= i < |vars| :: !Contains(template, Placeholder(vars[i].0))
    ensures Substituted(template, vars, n) == template
  {
    if n > 0 {
      SubstitutedUntouched(template, vars, n - 1);
      ReplaceAllAbsent(template, Placeholder(vars[n - 1].0), Text(vars[n - 1].1));
    }
  }

  /** The state after `n` passes over a template whose only placeholder is that of `k`. */
  lemma {:induction false} PlaceholderPasses(a: string, k: string, b: string, vars: Vars, n: nat)
    requires n <= |vars|
    requires BraceFree(a) && BraceFree(b) && IsWord(k)
    requires forall i | 0 <= i < |vars| :: IsWord(vars[i].0)
    requires Lookup(vars, k).Some?
    requires forall i | 0 <= i < |vars| ::
               !Contains(a + Text(Lookup(vars, k).value) + b, Placeholder(vars[i].0))
    ensures (forall i | 0 <= i < n :: vars[i].0 != k) ==>
              Substituted(a + Placeholder(k) + b, vars, n) == a + Placeholder(k) + b
    ensures (exists i | 0 <= i < n :: vars[i].0 == k) ==>
              Substituted(a + Placeholder(k) + b, vars, n) == a + Text(Lookup(vars, k).value) + b
  {
    if n > 0 {
      PlaceholderPasses(a, k, b, vars, n - 1);
      var key := vars[n - 1].0;
      var done := a + Text(Lookup(vars, k).value) + b;
      if exists i | 0 <= i < n - 1 :: vars[i].0 == k {
        ReplaceAllAbsent(done, Placeholder(key), Text(vars[n - 1].1));
      } else if key == k {
        LookupFirst(vars, k, n - 1);
        ValueInsertedVerbatim(a, k, b, Text(vars[n - 1].1));
      } else {
        OnlyItsOwnPlaceholder(a, k, b, key);
        ReplaceAllAbsent(a + Placeholder(k) + b, Placeholder(key), Text(vars[n - 1].1));
      }
    }
  }

  /**
   * Every `{{key}}` of a key in `vars` is replaced by `String(value)`: a
   * template whose one placeholder is `{{k}}` comes out with `k`'s value in
   * its place, provided no value brings a placeholder of its own.
   */
  lemma PlaceholderReplaced(a: string, k: string, b: string, vars: Vars)
    requires BraceFree(a) && BraceFree(b) && IsWord(k)
    requires forall i | 0 <= i < |vars| :: IsWord(vars[i].0)
    requires Lookup(vars, k).Some?
    requires forall i | 0 <= i < |vars| ::
               !Contains(a + Text(Lookup(vars, k).value) + b, Placeholder(vars[i].0))
    ensures Substituted(a + Placeholder(k) + b, vars, |vars|) == a + Text(Lookup(vars, k).value) + b
  {
    if forall i | 0 <= i < |vars| :: vars[i].0 != k {
      LookupFirst(vars, k, |vars|);
    }
    PlaceholderPasses(a, k, b, vars, |vars|);
  }

  // ---- {{#if name}}…{{/if}} ----

  const IfOpen := "{{#if "
  const TagEnd := "}}"
  const IfClose := "{{/if}}"

  /** The length of the run of `\w` characters `s` starts with. */
  function WordRun(s: string): (k: nat)
    ensures k <= |s|
  {
    if s != [] && IsAsciiWordChar(s[0]) then 1 + WordRun(s[1..]) else 0
  }

  lemma {:induction false} WordRunOf(w: string, t: string)
    requires forall i | 0 <= i < |w| :: IsAsciiWordChar(w[i])
    requires t != [] && !IsAsciiWordChar(t[0])
    ensures WordRun(w + t) == |w|
  {
    if w != [] {
      assert (w + t)[1..] == w[1..] + t;
      WordRunOf(w[1..], t);
    }
  }

  /** The index of the first occurrence of `p` in `s`. */
  function IndexOf(s: string, p: string): (r: Option<nat>)
    ensures r.Some? ==> r.value + |p| <= |s|
    decreases |s|
  {
    if |s| < |p| then None
    else if s[..|p|] == p then Some(0)
    else match IndexOf(s[1..], p)
      case Some(j) => Some(j + 1)
      case None => None
  }

  /** `IndexOf` finds the first occurrence there is. */
  lemma {:induction false} IndexOfFirst(s: string, p: string, k: nat)
    requires OccursAt(s, p, k)
    requires forall j | 0 <= j < k :: !OccursAt(s, p, j)
    ensures IndexOf(s, p) == Some(k)
  {
    if k > 0 {
      assert s[..|p|] != p by {
        assert !OccursAt(s, p, 0);
      }
      ShiftFirst(s, p, k);
      IndexOfFirst(s[1..], p, k - 1);
    }
  }

  /** One `{{#if name}}body{{/if}}` match, `size` characters long. */
  datatype Block = Block(name: string, body: string, size: nat)

  /**
   * The match of `/{{#if (\w+)}}([\s\S]*?){{\/if}}/` at the start of `s`.
   * `\w+` cannot give back characters to make `}}` match, and the lazy body
   * ends at the first `{{/if}}`.
   */
  function BlockAt(s: string): (r: Option<Block>)
    ensures r.Some? ==> |IfOpen| <= r.value.size <= |s|
  {
    if StartsWith(s, IfOpen) then NamedBlock(s[|IfOpen|..]) else None
  }

  /** The rest of a block after `{{#if `: the name, `}}`, and the body up to the first `{{/if}}`. */
  function NamedBlock(rest: string): (r: Option<Block>)
    ensures r.Some? ==> |IfOpen| <= r.value.size <= |rest| + |IfOpen|
  {
    var k := WordRun(rest);
    if k == 0 || !StartsWith(rest[k..], TagEnd) then None
    else BlockBody(rest[..k], rest[k + |TagEnd|..])
  }

  /** The body of the block named `name`, up to the first `{{/if}}` of `inner`. */
  function BlockBody(name: string, inner: string): (r: Option<Block>)
    ensures r.Some? ==> r.value.size == |IfOpen| + |name| + |TagEnd| + |r.value.body| + |IfClose|
    ensures r.Some? ==> |r.value.body| + |IfClose| <= |inner|
  {
    match IndexOf(inner, IfClose)
    case None => None
    case Some(j) => Some(Block(name, inner[..j], |IfOpen| + |name| + |TagEnd| + j + |IfClose|))
  }

  /** The conditional pass: each block is replaced by its body or by nothing, as its name holds. */
  function Conditionals(s: string, vars: Vars): string
    decreases |s|
  {
    if s == [] then []
    else match BlockAt(s)
      case Some(b) => (if Holds(vars, b.name) then b.body else []) + Conditionals(s[b.size..], vars)
      case None => [s[0]] + Conditionals(s[1..], vars)
  }

  /** `{{/if}}` cannot overlap itself, so a body without it ends right before the first one. */
  lemma CloseNotStraddled(body: string, tail: string)
    requires !Contains(body, IfClose)
    ensures forall j | 0 <= j < |body| :: !OccursAt(body + IfClose + tail, IfClose, j)
  {
    var s := body + IfClose + tail;
    forall j | 0 <= j < |body|
      ensures !OccursAt(s, IfClose, j)
    {
      if j + |IfClose| <= |body| {
        assert body[j..j + |IfClose|] == s[j..j + |IfClose|];
        assert !OccursAt(body, IfClose, j);
      } else if j + |IfClose| <= |s| {
        var d := |body| - j;
        assert s[|body|] == '{' && s[|body| + 1] == '{';
        if d == 1 {
          Differs(s, IfClose, j, 2);
        } else {
          Differs(s, IfClose, j, d);
        }
      }
    }
  }

  /**
   * `{{#if name}}body{{/if}}` becomes `body` when `vars[name]` is truthy
   * and nothing otherwise, and the scan goes on after the block's first
   * `{{/if}}`; there is no nesting.
   */
  lemma BlockReplaced(name: string, body: string, rest: string, vars: Vars)
    requires IsWord(name) && !Contains(body, IfClose)
    ensures Conditionals(IfOpen + name + TagEnd + body + IfClose + rest, vars)
         == (if Holds(vars, name) then body else "") + Conditionals(rest, vars)
  {
    var s := IfOpen + name + TagEnd + body + IfClose + rest;
    var b := Block(name, body, |IfOpen| + |name| + |TagEnd| + |body| + |IfClose|);
    BlockShape(name, body, rest);
    assert s[b.size..] == rest;
    ConditionalsAtBlock(s, b, vars);
  }

  /** The block at the head of `s` is settled and the scan resumes after it. */
  lemma ConditionalsAtBlock(s: string, b: Block, vars: Vars)
    requires BlockAt(s) == Some(b)
    ensures Conditionals(s, vars) == (if Holds(vars, b.name) then b.body else []) + Conditionals(s[b.size..], vars)
  {
  }

  /** `{{#if name}}body{{/if}}rest` opens with the block of `name` and `body`. */
  lemma BlockShape(name: string, body: string, rest: string)
    requires IsWord(name) && !Contains(body, IfClose)
    ensures BlockAt(IfOpen + name + TagEnd + body + IfClose + rest)
         == Some(Block(name, body, |IfOpen| + |name| + |TagEnd| + |body| + |IfClose|))
  {
    var s := IfOpen + name + TagEnd + body + IfClose + rest;
    var tail := name + TagEnd + body + IfClose + rest;
    assert s == IfOpen + tail;
    assert s[..|IfOpen|] == IfOpen && s[|IfOpen|..] == tail;
    assert tail == name + TagEnd + (body + IfClose + rest);
    NameShape(name, body + IfClose + rest);
    BodyShape(name, body, rest);
  }

  /** After `{{#if `, a plain name and `}}` lead on to the body. */
  lemma NameShape(name: string, inner: string)
    requires IsWord(name)
    ensures NamedBlock(name + TagEnd + inner) == BlockBody(name, inner)
  {
    var rest := name + TagEnd + inner;
    assert rest == name + (TagEnd + inner);
    WordRunOf(name, TagEnd + inner);
    assert rest[..|name|] == name;
    assert rest[|name|..] == TagEnd + inner;
    assert rest[|name|..][..|TagEnd|] == TagEnd;
    assert rest[|name| + |TagEnd|..] == inner;
  }

  /** The body runs to the first `{{/if}}`. */
  lemma BodyShape(name: string, body: string, rest: string)
    requires !Contains(body, IfClose)
    ensures BlockBody(name, body + IfClose + rest)
         == Some(Block(name, body, |IfOpen| + |name| + |TagEnd| + |body| + |IfClose|))
  {
    var inner := body + IfClose + rest;
    assert inner[|body|..|body| + |IfClose|] == IfClose;
    CloseNotStraddled(body, rest);
    IndexOfFirst(inner, IfClose, |body|);
    assert inner[..|body|] == body;
  }

  /** A text with no `{{#if ` in it passes through the conditional pass unchanged. */
  lemma {:induction false} NoBlocksUntouched(s: string, vars: Vars)
    requires !Contains(s, IfOpen)
    ensures Conditionals(s, vars) == s
    decreases |s|
  {
    if s != [] {
      assert !OccursAt(s, IfOpen, 0);
      forall i | 0 <= i <= |s[1..]|
        ensures !OccursAt(s[1..], IfOpen, i)
      {
        DroppedOccurrence(s, IfOpen, 1, i);
      }
      NoBlocksUntouched(s[1..], vars);
    }
  }

  lemma NoBlockHere(s: string)
    requires !OccursAt(s, IfOpen, 0)
    ensures BlockAt(s) == None
  {
  }

  /** Text before the first `{{#if ` is copied as it is. */
  lemma {:induction false} TextBeforeBlocks(a: string, t: string, vars: Vars)
    requires forall j | 0 <= j < |a| :: !OccursAt(a + t, IfOpen, j)
    ensures Conditionals(a + t, vars) == a + Conditionals(t, vars)
    decreases |a|
  {
    if a != [] {
      NoBlockHere(a + t);
      assert Conditionals(a + t, vars) == [a[0]] + Conditionals((a + t)[1..], vars);
      assert (a + t)[1..] == a[1..] + t;
      forall j | 0 <= j < |a[1..]|
        ensures !OccursAt(a[1..] + t, IfOpen, j)
      {
        DroppedOccurrence(a + t, IfOpen, 1, j);
      }
      TextBeforeBlocks(a[1..], t, vars);
      assert [a[0]] + (a[1..] + Conditionals(t, vars)) == a + Conditionals(t, vars);
    } else {
      assert a + t == t;
    }
  }

  /** A name that is no key and nothing an object inherits is falsy: its block vanishes. */
  lemma UnknownNameVanishes(name: string, body: string, rest: string, vars: Vars)
    requires IsWord(name) && !Contains(body, IfClose)
    requires forall i | 0 <= i < |vars| :: vars[i].0 != name
    requires !FinalSlide.Inherited(name)
    ensures Conditionals(IfOpen + name + TagEnd + body + IfClose + rest, vars) == Conditionals(rest, vars)
  {
    LookupFirst(vars, name, |vars|);
    BlockReplaced(name, body, rest, vars);
  }

  /**
   * `vars.constructor` and the other members of `Object.prototype` are
   * truthy, so a block on such a name keeps its body even though no
   * variable has that name.
   */
  lemma InheritedNameKeepsBody(body: string, rest: string, vars: Vars)
    requires !Contains(body, IfClose)
    requires forall i | 0 <= i < |vars| :: vars[i].0 != "constructor"
    ensures Conditionals(IfOpen + "constructor" + TagEnd + body + IfClose + rest, vars)
         == body + Conditionals(rest, vars)
  {
    LookupFirst(vars, "constructor", |vars|);
    BlockReplaced("constructor", body, rest, vars);
  }

  // ---- replaceTemplateVariables ----

  /** The rendering: every variable substituted, then the conditional blocks settled. */
  function RenderTemplate(template: string, vars: Vars): string
  {
    Conditionals(Substituted(template, vars, |vars|), vars)
  }

  /** `replaceTemplateVariables`: one replace per entry in turn, then the conditional replace. */
  method ReplaceTemplateVariables(template: string, vars: Vars) returns (html: string)
    ensures html == RenderTemplate(template, vars)
  {
    html := template;
    for i := 0 to |vars|
      invariant html == Substituted(template, vars, i)
    {
      var (key, value) := vars[i];
      html := ReplaceAll(html, Placeholder(key), Text(value));
    }
    html := Conditionals(html, vars);
  }

  /**
   * Substitution runs before the conditionals: a value that holds a block
   * is itself settled by the conditional pass, on the name's truthiness.
   */
  lemma ValuesSettledByConditionals(key: string, name: string, body: string)
    requires IsWord(name) && !Contains(body, IfClose)
    ensures var vars := [(key, Str(IfOpen + name + TagEnd + body + IfClose))];
            RenderTemplate(Placeholder(key), vars) == (if Holds(vars, name) then body else "")
  {
    var v := IfOpen + name + TagEnd + body + IfClose;
    var vars := [(key, Str(v))];
    var p := Placeholder(key);
    WholePattern(p, v);
    assert Substituted(p, vars, 1) == v;
    BlockReplaced(name, body, [], vars);
    assert v + [] == v;
  }

  // ---- as the source calls replace ----

  /**
   * The replacement string of `String.prototype.replace` as the ECMAScript
   * GetSubstitution operation reads it for a pattern without capture groups:
   * `$$` is `$`, `$&` the match, `` $` `` the text before it and `$'` the
   * text after it; every other character is itself.
   */
  function Expand(r: string, matched: string, before: string, after: string): string
    decreases |r|
  {
    if r == [] then []
    else if r[0] == '$' && |r| >= 2 && r[1] in "$&`'" then
      (if r[1] == '$' then "$" else if r[1] == '&' then matched else if r[1] == '`' then before else after)
      + Expand(r[2..], matched, before, after)
    else [r[0]] + Expand(r[1..], matched, before, after)
  }

  /** `s.replace(/p/g, r)` with the string `r`, from index `i` on, as the source calls it. */
  function ReplaceFrom(s: string, p: string, r: string, i: nat): string
    requires p != [] && i <= |s|
    decreases |s| - i
  {
    if |s| - i < |p| then s[i..]
    else if s[i..i + |p|] == p then Expand(r, p, s[..i], s[i + |p|..]) + ReplaceFrom(s, p, r, i + |p|)
    else [s[i]] + ReplaceFrom(s, p, r, i + 1)
  }

  function ReplaceAllAsWritten(s: string, p: string, r: string): string
    requires p != []
  {
    ReplaceFrom(s, p, r, 0)
  }

  lemma {:induction false} ExpandPlain(a: string, r: string, matched: string, before: string, after: string)
    requires forall i | 0 <= i < |a| :: a[i] != '$'
    ensures Expand(a + r, matched, before, after) == a + Expand(r, matched, before, after)
  {
    if a != [] {
      assert (a + r)[0] == a[0] != '$';
      assert (a + r)[1..] == a[1..] + r;
      ExpandPlain(a[1..], r, matched, before, after);
      assert [a[0]] + (a[1..] + Expand(r, matched, before, after)) == a + Expand(r, matched, before, after);
    } else {
      assert a + r == r;
    }
  }

  /** `$$` in a value otherwise free of dollar signs comes out as one `$`. */
  lemma ExpandDoubleDollar(a: string, b: string, matched: string)
    requires forall i | 0 <= i < |a| :: a[i] != '$'
    requires forall i | 0 <= i < |b| :: b[i] != '$'
    ensures Expand(a + "$$" + b, matched, [], []) == a + "$" + b
  {
    assert a + "$$" + b == a + ("$$" + b);
    ExpandPlain(a, "$$" + b, matched, [], []);
    assert ("$$" + b)[2..] == b + [];
    ExpandPlain(b, [], matched, [], []);
    assert b + [] == b;
  }

  /** A text that is exactly the pattern is replaced by the expanded replacement. */
  lemma WholeMatch(p: string, r: string)
    requires p != []
    ensures ReplaceAllAsWritten(p, p, r) == Expand(r, p, [], [])
  {
    assert p[0..|p|] == p && p[..0] == [] && p[|p|..] == [];
    assert ReplaceFrom(p, p, r, 0) == Expand(r, p, [], []) + ReplaceFrom(p, p, r, |p|);
  }

  /**
   * A value holding `$$` loses a dollar sign when the source substitutes it,
   * and a value `$&` puts the placeholder itself back; `ReplaceAll` inserts
   * both as they are.
   */
  lemma DollarPatternsExpand(key: string, a: string, b: string)
    requires forall i | 0 <= i < |a| :: a[i] != '$'
    requires forall i | 0 <= i < |b| :: b[i] != '$'
    ensures ReplaceAllAsWritten(Placeholder(key), Placeholder(key), a + "$$" + b) == a + "$" + b
    ensures ReplaceAllAsWritten(Placeholder(key), Placeholder(key), "$&") == Placeholder(key)
    ensures ReplaceAll(Placeholder(key), Placeholder(key), a + "$$" + b) == a + "$$" + b
  {
    var p := Placeholder(key);
    DoubleDollarAsWritten(p, a, b);
    AmpersandAsWritten(p);
    WholePattern(p, a + "$$" + b);
  }

  /** A text that is exactly the pattern becomes the replacement. */
  lemma WholePattern(p: string, v: string)
    requires p != []
    ensures ReplaceAll(p, p, v) == v
  {
    assert p[0..|p|] == p && p[|p|..] == [];
    assert ReplaceAll(p, p, v) == v + ReplaceAt(p, p, v, |p|);
    assert v + [] == v;
  }

  lemma DoubleDollarAsWritten(p: string, a: string, b: string)
    requires p != []
    requires forall i | 0 <= i < |a| :: a[i] != '$'
    requires forall i | 0 <= i < |b| :: b[i] != '$'
    ensures ReplaceAllAsWritten(p, p, a + "$$" + b) == a + "$" + b
  {
    WholeMatch(p, a + "$$" + b);
    ExpandDoubleDollar(a, b, p);
  }

  lemma AmpersandAsWritten(p: string)
    requires p != []
    ensures ReplaceAllAsWritten(p, p, "$&") == p
  {
    WholeMatch(p, "$&");
    assert Expand("$&", p, [], []) == p + Expand([], p, [], []);
    assert p + [] == p;
  }

  // ---- generateSlideHTML and generateSlideContent ----

  /** The fields of a slide the renderer reads; `kind` is `slide.type`, any string. */
  datatype Slide = Slide(kind: string, title: Option<string>, text: Option<string>, color: string,
                         showAbstraction: Option<bool>, size: Option<string>)

  /** `slide.title ?`: present and not empty. */
  predicate Given(o: Option<string>)
  {
    o.Some? && o.value != ""
  }

  const InvalidSlide := "<p>Invalid slide type</p>"

  /** `generateSlideContent`: `inline` is `marked.parseInline`, `block` is `marked`. */
  function Content(slide: Slide, inline: string -> string, block: string -> string): (r: string)
    ensures slide.kind != "intro" && slide.kind != "text" && slide.kind != "quote" ==> r == InvalidSlide
    ensures slide.kind == "intro" && !Given(slide.title) && !Given(slide.text) ==> r == ""
  {
    if slide.kind == "intro" then
      (if Given(slide.title) then "<h1>" + inline(slide.title.value) + "</h1>" else "")
      + (if Given(slide.text) then "<p>" + inline(slide.text.value) + "</p>" else "")
    else if slide.kind == "text" then
      (if Given(slide.title) then "<h2>" + inline(slide.title.value) + "</h2>" else "")
      + (if Given(slide.text) then block(slide.text.value) else "")
    else if slide.kind == "quote" then
      var quoteClass := if Given(slide.size) then "quote--" + slide.size.value else "quote--large";
      QuoteOpen + quoteClass + "\">"
      + (if Given(slide.text) then block(slide.text.value) else "") + "</div>"
    else InvalidSlide
  }

  const QuoteOpen := "<div class=\"quote-content "

  /** A quote is one `quote-content` division whose class is its size, large when it has none. */
  lemma QuoteWrapped(slide: Slide, inline: string -> string, block: string -> string)
    requires slide.kind == "quote"
    ensures var r := Content(slide, inline, block);
            var quoteClass := if Given(slide.size) then "quote--" + slide.size.value else "quote--large";
            StartsWith(r, QuoteOpen + quoteClass + "\">") && EndsWith(r, "</div>")
  {
    var quoteClass := if Given(slide.size) then "quote--" + slide.size.value else "quote--large";
    var head := QuoteOpen + quoteClass + "\">";
    var inside := if Given(slide.text) then block(slide.text.value) else "";
    assert Content(slide, inline, block) == head + inside + "</div>";
    assert (head + inside + "</div>")[..|head|] == head;
    assert (head + inside + "</div>")[|head| + |inside|..] == "</div>";
  }

  /** `settings.style || 'default'` */
  function StyleOf(style: Option<CarouselSchema.StyleType>): (r: CarouselSchema.StyleType)
    ensures style.None? ==> r == CarouselSchema.DefaultStyle
  {
    if style.Some? then style.value else CarouselSchema.DefaultStyle
  }

  predicate Shaped(slide: Slide)
  {
    slide.kind == "intro" || slide.kind == "quote"
  }

  /** `showShapeOne`: intro and quote slides, unless `showAbstraction` is exactly `false`. */
  predicate ShowShapeOne(slide: Slide)
  {
    Shaped(slide) && slide.showAbstraction != Some(false)
  }

  /** `showShapeTwo`: the same test, on the bright style only. */
  predicate ShowShapeTwo(slide: Slide, style: CarouselSchema.StyleType)
  {
    Shaped(slide) && CarouselSchema.StyleName(style) == "bright" && slide.showAbstraction != Some(false)
  }

  /**
   * The second shape is the first one on the bright style and never without
   * it, and a missing `showAbstraction` counts as `true`.
   */
  lemma ShapeFlags(slide: Slide, style: CarouselSchema.StyleType)
    ensures ShowShapeTwo(slide, style) <==> ShowShapeOne(slide) && style == CarouselSchema.Bright
    ensures slide.showAbstraction.None? ==> (ShowShapeOne(slide) <==> Shaped(slide))
    ensures slide.showAbstraction == Some(false) ==> !ShowShapeOne(slide) && !ShowShapeTwo(slide, style)
  {
  }

  /** `key: value` pairs of the colour scheme joined by `; `. */
  function CssText(css: seq<(string, string)>): string
  {
    Join(MapSeq(css, (kv: (string, string)) => kv.0 + ": " + kv.1), "; ")
  }

  /** `templateVars`, in the order its object literal lists them. */
  function SlideVars(slide: Slide, slideNumber: int, totalSlides: int, style: CarouselSchema.StyleType,
                     css: seq<(string, string)>, shapeOne: string, shapeTwo: string, content: string): (r: Vars)
    ensures |r| == |SlideKeys| && forall j | 0 <= j < |r| :: r[j].0 == SlideKeys[j]
  {
    [("colorClass", Str("color--" + slide.color)),
     ("styleClass", Str("style--" + CarouselSchema.StyleName(style))),
     ("cssVariables", Str(CssText(css))),
     ("slideType", Str(slide.kind)),
     ("slideNumber", Num(slideNumber)),
     ("totalSlides", Num(totalSlides)),
     ("showShapeOne", Bool(ShowShapeOne(slide))),
     ("showShapeTwo", Bool(ShowShapeTwo(slide, style))),
     ("shapeOne", Str(shapeOne)),
     ("shapeTwo", Str(shapeTwo)),
     ("content", Str(content)),
     ("showArrow", Bool(slideNumber < totalSlides))]
  }

  /** What the template's conditionals see: the shape flags, and an arrow on every slide but the last. */
  lemma SlideConditions(slide: Slide, slideNumber: int, totalSlides: int, style: CarouselSchema.StyleType,
                        css: seq<(string, string)>, shapeOne: string, shapeTwo: string, content: string)
    ensures var vars := SlideVars(slide, slideNumber, totalSlides, style, css, shapeOne, shapeTwo, content);
            && (Holds(vars, "showArrow") <==> slideNumber < totalSlides)
            && (Holds(vars, "showShapeOne") <==> ShowShapeOne(slide))
            && (Holds(vars, "showShapeTwo") <==> ShowShapeTwo(slide, style))
            && (Holds(vars, "content") <==> content != "")
  {
    var vars := SlideVars(slide, slideNumber, totalSlides, style, css, shapeOne, shapeTwo, content);
    SlideEntry(vars, "showArrow", 11);
    SlideEntry(vars, "showShapeOne", 6);
    SlideEntry(vars, "showShapeTwo", 7);
    SlideEntry(vars, "content", 10);
  }

  /** The names of `templateVars`, in order. */
  const SlideKeys := ["colorClass", "styleClass", "cssVariables", "slideType", "slideNumber", "totalSlides",
                      "showShapeOne", "showShapeTwo", "shapeOne", "shapeTwo", "content", "showArrow"]

  /** Each name of `templateVars` is looked up at its own entry. */
  lemma SlideEntry(vars: Vars, key: string, i: nat)
    requires |vars| == |SlideKeys| && forall j | 0 <= j < |vars| :: vars[j].0 == SlideKeys[j]
    requires i < |vars| && SlideKeys[i] == key
    ensures Lookup(vars, key) == Some(vars[i].1)
  {
    forall j | 0 <= j < i
      ensures vars[j].0 != key
    {
      assert SlideKeys[j] != SlideKeys[i];
    }
    LookupFirst(vars, key, i);
  }

  /** The arrow block of a slide's template is kept exactly when the slide is not the last one. */
  lemma ArrowOnAllButLast(slide: Slide, slideNumber: int, totalSlides: int, style: CarouselSchema.StyleType,
                          css: seq<(string, string)>, shapeOne: string, shapeTwo: string, content: string,
                          body: string, rest: string)
    requires !Contains(body, IfClose)
    ensures var vars := SlideVars(slide, slideNumber, totalSlides, style, css, shapeOne, shapeTwo, content);
            Conditionals(IfOpen + "showArrow" + TagEnd + body + IfClose + rest, vars)
            == (if slideNumber < totalSlides then body else "") + Conditionals(rest, vars)
  {
    var vars := SlideVars(slide, slideNumber, totalSlides, style, css, shapeOne, shapeTwo, content);
    SlideConditions(slide, slideNumber, totalSlides, style, css, shapeOne, shapeTwo, content);
    BlockReplaced("showArrow", body, rest, vars);
  }

  /** A shape drawn only when its flag is set, from the pool seed the caller drew. */
  function ShapeSvg(shown: bool, style: CarouselSchema.StyleType, randomSeed: int, polar: PatternGenerator.Polar): string
  {
    if shown then PatternGenerator.PatternSvg(PatternGenerator.StyleConfig(style), randomSeed, polar) else ""
  }

  /**
   * `generateSlideHTML`: the shapes are drawn with `generatePattern(style)`
   * under the two pool seeds `seedOne` and `seedTwo`, and the base template
   * is rendered with `templateVars`.
   */
  method GenerateSlideHtml(template: string, slide: Slide, slideNumber: int, totalSlides: int,
                           settingsStyle: Option<CarouselSchema.StyleType>, css: seq<(string, string)>,
                           seedOne: int, seedTwo: int, polar: PatternGenerator.Polar,
                           inline: string -> string, block: string -> string) returns (html: string)
    ensures var style := StyleOf(settingsStyle);
            html == RenderTemplate(template,
                      SlideVars(slide, slideNumber, totalSlides, style, css,
                                ShapeSvg(ShowShapeOne(slide), style, seedOne, polar),
                                ShapeSvg(ShowShapeTwo(slide, style), style, seedTwo, polar),
                                Content(slide, inline, block)))
  {
    var style := StyleOf(settingsStyle);
    var shapeOne := "";
    if ShowShapeOne(slide) {
      shapeOne := PatternGenerator.GeneratePattern(style, None, seedOne, polar);
    }
    var shapeTwo := "";
    if ShowShapeTwo(slide, style) {
      shapeTwo := PatternGenerator.GeneratePattern(style, None, seedTwo, polar);
    }
    var content := Content(slide, inline, block);
    html := ReplaceTemplateVariables(template,
              SlideVars(slide, slideNumber, totalSlides, style, css, shapeOne, shapeTwo, content));
  }
}
