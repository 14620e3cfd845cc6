/**
 * `PatternGenerator` of src/core/patternGenerator.ts: the seeded
 * multiply-with-carry generator, the evenly spaced angles, the radius each
 * point is drawn at, the closed quadratic SVG path through the points and
 * the per-style configurations.  `Math.random`, the shuffled seed pool and
 * the trigonometry of `polarToCartesian` are parameters.
 */
module PatternGenerator {
  import opened Common
  import CarouselSchema

  // ---- the seeded generator ----

  const Two16 := 65536
  const Two32 := 4294967296

  /** The generator's 32-bit words `m_w` and `m_z`, as unsigned bit patterns. */
  datatype State = State(w: nat, z: nat)

  predicate ValidState(s: State)
  {
    s.w < Two32 && s.z < Two32
  }

  /** `(123456789 + seed) & mask` and `(987654321 - seed) & mask`: the low 32 bits of each. */
  function InitState(seed: int): (s: State)
    ensures ValidState(s)
  {
    State((123456789 + seed) % Two32, (987654321 - seed) % Two32)
  }

  /** One multiply-with-carry step of a word: `mult * (x & 65535) + (x >>> 16)`, which never exceeds 32 bits. */
  function Mwc(x: nat, mult: nat): (r: nat)
    requires x < Two32 && mult <= 36969
    ensures r < Two32
  {
    mult * (x % Two16) + x / Two16
  }

  /** Both words advanced once, `m_z` with 36969 and `m_w` with 18000. */
  function Step(s: State): (t: State)
    requires ValidState(s)
    ensures ValidState(t)
  {
    State(Mwc(s.w, 18000), Mwc(s.z, 36969))
  }

  /** `((m_z << 16) + (m_w & 65535)) >>> 0`: the low half of `m_z` over the low half of `m_w`. */
  function Word(s: State): (r: nat)
    requires ValidState(s)
    ensures r < Two32
  {
    (s.z % Two16) * Two16 + s.w % Two16
  }

  /** The value a call returns: the word divided by 2^32, which a double holds exactly. */
  function Value(s: State): (r: real)
    requires ValidState(s)
    ensures 0.0 <= r < 1.0
  {
    Word(s) as real / Two32 as real
  }

  /** The state after `k` calls. */
  function StateAfter(s: State, k: nat): (t: State)
    requires ValidState(s)
    ensures ValidState(t)
  {
    if k == 0 then s else Step(StateAfter(s, k - 1))
  }

  /** The first `n` values drawn from state `s`. */
  function Stream(s: State, n: nat): (r: seq<real>)
    requires ValidState(s)
    ensures |r| == n
  {
    if n == 0 then [] else Stream(s, n - 1) + [Value(StateAfter(s, n))]
  }

  /** The closure `createSeededRandom(seed)` returns, with its two captured words. */
  class SeededRandom {
    var w: nat
    var z: nat

    function Current(): State
      reads this
    {
      State(w, z)
    }

    constructor(seed: int)
      ensures Current() == InitState(seed)
    {
      var s := InitState(seed);
      w, z := s.w, s.z;
    }

    /** One call: both words step, and the new words give the value. */
    method Next() returns (r: real)
      requires ValidState(Current())
      modifies this
      ensures ValidState(Current()) && Current() == Step(old(Current()))
      ensures r == Value(Current()) && 0.0 <= r < 1.0
    {
      z := Mwc(z, 36969) % Two32;
      w := Mwc(w, 18000) % Two32;
      r := Value(Current());
    }
  }

  /** Drawing more values does not change the earlier ones. */
  lemma {:induction false} StreamPrefix(s: State, n: nat, k: nat)
    requires ValidState(s) && k <= n
    ensures Stream(s, n)[..k] == Stream(s, k)
    decreases n
  {
    if k < n {
      StreamPrefix(s, n - 1, k);
      assert Stream(s, n)[..n - 1] == Stream(s, n - 1);
      assert Stream(s, n)[..k] == Stream(s, n)[..n - 1][..k];
    } else {
      assert Stream(s, n)[..n] == Stream(s, n);
    }
  }

  /** Seeds that agree modulo 2^32 give the same generator, as the mask keeps only 32 bits. */
  lemma SeedsModulo(seed: int)
    ensures InitState(seed) == InitState(seed + Two32)
  {
    WordPeriod(123456789 + seed);
    WordPeriod(987654321 - seed - Two32);
  }

  /** Adding 2^32 does not change the low 32 bits. */
  lemma WordPeriod(a: int)
    ensures (a + Two32) % Two32 == a % Two32
  {
    var q, r := a / Two32, a % Two32;
    assert a == q * Two32 + r;
    assert a + Two32 == (q + 1) * Two32 + r;
  }

  /** The first value of seed 0, the seed an unseeded run uses when `Math.random` rounds down to 0. */
  lemma SeedZeroFirstWord()
    ensures InitState(0) == State(123456789, 987654321)
    ensures Step(InitState(0)) == State(18000 * 52501 + 1883, 36969 * 26801 + 15070)
  {
  }

  // ---- angles and radii ----

  /** `generateAngles(edgeCount)`: `index * (360 / edgeCount)`, in exact arithmetic. */
  function Angles(edges: nat): (r: seq<real>)
    ensures |r| == edges
    ensures forall i | 0 <= i < edges :: r[i] == i as real * (360.0 / edges as real)
  {
    seq(edges, i requires 0 <= i < edges => i as real * (360.0 / edges as real))
  }

  /** The angles start at 0, climb evenly and stay below a full turn. */
  lemma AnglesSpread(edges: nat)
    requires edges > 0
    ensures Angles(edges)[0] == 0.0
    ensures forall i | 0 <= i < edges - 1 :: Angles(edges)[i + 1] - Angles(edges)[i] == 360.0 / edges as real
    ensures forall i | 0 <= i < edges :: 0.0 <= Angles(edges)[i] < 360.0
  {
    var step := 360.0 / edges as real;
    assert step * edges as real == 360.0;
    forall i | 0 <= i < edges ensures 0.0 <= Angles(edges)[i] < 360.0 {
      assert Angles(edges)[i] == i as real * step;
      assert i as real * step < edges as real * step;
    }
  }

  /**
   * `randomVariation(randomFn, growth, baseRadius)` as written: the value is
   * at least `baseRadius`, so the first branch takes `baseRadius` off every
   * value but the one drawn at exactly 0.
   */
  function VariationAsWritten(value: real, growth: real, base: real): real
  {
    var variation := growth * (base / 10.0);
    var result := base + value * variation;
    if result > base then result - base else if result < base then result + base else result
  }

  /**
   * The radius the bounds check is evidently meant to produce: a value
   * between the inner radius `growth * base / 10` and the outer radius
   * `base`, wrapped back into that band if it ever leaves it.
   */
  function Radius(value: real, growth: real, base: real): real
  {
    var inner := growth * (base / 10.0);
    var result := inner + value * (base - inner);
    if result > base then result - inner else if result < inner then result + inner else result
  }

  /** A fraction of a non-negative amount is no more than the amount, and less when both are positive. */
  lemma FractionOf(a: real, b: real)
    requires 0.0 <= a <= 1.0 && b >= 0.0
    ensures 0.0 <= a * b <= b
    ensures a < 1.0 && b > 0.0 ==> a * b < b
    ensures a > 0.0 && b > 0.0 ==> a * b > 0.0
  {
    assert b - a * b == (1.0 - a) * b;
  }

  /** Every point lies in the band between the inner and the outer radius, so inside the view box. */
  lemma RadiusInBand(value: real, growth: real, base: real)
    requires 0.0 <= value < 1.0 && 0.0 <= growth <= 10.0 && base > 0.0
    ensures growth * (base / 10.0) <= Radius(value, growth, base) <= base
  {
    var tenth := base / 10.0;
    assert 10.0 * tenth == base;
    ScaleBound(growth, tenth, 10.0);
    var inner := growth * tenth;
    var span := base - inner;
    FractionOf(value, span);
    var result := inner + value * span;
    assert inner <= result <= base;
    assert Radius(value, growth, base) == result;
  }

  /** Scaling a non-negative amount by a smaller factor gives no more. */
  lemma ScaleBound(a: real, b: real, c: real)
    requires 0.0 <= a <= c && b >= 0.0
    ensures 0.0 <= a * b <= c * b
  {
    assert c * b - a * b == (c - a) * b;
  }

  /** As written, every radius drawn above 0 is `value * variation`: smaller than the variation itself. */
  lemma AsWrittenShrinksRadius(value: real, growth: real, base: real)
    requires 0.0 < value < 1.0 && growth > 0.0 && base > 0.0
    ensures VariationAsWritten(value, growth, base) == value * (growth * (base / 10.0))
    ensures VariationAsWritten(value, growth, base) < growth * (base / 10.0)
  {
    var variation := growth * (base / 10.0);
    Positive(growth, base / 10.0);
    FractionOf(value, variation);
    assert value * variation > 0.0;
    assert VariationAsWritten(value, growth, base) == value * variation;
    assert value * variation < variation;
  }

  /** The product of two positive numbers is positive. */
  lemma Positive(a: real, b: real)
    requires a > 0.0 && b > 0.0
    ensures a * b > 0.0
  {
  }

  /** The default style's half size 240 and growth 3 at the value 0.5: 36 as written, 156 in the band. */
  lemma DefaultStyleAtHalf()
    ensures VariationAsWritten(0.5, 3.0, 240.0) == 36.0
    ensures Radius(0.5, 3.0, 240.0) == 156.0
  {
  }

  // ---- points and the path ----

  /** A point rounded by `polarToCartesian`. */
  datatype Point = Point(x: int, y: int)

  /** `seed || randomSeed`: a missing or zero seed takes the random one. */
  function ActualSeed(seed: Option<int>, randomSeed: int): (s: int)
    ensures seed.Some? && seed.value != 0 ==> s == seed.value
    ensures seed.None? || seed.value == 0 ==> s == randomSeed
  {
    if seed.Some? && seed.value != 0 then seed.value else randomSeed
  }

  /** `polarToCartesian(center, radius, angle)`: cosine, sine and rounding. */
  type Polar = (real, real, real) -> Point

  /** The points of `generatePoints`: one per angle, each at the radius its draw gives. */
  function PointsSpec(size: nat, growth: nat, edges: nat, seed: int, polar: Polar): (r: seq<Point>)
    ensures |r| == edges
  {
    var values := Stream(InitState(seed), edges);
    var angles := Angles(edges);
    seq(edges, i requires 0 <= i < edges =>
      polar(size as real / 2.0, Radius(values[i], growth as real, size as real / 2.0), angles[i]))
  }

  /** `generatePoints(size, growth, edges, seed)` */
  method GeneratePoints(size: nat, growth: nat, edges: nat, seed: Option<int>, randomSeed: int, polar: Polar)
    returns (points: seq<Point>, seedValue: int)
    ensures seedValue == ActualSeed(seed, randomSeed)
    ensures points == PointsSpec(size, growth, edges, seedValue, polar)
  {
    var radius := size as real / 2.0;
    var angles := Angles(edges);
    seedValue := ActualSeed(seed, randomSeed);
    var rng := new SeededRandom(seedValue);
    ghost var start := InitState(seedValue);
    points := [];
    for k := 0 to edges
      invariant rng.Current() == StateAfter(start, k)
      invariant |points| == k
      invariant forall i | 0 <= i < k :: points[i] == polar(radius, Radius(Stream(start, edges)[i], growth as real, radius), angles[i])
    {
      var value := rng.Next();
      StreamAt(start, edges, k);
      points := points + [polar(radius, Radius(value, growth as real, radius), angles[k])];
    }
  }

  /** The `k`-th value drawn is the one the state after `k + 1` steps gives. */
  lemma {:induction false} StreamAt(s: State, n: nat, k: nat)
    requires ValidState(s) && k < n
    ensures Stream(s, n)[k] == Value(StateAfter(s, k + 1))
    decreases n
  {
    if k < n - 1 {
      StreamAt(s, n - 1, k);
    }
  }

  /** A coordinate that may end in `.5`, held doubled: how `String` prints `t / 2`. */
  function HalfString(t: int): string
  {
    if t % 2 == 0 then IntToString(t / 2)
    else (if t < 0 then "-" else "") + NatToString(if t < 0 then (-t) / 2 else t / 2) + ".5"
  }

  /**
   * One command of the path.  A midpoint is held with doubled coordinates,
   * so that it stays an integer; `QuadTo` has the control point and the
   * doubled end point.
   */
  datatype Command = MoveTo(x2: int, y2: int) | QuadTo(cx: int, cy: int, x2: int, y2: int) | ClosePath

  /** How a template literal prints a command. */
  function Render(c: Command): string
  {
    match c
    case MoveTo(x2, y2) => "M" + HalfString(x2) + "," + HalfString(y2)
    case QuadTo(cx, cy, x2, y2) => "Q" + IntToString(cx) + "," + IntToString(cy) + "," + HalfString(x2) + "," + HalfString(y2)
    case ClosePath => "Z"
  }

  /** The commands printed one after the other. */
  function RenderAll(cs: seq<Command>): string
  {
    if cs == [] then "" else RenderAll(cs[..|cs| - 1]) + Render(cs[|cs| - 1])
  }

  /** `k % n` for the indices `i + 1` and `i + 2` of a loop over `n >= 2` points. */
  function Wrap(k: nat, n: nat): (r: nat)
    requires 0 < n && k < 2 * n
    ensures r < n
  {
    if k < n then k else k - n
  }

  /** `Wrap` is the remainder the source takes. */
  lemma WrapIsRemainder(k: nat, n: nat)
    requires 0 < n && k < 2 * n
    ensures Wrap(k, n) == k % n
  {
    if k >= n {
      assert k == 1 * n + (k - n);
    }
  }

  /** The quadratic segment of point `i`: the next point is the control point, the midpoint of the two after it the end. */
  function Segment(points: seq<Point>, i: nat): Command
    requires 2 <= |points| && i < |points|
  {
    var n := |points|;
    var next, after := points[Wrap(i + 1, n)], points[Wrap(i + 2, n)];
    QuadTo(next.x, next.y, next.x + after.x, next.y + after.y)
  }

  /** What `createSmoothPath` draws: a move to the first midpoint, one segment per point, and a close. */
  function Commands(points: seq<Point>): (cs: seq<Command>)
    ensures |points| < 3 ==> cs == []
    ensures |points| >= 3 ==> |cs| == |points| + 2
  {
    if |points| < 3 then []
    else
      [MoveTo(points[0].x + points[1].x, points[0].y + points[1].y)]
      + seq(|points|, i requires 0 <= i < |points| => Segment(points, i))
      + [ClosePath]
  }

  /** `createSmoothPath(points)` */
  function SmoothPath(points: seq<Point>): string
  {
    RenderAll(Commands(points))
  }

  /** The loop of `createSmoothPath`, appending to `path`. */
  method CreateSmoothPath(points: seq<Point>) returns (path: string)
    ensures path == SmoothPath(points)
  {
    if |points| < 3 {
      path := "";
    } else {
      OpenPath(points);
      path := Render(MoveTo(points[0].x + points[1].x, points[0].y + points[1].y));
      for i := 0 to |points|
        invariant path == RenderAll(Commands(points)[..i + 1])
      {
        AppendSegment(points, i);
        path := path + Render(Segment(points, i));
      }
      ClosedPath(points);
      path := path + Render(ClosePath);
    }
  }

  /** Printing one more command of a list appends its text. */
  lemma RenderPrefix(cs: seq<Command>, k: nat)
    requires k < |cs|
    ensures RenderAll(cs[..k + 1]) == RenderAll(cs[..k]) + Render(cs[k])
  {
    assert cs[..k + 1][..k] == cs[..k];
  }

  /** The first command printed alone is the move to the first midpoint. */
  lemma OpenPath(points: seq<Point>)
    requires 3 <= |points|
    ensures RenderAll(Commands(points)[..1]) == Render(MoveTo(points[0].x + points[1].x, points[0].y + points[1].y))
  {
    RenderPrefix(Commands(points), 0);
  }

  /** The full path is everything before the close, followed by the close. */
  lemma ClosedPath(points: seq<Point>)
    requires 3 <= |points|
    ensures RenderAll(Commands(points)) == RenderAll(Commands(points)[..|points| + 1]) + Render(ClosePath)
  {
    var cs := Commands(points);
    assert cs[|points| + 1] == ClosePath;
    RenderPrefix(cs, |points| + 1);
    assert cs[..|points| + 2] == cs;
  }

  /** The segment of point `i` is the next command printed. */
  lemma AppendSegment(points: seq<Point>, i: nat)
    requires 3 <= |points| && i < |points|
    ensures RenderAll(Commands(points)[..i + 2]) == RenderAll(Commands(points)[..i + 1]) + Render(Segment(points, i))
  {
    var cs := Commands(points);
    CommandAt(points, i);
    RenderPrefix(cs, i + 1);
  }

  /** The command after the move that belongs to point `i`. */
  lemma CommandAt(points: seq<Point>, i: nat)
    requires 3 <= |points| && i < |points|
    ensures Commands(points)[i + 1] == Segment(points, i)
  {
    var head := [MoveTo(points[0].x + points[1].x, points[0].y + points[1].y)];
    var mid := seq(|points|, j requires 0 <= j < |points| => Segment(points, j));
    assert Commands(points) == head + mid + [ClosePath];
    assert (head + mid + [ClosePath])[i + 1] == mid[i];
  }

  /**
   * The path is closed: the last segment ends at the midpoint the path
   * starts from, every segment ends at the midpoint the next one starts
   * from, and each point is the control point of exactly the segment before
   * it.
   */
  lemma PathCloses(points: seq<Point>)
    requires |points| >= 3
    ensures var cs, n := Commands(points), |points|;
            && cs[0] == MoveTo(points[0].x + points[1].x, points[0].y + points[1].y)
            && cs[n + 1] == ClosePath
            && cs[n].QuadTo? && cs[n].x2 == cs[0].x2 && cs[n].y2 == cs[0].y2
            && (forall i | 1 <= i <= n :: cs[i].QuadTo? && cs[i] == Segment(points, i - 1))
            && (forall i | 1 <= i < n :: cs[i].cx == points[i].x && cs[i].cy == points[i].y)
            && cs[n].cx == points[0].x && cs[n].cy == points[0].y
  {
    var cs, n := Commands(points), |points|;
    forall i | 1 <= i <= n
      ensures cs[i] == Segment(points, i - 1)
    {
    }
  }

  /** A printed path starts with the first command's text. */
  lemma {:induction false} RenderAllStarts(cs: seq<Command>)
    requires cs != []
    ensures RenderAll(cs) == Render(cs[0]) + RenderAll(cs[1..])
    decreases |cs|
  {
    if |cs| > 1 {
      var init := cs[..|cs| - 1];
      RenderAllStarts(init);
      assert init[1..] == cs[1..][..|cs[1..]| - 1];
      assert init[0] == cs[0];
    } else {
      assert cs[1..] == [];
      assert cs[..0] == [];
    }
  }

  /** A path of three or more points opens with `M` and closes with `Z`; fewer draw nothing. */
  lemma PathShape(points: seq<Point>)
    ensures |points| < 3 ==> SmoothPath(points) == ""
    ensures |points| >= 3 ==> var p := SmoothPath(points); |p| >= 2 && p[0] == 'M' && p[|p| - 1] == 'Z'
  {
    if |points| >= 3 {
      var cs := Commands(points);
      RenderAllStarts(cs);
      assert Render(cs[0])[0] == 'M';
      assert Render(cs[|cs| - 1]) == "Z";
    }
  }

  /** The halves print as they should: an even sum as an integer, an odd one with `.5`. */
  lemma HalfStrings()
    ensures HalfString(8) == "4"
    ensures HalfString(3) == "1.5"
    ensures HalfString(-3) == "-1.5"
  {
  }

  // ---- styles ----

  /** `{size, growth, edges}` */
  datatype PatternConfig = PatternConfig(size: nat, growth: nat, edges: nat)

  /** `STYLE_CONFIGS[style]`; `getStyleConfig` returns a copy, which as a value is the same record. */
  function StyleConfig(style: CarouselSchema.StyleType): (c: PatternConfig)
    ensures c.size == 480 && 3 <= c.edges && c.growth < 10
  {
    match style
    case DefaultStyle => PatternConfig(480, 3, 18)
    case Bright => PatternConfig(480, 7, 14)
    case Elegant => PatternConfig(480, 5, 17)
  }

  const SvgOpen := "<svg viewBox=\"0 0 "
  const PathOpen := "\"><path d=\""
  const SvgClose := "\" /></svg>"

  /** The `<svg>` wrapping a path in a square view box of the style's size. */
  function Svg(size: nat, path: string): string
  {
    SvgOpen + NatToString(size) + " " + NatToString(size) + PathOpen + path + SvgClose
  }

  /** `createPattern(config)`: the points, then the path through them. */
  method CreatePattern(c: PatternConfig, seed: Option<int>, randomSeed: int, polar: Polar) returns (path: string, seedValue: int)
    ensures seedValue == ActualSeed(seed, randomSeed)
    ensures path == SmoothPath(PointsSpec(c.size, c.growth, c.edges, seedValue, polar))
  {
    var points;
    points, seedValue := GeneratePoints(c.size, c.growth, c.edges, seed, randomSeed, polar);
    path := CreateSmoothPath(points);
  }

  /** The picture a configuration draws from a seed. */
  function PatternSvg(c: PatternConfig, seed: int, polar: Polar): string
  {
    Svg(c.size, SmoothPath(PointsSpec(c.size, c.growth, c.edges, seed, polar)))
  }

  /** `generatePattern(style, seed)` */
  method GeneratePattern(style: CarouselSchema.StyleType, seed: Option<int>, randomSeed: int, polar: Polar) returns (svg: string)
    ensures svg == PatternSvg(StyleConfig(style), ActualSeed(seed, randomSeed), polar)
  {
    var c := StyleConfig(style);
    var path, _ := CreatePattern(c, seed, randomSeed, polar);
    svg := Svg(c.size, path);
  }

  /** Every style has enough points for a closed path, so every pattern it draws opens with `M` and ends with `Z`. */
  lemma StylePathsAreClosed(style: CarouselSchema.StyleType, seed: int, polar: Polar)
    ensures var c := StyleConfig(style);
            var p := SmoothPath(PointsSpec(c.size, c.growth, c.edges, seed, polar));
            p != [] && p[0] == 'M' && p[|p| - 1] == 'Z'
  {
    var c := StyleConfig(style);
    PathShape(PointsSpec(c.size, c.growth, c.edges, seed, polar));
  }

  /** One entry of `generateMultiplePatterns`. */
  datatype Sample = Sample(svg: string, seed: int)

  /** The entries drawn from the given seeds, in order. */
  function Samples(c: PatternConfig, seeds: seq<int>, polar: Polar): (r: seq<Sample>)
    ensures |r| == |seeds|
  {
    if seeds == [] then []
    else Samples(c, seeds[..|seeds| - 1], polar) + [Sample(PatternSvg(c, seeds[|seeds| - 1], polar), seeds[|seeds| - 1])]
  }

  /** Each entry is the pattern of its own seed, and carries that seed. */
  lemma {:induction false} SamplesAt(c: PatternConfig, seeds: seq<int>, polar: Polar)
    ensures forall i | 0 <= i < |seeds| :: Samples(c, seeds, polar)[i] == Sample(PatternSvg(c, seeds[i], polar), seeds[i])
    decreases |seeds|
  {
    if seeds != [] {
      var init := seeds[..|seeds| - 1];
      SamplesAt(c, init, polar);
      forall i | 0 <= i < |seeds| - 1
        ensures Samples(c, seeds, polar)[i] == Sample(PatternSvg(c, seeds[i], polar), seeds[i])
      {
        assert Samples(c, seeds, polar)[i] == Samples(c, init, polar)[i];
        assert init[i] == seeds[i];
      }
    }
  }

  /**
   * `generateMultiplePatterns(style, count)`: every pattern is unseeded, so
   * pattern `i` uses the `i`-th random seed.
   */
  method GenerateMultiplePatterns(style: CarouselSchema.StyleType, count: nat, randomSeeds: seq<int>, polar: Polar)
    returns (patterns: seq<Sample>)
    requires |randomSeeds| >= count
    ensures patterns == Samples(StyleConfig(style), randomSeeds[..count], polar)
  {
    var c := StyleConfig(style);
    patterns := [];
    for i := 0 to count
      invariant patterns == Samples(c, randomSeeds[..i], polar)
    {
      var path, seedValue := CreatePattern(c, None, randomSeeds[i], polar);
      var sample := Sample(Svg(c.size, path), seedValue);
      var seeds := randomSeeds[..i + 1];
      assert seeds[..i] == randomSeeds[..i] && seeds[i] == randomSeeds[i];
      assert sample == Sample(PatternSvg(c, seeds[i], polar), seeds[i]);
      assert Samples(c, seeds, polar) == Samples(c, seeds[..i], polar) + [sample];
      patterns := patterns + [sample];
    }
  }
}
