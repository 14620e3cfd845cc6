/**
 * The decisions the HTML slide builders make before they interpolate
 * anything: `createFinalHTML` (final-server.js), `createEnhancedHTML`
 * (enhanced-server.js), `createPerfectHTML` (perfect-server.js) and
 * `createSlideHTML` (styled-server.js) pick the slide's colours, the
 * decorative shape and whether to show it, and final-server.js picks the
 * title and text sizes of a text slide.
 */
module SlideHtml {
  import opened Common
  import opened Markdown
  import FinalSlide

  datatype Server = FinalServer | EnhancedServer | PerfectServer | StyledServer

  /** Background and text colour. */
  datatype Scheme = Scheme(bg: string, text: string)

  const White := "#ffffff"
  const Black := "#000000"

  /** The `brandColor = ...` default of the destructuring: used only when the setting is absent. */
  function BrandColor(server: Server, setting: Option<string>): (b: string)
    ensures setting.Some? ==> b == setting.value
    ensures setting.None? ==> b == (if server == StyledServer then "#2F00FF" else "#6366F1")
  {
    match setting
    case Some(c) => c
    case None => if server == StyledServer then "#2F00FF" else "#6366F1"
  }

  /** The `style = 'default'` default of the destructuring. */
  function StyleOf(setting: Option<string>): string
  {
    if setting.Some? then setting.value else "default"
  }

  /**
   * The slide's colours.  Final, enhanced and perfect test `slide.color ===
   * 'accent'`; styled looks the colour up in `{default, accent}` and falls
   * back to `default`.  Both give the brand background only to accent slides.
   */
  function Colors(server: Server, color: Color, brand: string): (s: Scheme)
  {
    if color == Accent then Scheme(brand, White) else Scheme(White, Black)
  }

  /** Only an accent slide has white text, and it alone sits on the brand colour. */
  lemma ColorsByKind(server: Server, color: Color, brand: string)
    ensures Colors(server, color, brand).text == White <==> color == Accent
    ensures color == Accent ==> Colors(server, color, brand) == Scheme(brand, White)
    ensures color != Accent ==> Colors(server, color, brand) == Scheme(White, Black)
  {
  }

  /** `(slide.type === 'intro' || slide.type === 'quote') && slide.showAbstraction` */
  function ShowShape(s: Slide): (b: bool)
    ensures b <==> (s.kind == Intro || s.kind == Quote) && s.showAbstraction
  {
    (s.kind == Intro || s.kind == Quote) && s.showAbstraction
  }

  /** styled-server.js's second shape: the first shape and the `bright` style. */
  function ShowShapeTwo(s: Slide, style: string): (b: bool)
    ensures b ==> ShowShape(s)
    ensures b <==> ShowShape(s) && style == "bright"
  {
    ShowShape(s) && style == "bright"
  }

  // ---- the shape paths ----

  /**
   * What `paths[style] || paths.default` yields: one of the paths, or, for a
   * name every object inherits such as `toString`, that inherited member,
   * which is truthy and so is returned as it is.
   */
  datatype ShapeResult = Path(d: string) | InheritedMember(name: string)

  /** The styles that have a path of their own. */
  datatype ShapeStyle = DefaultShape | BrightShape | ElegantShape

  /** The own property of `paths` that `style` names, if any. */
  function KnownStyle(style: string): (k: Option<ShapeStyle>)
    ensures k == Some(DefaultShape) <==> style == "default"
    ensures k == Some(BrightShape) <==> style == "bright"
    ensures k == Some(ElegantShape) <==> style == "elegant"
  {
    if style == "default" then Some(DefaultShape)
    else if style == "bright" then Some(BrightShape)
    else if style == "elegant" then Some(ElegantShape)
    else None
  }

  // final-server.js draws on its 1080-wide slides with these three paths.
  const FinalDefaultPath := "M 100,25 Q 200,50 300,75 Q 350,100 380,150 Q 350,200 300,275 Q 200,350 100,325 Q 50,250 25,175 Q 50,100 100,25"
  const FinalBrightPath := "M 80,80 Q 180,40 280,80 Q 330,120 360,160 Q 320,220 260,280 Q 180,340 100,320 Q 40,260 60,200 Q 80,140 80,80"
  const FinalElegantPath := "M 90,60 Q 190,80 290,70 Q 340,110 370,150 Q 330,210 270,270 Q 190,330 110,310 Q 60,260 80,200 Q 100,140 90,60"

  // enhanced-server.js and perfect-server.js share these three.
  const WideDefaultPath := "M 200,50 Q 400,100 600,150 Q 800,200 1000,250 Q 800,400 600,550 Q 400,700 200,650 Q 100,500 50,350 Q 100,200 200,50"
  const WideBrightPath := "M 100,100 Q 300,50 500,100 Q 700,150 900,200 Q 800,350 600,500 Q 400,650 200,600 Q 50,450 100,300 Q 150,150 100,100"
  const WideElegantPath := "M 150,80 Q 350,120 550,100 Q 750,180 950,220 Q 850,380 650,520 Q 450,680 250,620 Q 80,480 120,320 Q 180,160 150,80"

  /** `paths[k]` of a server's table. */
  function PathOf(server: Server, k: ShapeStyle): string
    requires server != StyledServer
  {
    match k
    case DefaultShape => if server == FinalServer then FinalDefaultPath else WideDefaultPath
    case BrightShape => if server == FinalServer then FinalBrightPath else WideBrightPath
    case ElegantShape => if server == FinalServer then FinalElegantPath else WideElegantPath
  }

  /** `generateSmoothShape(style)` */
  function SmoothShape(server: Server, style: string): ShapeResult
    requires server != StyledServer
  {
    match KnownStyle(style)
    case Some(k) => Path(PathOf(server, k))
    case None =>
      if FinalSlide.Inherited(style) then InheritedMember(style)
      else Path(PathOf(server, DefaultShape))
  }

  /**
   * A known style gets its own path, any other name that no object inherits
   * gets the default path, and only an inherited name yields something that
   * is not a path.
   */
  lemma SmoothShapeLookup(server: Server, style: string)
    requires server != StyledServer
    ensures KnownStyle(style).Some? ==> SmoothShape(server, style) == Path(PathOf(server, KnownStyle(style).value))
    ensures KnownStyle(style).None? && !FinalSlide.Inherited(style) ==> SmoothShape(server, style) == SmoothShape(server, "default")
    ensures SmoothShape(server, style).InheritedMember? <==> FinalSlide.Inherited(style)
  {
    assert !FinalSlide.Inherited("default") && !FinalSlide.Inherited("bright") && !FinalSlide.Inherited("elegant");
  }

  /** Enhanced and perfect draw the same shapes. */
  lemma WideServersAgree(style: string)
    ensures SmoothShape(EnhancedServer, style) == SmoothShape(PerfectServer, style)
  {
  }

  // ---- styled-server.js: the pattern configuration ----

  /** The `{size, growth, edges}` of a style. */
  datatype PatternConfig = PatternConfig(size: nat, growth: nat, edges: nat)

  /** `configs[style]`: absent for any other style, where reading `config.size` throws. */
  function ConfigOf(style: string): Option<PatternConfig>
  {
    if style == "default" then Some(PatternConfig(480, 3, 18))
    else if style == "bright" then Some(PatternConfig(480, 7, 14))
    else if style == "elegant" then Some(PatternConfig(480, 5, 17))
    else None
  }

  /** Which shapes `createSlideHTML` draws, with the points each has; `None` is the `TypeError`. */
  function StyledShapes(s: Slide, style: string): (r: Option<(nat, nat)>)
  {
    if !ShowShape(s) then Some((0, 0))
    else match ConfigOf(style)
      case None => None
      case Some(c) => Some((c.edges, if ShowShapeTwo(s, style) then c.edges else 0))
  }

  /**
   * Without the first shape nothing is drawn and nothing can fail; with it,
   * an unknown style throws, a known style draws one shape of its edge count,
   * and only `bright` draws the second, with 14 points.
   */
  lemma StyledShapeCounts(s: Slide, style: string)
    ensures !ShowShape(s) ==> StyledShapes(s, style) == Some((0, 0))
    ensures ShowShape(s) ==> (StyledShapes(s, style).None? <==> style !in {"default", "bright", "elegant"})
    ensures StyledShapes(s, style).Some? && StyledShapes(s, style).value.1 > 0 ==> style == "bright" && StyledShapes(s, style).value == (14, 14)
  {
  }

  // ---- final-server.js: sizes ----

  /** `titleSize`/`textSize` of a text slide, in px; both stay undefined for the other types. */
  function FinalSizes(s: Slide): Option<(nat, nat)>
  {
    if s.kind != TextSlide then None
    else if s.text != "" && Trim(s.text) != "" then Some((24, 14))
    else Some((34, 16))
  }

  /** A text slide with visible text gets the smaller pair, one with only a title the larger. */
  lemma FinalSizesRule(s: Slide)
    ensures FinalSizes(s).Some? <==> s.kind == TextSlide
    ensures s.kind == TextSlide ==> (FinalSizes(s) == Some((24, 14)) <==> !IsBlank(s.text))
    ensures s.kind == TextSlide ==> (FinalSizes(s) == Some((34, 16)) <==> IsBlank(s.text))
  {
  }
}
