/**
 * The request and slide schemas of src/api/schemas/carousel.schema.ts as a
 * validator over JSON values.  Each field check follows the zod rules it is
 * built from: a missing key takes the field's default, a value of the wrong
 * JSON type is one `invalid_type` issue, and the length, range and pattern
 * checks of a value of the right type all report.  Issues carry the path of
 * the field they concern.
 */
module CarouselSchema {
  import opened Common
  import ColorSystem

  /** A JSON value as `express.json()` produces it. */
  datatype Json = JNull | JBool(b: bool) | JNum(n: real) | JStr(s: string) | JArr(a: seq<Json>) | JObj(m: map<string, Json>)

  /** The zod issue codes these schemas can raise. */
  datatype Code = InvalidType | TooSmall | TooBig | InvalidString | InvalidEnumValue | InvalidLiteral | InvalidUnion

  datatype Issue = Issue(path: seq<string>, code: Code)

  /** A parse result: the value, or the issues found (never none). */
  datatype Parsed<T> = Ok(value: T) | Failed(issues: seq<Issue>)

  datatype StyleType = DefaultStyle | Bright | Elegant
  datatype MaxSlides = Count(n: int) | Auto
  datatype Quality = Standard | High

  datatype Settings = Settings(style: StyleType, brandColor: string, authorUsername: string, authorFullName: string,
                               maxSlides: MaxSlides, quality: Quality)

  datatype Request = Request(text: string, settings: Settings)

  function StyleName(s: StyleType): string
  {
    match s
    case DefaultStyle => "default"
    case Bright => "bright"
    case Elegant => "elegant"
  }

  /** `key` of an object, `None` when it is missing. */
  function Field(m: map<string, Json>, key: string): Option<Json>
  {
    if key in m then Some(m[key]) else None
  }

  /** The issues of a field, placed under `key`. */
  function Under(key: string, issues: seq<Issue>): (r: seq<Issue>)
    ensures |r| == |issues|
    ensures forall i | 0 <= i < |r| :: r[i] == Issue([key] + issues[i].path, issues[i].code)
  {
    if issues == [] then [] else [Issue([key] + issues[0].path, issues[0].code)] + Under(key, issues[1..])
  }

  function IssuesOf<T>(p: Parsed<T>): seq<Issue>
  {
    if p.Failed? then p.issues else []
  }

  // ---- the field checks ----

  /** `StyleEnum.default('default')` */
  function ParseStyle(v: Option<Json>): (r: Parsed<StyleType>)
  {
    match v
    case None => Ok(DefaultStyle)
    case Some(JStr(s)) =>
      if s == "default" then Ok(DefaultStyle) else if s == "bright" then Ok(Bright)
      else if s == "elegant" then Ok(Elegant) else Failed([Issue([], InvalidEnumValue)])
    case Some(_) => Failed([Issue([], InvalidType)])
  }

  /** The length checks `.min(lo).max(hi)` of a string, both reported when both fail. */
  function LengthIssues(s: string, lo: nat, hi: nat): seq<Issue>
  {
    (if |s| < lo then [Issue([], TooSmall)] else []) + (if |s| > hi then [Issue([], TooBig)] else [])
  }

  /** `z.string().min(lo).max(hi)`, with `dflt` for a missing value when there is one. */
  function ParseBoundedString(v: Option<Json>, lo: nat, hi: nat, dflt: Option<string>): (r: Parsed<string>)
  {
    match v
    case None => if dflt.Some? then Ok(dflt.value) else Failed([Issue([], InvalidType)])
    case Some(JStr(s)) => if LengthIssues(s, lo, hi) == [] then Ok(s) else Failed(LengthIssues(s, lo, hi))
    case Some(_) => Failed([Issue([], InvalidType)])
  }

  /** `z.string().regex(/^#[0-9A-Fa-f]{6}$/).default('#2F00FF')` */
  function ParseBrandColor(v: Option<Json>): (r: Parsed<string>)
  {
    match v
    case None => Ok("#2F00FF")
    case Some(JStr(s)) => if ColorSystem.IsValidHexColor(s) then Ok(s) else Failed([Issue([], InvalidString)])
    case Some(_) => Failed([Issue([], InvalidType)])
  }

  predicate IsInteger(n: real)
  {
    n.Floor as real == n
  }

  /** The checks of `z.number().int().min(3).max(20)`; none of them stops the others. */
  function CountIssues(n: real): seq<Issue>
  {
    (if !IsInteger(n) then [Issue([], InvalidType)] else [])
    + (if n < 3.0 then [Issue([], TooSmall)] else [])
    + (if n > 20.0 then [Issue([], TooBig)] else [])
  }

  /**
   * `z.union([z.number().int().min(3).max(20), z.literal('auto')]).default('auto')`.
   * A number fails the literal outright, so its own issues are the union's;
   * anything that fails both outright is one `invalid_union`.
   */
  function ParseMaxSlides(v: Option<Json>): (r: Parsed<MaxSlides>)
  {
    match v
    case None => Ok(Auto)
    case Some(JNum(n)) => if CountIssues(n) == [] then Ok(Count(n.Floor)) else Failed(CountIssues(n))
    case Some(JStr(s)) => if s == "auto" then Ok(Auto) else Failed([Issue([], InvalidUnion)])
    case Some(_) => Failed([Issue([], InvalidUnion)])
  }

  /** `z.literal('png').default('png')`: any other value is `invalid_literal`. */
  function FormatIssues(v: Option<Json>): seq<Issue>
  {
    if v.None? || v == Some(JStr("png")) then [] else [Issue([], InvalidLiteral)]
  }

  /** `z.enum(['standard', 'high']).default('high')` */
  function ParseQuality(v: Option<Json>): (r: Parsed<Quality>)
  {
    match v
    case None => Ok(High)
    case Some(JStr(s)) => if s == "standard" then Ok(Standard) else if s == "high" then Ok(High) else Failed([Issue([], InvalidEnumValue)])
    case Some(_) => Failed([Issue([], InvalidType)])
  }

  // ---- the objects ----

  /** The issues of every field of the settings object, in the order the schema declares them. */
  function SettingsIssues(m: map<string, Json>): seq<Issue>
  {
    Under("style", IssuesOf(ParseStyle(Field(m, "style"))))
    + Under("brandColor", IssuesOf(ParseBrandColor(Field(m, "brandColor"))))
    + Under("authorUsername", IssuesOf(ParseBoundedString(Field(m, "authorUsername"), 1, 50, Some("@username"))))
    + Under("authorFullName", IssuesOf(ParseBoundedString(Field(m, "authorFullName"), 1, 100, Some("Full Name"))))
    + Under("maxSlides", IssuesOf(ParseMaxSlides(Field(m, "maxSlides"))))
    + Under("format", FormatIssues(Field(m, "format")))
    + Under("quality", IssuesOf(ParseQuality(Field(m, "quality"))))
  }

  /** `SettingsSchema.optional().default({})`; keys the schema does not name are dropped. */
  function ParseSettings(v: Option<Json>): (r: Parsed<Settings>)
  {
    var m := if v.None? then map[] else if v.value.JObj? then v.value.m else map[];
    if v.Some? && !v.value.JObj? then Failed([Issue([], InvalidType)])
    else if SettingsIssues(m) != [] then Failed(SettingsIssues(m))
    else
      Ok(Settings(ParseStyle(Field(m, "style")).value, ParseBrandColor(Field(m, "brandColor")).value,
                  ParseBoundedString(Field(m, "authorUsername"), 1, 50, Some("@username")).value,
                  ParseBoundedString(Field(m, "authorFullName"), 1, 100, Some("Full Name")).value,
                  ParseMaxSlides(Field(m, "maxSlides")).value, ParseQuality(Field(m, "quality")).value))
  }

  /** `GenerateCarouselSchema.parse(body)` */
  function ParseRequest(body: Json): (r: Parsed<Request>)
  {
    if !body.JObj? then Failed([Issue([], InvalidType)])
    else
      var text := ParseBoundedString(Field(body.m, "text"), 1, 50000, None);
      var settings := ParseSettings(Field(body.m, "settings"));
      var issues := Under("text", IssuesOf(text)) + Under("settings", IssuesOf(settings));
      if issues != [] then Failed(issues) else Ok(Request(text.value, settings.value))
  }

  const DefaultSettings := Settings(DefaultStyle, "#2F00FF", "@username", "Full Name", Auto, High)

  // ---- what the schema guarantees ----

  /** Every request that passes satisfies every field constraint. */
  predicate ValidRequest(r: Request)
  {
    1 <= |r.text| <= 50000 && ValidSettings(r.settings)
  }

  lemma BoundedStringSound(v: Option<Json>, lo: nat, hi: nat, dflt: Option<string>)
    requires dflt.Some? ==> lo <= |dflt.value| <= hi
    ensures ParseBoundedString(v, lo, hi, dflt).Ok? ==> lo <= |ParseBoundedString(v, lo, hi, dflt).value| <= hi
    ensures ParseBoundedString(v, lo, hi, dflt).Failed? ==> ParseBoundedString(v, lo, hi, dflt).issues != []
  {
  }

  lemma MaxSlidesSound(v: Option<Json>)
    ensures ParseMaxSlides(v).Ok? && ParseMaxSlides(v).value.Count? ==> 3 <= ParseMaxSlides(v).value.n <= 20
    ensures ParseMaxSlides(v).Ok? <==> v.None? || v == Some(JStr("auto")) || (v.value.JNum? && CountIssues(v.value.n) == [])
  {
  }

  lemma DefaultBrandIsValid()
    ensures ColorSystem.IsValidHexColor("#2F00FF")
  {
    assert "#2F00FF"[1] == '2';
  }

  predicate ValidSettings(st: Settings)
  {
    && ColorSystem.IsValidHexColor(st.brandColor)
    && 1 <= |st.authorUsername| <= 50
    && 1 <= |st.authorFullName| <= 100
    && (st.maxSlides.Count? ==> 3 <= st.maxSlides.n <= 20)
  }

  /** Accepted settings meet every constraint; missing settings are the defaults. */
  lemma ParsedSettingsAreValid(v: Option<Json>)
    ensures ParseSettings(v).Ok? ==> ValidSettings(ParseSettings(v).value)
    ensures ParseSettings(v).Failed? ==> ParseSettings(v).issues != []
    ensures v.None? ==> ParseSettings(v) == Ok(DefaultSettings)
  {
    DefaultBrandIsValid();
    var m := if v.None? then map[] else if v.value.JObj? then v.value.m else map[];
    BoundedStringSound(Field(m, "authorUsername"), 1, 50, Some("@username"));
    BoundedStringSound(Field(m, "authorFullName"), 1, 100, Some("Full Name"));
    MaxSlidesSound(Field(m, "maxSlides"));
    if v.None? {
      assert m == map[];
      assert SettingsIssues(m) == [];
    }
  }

  /** What the parser accepts meets every constraint, and a missing `settings` gives the defaults. */
  lemma ParsedRequestIsValid(body: Json)
    ensures ParseRequest(body).Ok? ==> ValidRequest(ParseRequest(body).value)
    ensures ParseRequest(body).Failed? ==> ParseRequest(body).issues != []
    ensures body.JObj? && "settings" !in body.m && ParseRequest(body).Ok? ==> ParseRequest(body).value.settings == DefaultSettings
  {
    if body.JObj? {
      BoundedStringSound(Field(body.m, "text"), 1, 50000, None);
      ParsedSettingsAreValid(Field(body.m, "settings"));
    }
  }

  /** The settings pass exactly when no field has an issue, so one bad field rejects the whole request. */
  lemma SettingsPassIffNoIssue(m: map<string, Json>)
    ensures ParseSettings(Some(JObj(m))).Ok? <==> SettingsIssues(m) == []
    ensures ParseSettings(Some(JObj(m))).Ok? <==>
              && ParseStyle(Field(m, "style")).Ok? && ParseBrandColor(Field(m, "brandColor")).Ok?
              && ParseBoundedString(Field(m, "authorUsername"), 1, 50, Some("@username")).Ok?
              && ParseBoundedString(Field(m, "authorFullName"), 1, 100, Some("Full Name")).Ok?
              && ParseMaxSlides(Field(m, "maxSlides")).Ok? && FormatIssues(Field(m, "format")) == []
              && ParseQuality(Field(m, "quality")).Ok?
  {
  }

  /** Every issue of a request names the top-level field it comes from. */
  lemma IssuePaths(body: Json)
    requires body.JObj? && ParseRequest(body).Failed?
    ensures forall i | 0 <= i < |ParseRequest(body).issues| ::
              var p := ParseRequest(body).issues[i].path; p != [] && (p[0] == "text" || p[0] == "settings")
  {
  }

  /** A number with a fraction below the range reports both the integer and the range check. */
  lemma FractionalMaxSlides()
    ensures ParseMaxSlides(Some(JNum(2.5))) == Failed([Issue([], InvalidType), Issue([], TooSmall)])
  {
    assert (2.5).Floor == 2;
  }

  // ---- the slide schema ----

  datatype SlideKind = IntroKind | TextKind | QuoteKind
  datatype SizeChoice = SmallSize | MediumSize | LargeSize | AutoSize

  /** `SlideData`: optional fields that were missing stay `None`. */
  datatype SlideData = SlideData(kind: SlideKind, title: Option<string>, text: string, accent: bool,
                                 showAbstraction: Option<bool>, size: Option<SizeChoice>)

  function SlideKindOf(v: Option<Json>): Parsed<SlideKind>
  {
    match v
    case Some(JStr(s)) =>
      if s == "intro" then Ok(IntroKind) else if s == "text" then Ok(TextKind)
      else if s == "quote" then Ok(QuoteKind) else Failed([Issue([], InvalidEnumValue)])
    case _ => Failed([Issue([], InvalidType)])
  }

  /** `ColorEnum.default('default')`: whether the slide is an accent slide. */
  function SlideColorOf(v: Option<Json>): Parsed<bool>
  {
    match v
    case None => Ok(false)
    case Some(JStr(s)) => if s == "default" then Ok(false) else if s == "accent" then Ok(true) else Failed([Issue([], InvalidEnumValue)])
    case Some(_) => Failed([Issue([], InvalidType)])
  }

  function OptionalString(v: Option<Json>): Parsed<Option<string>>
  {
    match v
    case None => Ok(None)
    case Some(JStr(s)) => Ok(Some(s))
    case Some(_) => Failed([Issue([], InvalidType)])
  }

  function OptionalBool(v: Option<Json>): Parsed<Option<bool>>
  {
    match v
    case None => Ok(None)
    case Some(JBool(b)) => Ok(Some(b))
    case Some(_) => Failed([Issue([], InvalidType)])
  }

  function OptionalSize(v: Option<Json>): Parsed<Option<SizeChoice>>
  {
    match v
    case None => Ok(None)
    case Some(JStr(s)) =>
      if s == "small" then Ok(Some(SmallSize)) else if s == "medium" then Ok(Some(MediumSize))
      else if s == "large" then Ok(Some(LargeSize)) else if s == "auto" then Ok(Some(AutoSize))
      else Failed([Issue([], InvalidEnumValue)])
    case Some(_) => Failed([Issue([], InvalidType)])
  }

  function RequiredString(v: Option<Json>): Parsed<string>
  {
    match v
    case Some(JStr(s)) => Ok(s)
    case _ => Failed([Issue([], InvalidType)])
  }

  function SlideIssues(m: map<string, Json>): seq<Issue>
  {
    Under("type", IssuesOf(SlideKindOf(Field(m, "type"))))
    + Under("title", IssuesOf(OptionalString(Field(m, "title"))))
    + Under("text", IssuesOf(RequiredString(Field(m, "text"))))
    + Under("color", IssuesOf(SlideColorOf(Field(m, "color"))))
    + Under("showAbstraction", IssuesOf(OptionalBool(Field(m, "showAbstraction"))))
    + Under("size", IssuesOf(OptionalSize(Field(m, "size"))))
  }

  /** `SlideSchema.parse(v)` */
  function ParseSlide(v: Json): Parsed<SlideData>
  {
    if !v.JObj? then Failed([Issue([], InvalidType)])
    else if SlideIssues(v.m) != [] then Failed(SlideIssues(v.m))
    else
      Ok(SlideData(SlideKindOf(Field(v.m, "type")).value, OptionalString(Field(v.m, "title")).value,
                   RequiredString(Field(v.m, "text")).value, SlideColorOf(Field(v.m, "color")).value,
                   OptionalBool(Field(v.m, "showAbstraction")).value, OptionalSize(Field(v.m, "size")).value))
  }

  /**
   * A slide needs a `type` and a `text`; every other field may be missing,
   * and a missing colour is the default one.
   */
  lemma SlideRequiredFields(m: map<string, Json>)
    ensures ParseSlide(JObj(m)).Ok? ==> "type" in m && "text" in m && m["text"].JStr?
    ensures ParseSlide(JObj(m)).Ok? && "color" !in m ==> !ParseSlide(JObj(m)).value.accent
    ensures ParseSlide(JObj(m)).Ok? <==> SlideIssues(m) == []
  {
  }

  /** The smallest slide there is: a type and a text, nothing else. */
  lemma MinimalSlide(kind: string, text: string)
    requires kind in {"intro", "text", "quote"}
    ensures ParseSlide(JObj(map["type" := JStr(kind), "text" := JStr(text)])).Ok?
  {
    var m := map["type" := JStr(kind), "text" := JStr(text)];
    assert Field(m, "title") == None && Field(m, "color") == None && Field(m, "showAbstraction") == None && Field(m, "size") == None;
  }
}
