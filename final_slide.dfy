/**
 * `addFinalSlide` of canvas-server.js and the slide list its
 * `/api/generate-carousel` handler renders: the folded slides, then the
 * closing slide the settings ask for, then the fallback slide if the list is
 * still empty.
 */
module FinalSlide {
  import opened Common
  import opened Markdown
  import ContentFold

  /**
   * `settings.finalSlide`.  A setting that is absent, `undefined` or `''` is
   * written "", which is exactly where JavaScript's `||` and `&&` treat the
   * string as falsy.
   */
  datatype FinalConfig = FinalConfig(enabled: bool, kind: string, title: string, text: string, color: string)

  /** A template's fields. */
  datatype Template = Template(title: string, text: string, color: Color)

  /** The colour string a setting names. */
  function ColorOf(s: string): (c: Color)
    ensures s == "default" ==> c == DefaultColor
    ensures s == "accent" ==> c == Accent
    ensures s != "default" && s != "accent" ==> c == Named(s)
  {
    if s == "default" then DefaultColor else if s == "accent" then Accent else Named(s)
  }

  /** The three templates, keyed by their own names. */
  function OwnTemplate(kind: string): Option<Template>
  {
    if kind == "cta" then Some(Template("Подписывайтесь!", "Ставьте лайк если полезно\n\nБольше контента в профиле", Accent))
    else if kind == "contact" then Some(Template("Связаться со мной:", "email@example.com\n\nTelegram: @username\n\nwebsite.com", DefaultColor))
    else if kind == "brand" then Some(Template("Спасибо за внимание!", "Помогаю бизнесу расти\n\nКонсультации и стратегии", Accent))
    else None
  }

  const DefaultTitle := "Спасибо за внимание!"
  const DefaultText := "Больше контента в профиле"

  /** `override || fallback` on strings. */
  function OrElse(override: string, fallback: string): (r: string)
    ensures override != "" ==> r == override
    ensures override == "" ==> r == fallback
  {
    if override != "" then override else fallback
  }

  /**
   * The closing slide, looking the type up among the templates' own names:
   * a template's fields give way to every non-empty setting, and any other
   * type takes the literal defaults.
   */
  function FinalSlideOf(cfg: FinalConfig): (s: Slide)
  {
    match OwnTemplate(cfg.kind)
    case Some(t) =>
      Slide(TextSlide, Some(OrElse(cfg.title, t.title)), OrElse(cfg.text, t.text),
            if cfg.color != "" then ColorOf(cfg.color) else t.color, false, None)
    case None =>
      Slide(TextSlide, Some(OrElse(cfg.title, DefaultTitle)), OrElse(cfg.text, DefaultText),
            ColorOf(OrElse(cfg.color, "accent")), false, None)
  }

  /** `addFinalSlide(slides, settings)`. */
  function AddFinalSlide(slides: seq<Slide>, cfg: Option<FinalConfig>): (r: seq<Slide>)
    ensures cfg.None? || !cfg.value.enabled ==> r == slides
    ensures cfg.Some? && cfg.value.enabled ==> r == slides + [FinalSlideOf(cfg.value)]
  {
    if cfg.None? || !cfg.value.enabled then slides else slides + [FinalSlideOf(cfg.value)]
  }

  /**
   * The closing slide is a text slide whose title and text are never empty,
   * and a known template supplies every field no setting overrides.
   */
  lemma FinalSlideFields(cfg: FinalConfig)
    ensures var s := FinalSlideOf(cfg);
            && s.kind == TextSlide && s.title.Some? && s.title.value != "" && s.text != ""
            && s.color == (if cfg.color != "" then ColorOf(cfg.color)
                           else if OwnTemplate(cfg.kind).Some? then OwnTemplate(cfg.kind).value.color else Accent)
    ensures OwnTemplate(cfg.kind).Some? && cfg.title == "" && cfg.text == "" && cfg.color == ""
            ==> var t := OwnTemplate(cfg.kind).value;
                FinalSlideOf(cfg) == Slide(TextSlide, Some(t.title), t.text, t.color, false, None)
  {
  }

  /**
   * The slides the canvas handler renders: the fold, the closing slide, and
   * the fallback of the first 200 characters when both produced nothing.
   */
  function CanvasSlides(text: string, tokens: seq<Token>, cfg: Option<FinalConfig>): seq<Slide>
  {
    OrFallback(AddFinalSlide(ContentFold.ParseSpec(ContentFold.Canvas, tokens), cfg),
               Fallback("Ваш контент", text, 200))
  }

  /** With the closing slide enabled, it is the last slide and the fallback never appears. */
  lemma CanvasEndsWithFinalSlide(text: string, tokens: seq<Token>, cfg: FinalConfig)
    requires cfg.enabled
    ensures var r := CanvasSlides(text, tokens, Some(cfg));
            && r == ContentFold.ParseSpec(ContentFold.Canvas, tokens) + [FinalSlideOf(cfg)]
            && r[|r| - 1] == FinalSlideOf(cfg)
  {
  }

  // ---- the lookup as written ----

  /**
   * The names every plain JavaScript object inherits from `Object.prototype`;
   * `templates[name]` is a truthy function or object for each of them.
   */
  predicate Inherited(kind: string)
  {
    kind in {"constructor", "toString", "toLocaleString", "valueOf", "hasOwnProperty", "isPrototypeOf",
             "propertyIsEnumerable", "__proto__", "__defineGetter__", "__defineSetter__",
             "__lookupGetter__", "__lookupSetter__"}
  }

  /** A field of the record as built; `None` is a field that is never set. */
  datatype Record = Record(title: Option<string>, text: Option<string>, color: Option<Color>)

  /** `override && { field: override }` spread over `base`. */
  function Spread<T>(override: string, value: T, base: Option<T>): Option<T>
  {
    if override != "" then Some(value) else base
  }

  /**
   * The closing slide's fields as the source builds them: the guard
   * `templates[finalSlideConfig.type]` is also truthy for an inherited name,
   * whose spread contributes no field at all.
   */
  function FinalRecordAsWritten(cfg: FinalConfig): Record
  {
    if cfg.kind != "" && (OwnTemplate(cfg.kind).Some? || Inherited(cfg.kind)) then
      var base := if OwnTemplate(cfg.kind).Some? then
                    var t := OwnTemplate(cfg.kind).value; Record(Some(t.title), Some(t.text), Some(t.color))
                  else Record(None, None, None);
      Record(Spread(cfg.title, cfg.title, base.title), Spread(cfg.text, cfg.text, base.text),
             Spread(cfg.color, ColorOf(cfg.color), base.color))
    else
      var s := FinalSlideOf(cfg);
      Record(s.title, Some(s.text), Some(s.color))
  }

  /** Wherever the type is not an inherited name, the record as written is the corrected slide. */
  lemma AsWrittenAgreesOffPrototype(cfg: FinalConfig)
    requires !Inherited(cfg.kind)
    ensures FinalRecordAsWritten(cfg)
            == Record(FinalSlideOf(cfg).title, Some(FinalSlideOf(cfg).text), Some(FinalSlideOf(cfg).color))
  {
  }

  /** The type "toString" with no overrides gives a closing slide with no title, text or colour. */
  lemma AsWrittenInheritedTypeLosesFields()
    ensures FinalRecordAsWritten(FinalConfig(true, "toString", "", "", "")) == Record(None, None, None)
    ensures FinalSlideOf(FinalConfig(true, "toString", "", "", ""))
            == Slide(TextSlide, Some(DefaultTitle), DefaultText, Accent, false, None)
  {
    assert Inherited("toString");
  }
}
