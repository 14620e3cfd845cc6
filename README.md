# Carousel slide generator — a Dafny model

The carousel service turns a Markdown document into a sequence of
fixed-size slide images for social-media carousels. The model covers the part of the service that
decides what ends up on a slide and where:

- **Markdown to slides.** The canvas server (`canvas-server.js`) folds the
  lexer's tokens into slides: an intro from the H1, a quote slide per
  blockquote, and a text slide per H2 section, with its paragraphs and
  bulleted lists. A final slide is added from the closing template. The
  older servers (`styled-server.js`, `perfect-server.js`, `src/app.ts`)
  use a different fold, in which each paragraph overwrites the text of the
  last slide. The TypeScript `TextSplitter` groups blocks by H2 and picks
  the slide count from the size and structure of the text.
- **Text on the canvas.** The inline parser splits text into plain,
  underlined, bold and bold-underlined runs. These are broken into words
  and wrapped greedily into lines no wider than the slide, breaking a word
  that is wider than a line character by character. The lines are then
  drawn as fills and strokes. Russian prepositions are bound to the next
  word by a no-break space. Intro text is wrapped plainly.
- **Smart wrapping.** `corrected-server.js` keeps phrases such as
  durations, percentages and fixed Russian word pairs on one line by
  replacing them with placeholders before wrapping.
- **Colours.** The canvas server parses hex colours and picks black or
  white text by brightness. The colour system works out the WCAG 2.1
  contrast ratio and levels, the per-style schemes, the CSS variables and
  the palette hues.
- **Shapes.** A seeded multiply-with-carry generator places the points of
  an abstract blob. The blob becomes a closed SVG path of quadratic
  curves.
- **HTML rendering.** The Puppeteer renderer builds each slide's content
  and template variables. It fills `{{key}}` placeholders and settles
  `{{#if name}}…{{/if}}` blocks.
- **The HTTP API.** This covers the request schema (field bounds and
  defaults), the error handler's classification into status codes, the
  per-client fixed-window rate limiter and the request size limit.

Measuring text, floating-point colour arithmetic, trigonometry, the
clock, randomness and the Markdown lexer are parameters of the model.
They are never computed by it.

Where the code does something other than what its comments or
surrounding design evidently intend, the model states the code as
written. It proves the discrepancy on a concrete input, and the rest of
the model uses the corrected definition; see "## Findings". The model
follows the code wherever the code and the design description disagree:

- A malformed colour string is not an error: `hexToRgb` yields NaN
  channels, and the text on it is light. A colour that is not a string
  makes `hexToRgb` throw. The `catch` of `getContrastColor` then answers
  dark text, and the `catch` of `getAccentColorForBackground` answers the
  brand colour.
- `fixHangingWords` is modelled with the intended word boundary where the
  rest of the model uses it.
- The bullet separator of `extractListText` is the literal three-character
  sequence the file holds (`â€¢`), not a bullet.

## Model

| member | source | states |
|---|---|---|
| CanvasStyle.LineHeight | canvas-server.js:116-120 | `getFontStyle`'s line height is the size times the line-height ratio rounded to the nearest integer (within half a unit) |
| CanvasStyle.BuildFontRoundTrip | canvas-server.js:122-124 | the font string `"<weight> <size>px Arial"` reads back as the same weight and size |
| CanvasStyle.DropFirstHash | canvas-server.js:51 | `replace('#', '')` removes at most one character, and a string without `#` is unchanged |
| CanvasStyle.ParseIntHex | canvas-server.js:57-59 | `parseInt(…, 16)` gives a number only when some hexadecimal digit is present |
| CanvasStyle.HexToRgbRoundTrip | canvas-server.js:49-63 | `hexToRgb` reads back every channel that `#rrggbb` encodes |
| CanvasStyle.ShortHexExpands | canvas-server.js:53-56 | a three-digit colour `#abc` reads exactly as `#aabbcc` |
| CanvasStyle.ContrastColor | canvas-server.js:84-96 | dark text if and only if the background counts as light, light text otherwise; a background that is not a string makes `hexToRgb` throw and the `catch` answers dark text |
| CanvasStyle.AccentColorForBackground | canvas-server.js:102-112 | the brand colour on a light background, white on a dark one, and the brand colour from the `catch` when the background is not a string |
| CanvasStyle.MalformedGetsLightText | canvas-server.js:49-96 | a colour with no hexadecimal digit reads as NaN channels, never throws, and so gets light text |
| CanvasStyle.ColorsFor | canvas-server.js:627-632 | an accent slide has the brand colour as background and contrasting text, dark when the brand colour is not a string; other slides are white with black text; the underline accent is the brand colour whenever white counts as light, and white otherwise |
| CanvasStyle.HexPairValue | canvas-server.js:57-59 | two hexadecimal digits are read as one byte |
| CanvasStyle.LeadingHex | canvas-server.js:57-59 | `parseInt(…, 16)` reads exactly the leading run of hexadecimal digits |
| CanvasStyle.BrandColor | canvas-server.js:618 | the destructuring default `#6366F1` applies only when the setting is absent; any given value, string or not, is kept |
| CanvasStyle.WhiteIsLight | canvas-server.js:632 | the default background `#ffffff` counts as light exactly when white does |
| CarouselSchema.Under | src/api/schemas/carousel.schema.ts:13-27 | a nested field's issues keep their order and gain the field's key at the head of their path |
| CarouselSchema.BoundedStringSound | src/api/schemas/carousel.schema.ts:16-25 | an accepted string lies within its `min`/`max` lengths, and a rejected one reports at least one issue |
| CarouselSchema.MaxSlidesSound | src/api/schemas/carousel.schema.ts:18 | `maxSlides` is accepted exactly when missing, `'auto'`, or an integer in [3, 20], and an accepted count lies in [3, 20] |
| CarouselSchema.DefaultBrandIsValid | src/api/schemas/carousel.schema.ts:15 | the default brand colour `#2F00FF` passes the brand-colour pattern |
| CarouselSchema.ParsedSettingsAreValid | src/api/schemas/carousel.schema.ts:13-21 | accepted settings meet every field constraint, rejected settings report an issue, and missing settings are the defaults |
| CarouselSchema.ParsedRequestIsValid | src/api/schemas/carousel.schema.ts:24-27 | an accepted request has a text of 1 to 50000 characters and valid settings, and a missing `settings` becomes the defaults |
| CarouselSchema.SettingsPassIffNoIssue | src/api/schemas/carousel.schema.ts:13-21 | settings pass if and only if every one of the seven fields passes, so one bad field rejects the whole object |
| CarouselSchema.IssuePaths | src/api/schemas/carousel.schema.ts:24-27 | every issue of a rejected request is under `text` or `settings` |
| CarouselSchema.FractionalMaxSlides | src/api/schemas/carousel.schema.ts:18 | `maxSlides: 2.5` reports both the integer check and the minimum |
| CarouselSchema.SlideRequiredFields | src/api/schemas/carousel.schema.ts:30-37 | an accepted slide has a `type` and a string `text`, a missing colour is the default one, and a slide passes exactly when no field has an issue |
| CarouselSchema.MinimalSlide | src/api/schemas/carousel.schema.ts:30-37 | a slide with only a known type and a text is accepted |
| ColorSystem.NatToHex | src/core/colorSystem.ts:90 | `toString(16)` prints at least one digit and only hexadecimal digits |
| ColorSystem.NatToHexValue | src/core/colorSystem.ts:90 | the digits `toString(16)` prints read back as the number, one digit exactly below 16 and at most two below 256 |
| ColorSystem.ToHex2RoundTrip | src/core/colorSystem.ts:89-92 | a channel below 256 is padded to exactly two hexadecimal digits that read back as the channel |
| ColorSystem.HexColorValid | src/core/colorSystem.ts:234-237 | the `#rrggbb` that `hslToHex` prints passes `isValidHexColor` (`#` and six hexadecimal digits) exactly when every channel is below 256 |
| ColorSystem.ContrastRatioShape | src/core/colorSystem.ts:117-124 | the contrast ratio (lighter + 0.05) / (darker + 0.05) of WCAG 2.1 is symmetric, at least 1, and 1 only for equal luminances |
| ColorSystem.ContrastingTextColor | src/core/colorSystem.ts:129-134 | the text colour is white or black |
| ColorSystem.ContrastingIsBest | src/core/colorSystem.ts:129-134 | the chosen text colour contrasts at least as much as the other, and a tie gives black |
| ColorSystem.WcagLevels | src/core/colorSystem.ts:261-270 | AAA (ratio 7, WCAG 2.1 SC 1.4.6) implies AA (ratio 4.5, SC 1.4.3), and neither depends on which colour is the background |
| ColorSystem.BlackOnWhite | src/core/colorSystem.ts:261-270 | with the reference luminances 1 and 0, black on white has ratio 21 and meets AAA |
| ColorSystem.ContrastingMeetsAA | src/core/colorSystem.ts:129-134 | the text colour `getContrastingTextColor` picks meets AA on any background whose luminance lies in [0, 1] |
| ColorSystem.Lightened | src/core/colorSystem.ts:141 | the new lightness is at most 100, and is either raised by the amount or capped at 100 |
| ColorSystem.Darkened | src/core/colorSystem.ts:151 | the new lightness is at least 0, and is either lowered by the amount or floored at 0 |
| ColorSystem.LightnessMoves | src/core/colorSystem.ts:139-154 | lightening by a non-negative amount never darkens a lightness in [0, 100], darkening never lightens it, and amount 0 changes nothing |
| ColorSystem.ClampedEnds | src/core/colorSystem.ts:139-154 | at lightness 100 every lightening gives the same colour, and at 0 every darkening does |
| ColorSystem.SchemeByStyle | src/core/colorSystem.ts:159-205 | `bright` puts contrasting text on the brand colour and lightens the accent by 30; `elegant` is white on `#1a1a1a` with the accent lightened by 15; every other style is black on white with the brand colour as accent; the text on the accent always contrasts best with it |
| ColorSystem.BrightTextReadable | src/core/colorSystem.ts:176-182 | with the reference luminances, the bright style's text meets AA on its background whatever the brand colour |
| ColorSystem.CssVariablesCarryScheme | src/core/colorSystem.ts:210-229 | the CSS variables carry the scheme's four colours unchanged and the author's username between double quotes |
| ColorSystem.JsRem | src/core/colorSystem.ts:252-254 | JavaScript's `%` agrees with the mathematical remainder on non-negative operands |
| ColorSystem.ShiftedHueRange | src/core/colorSystem.ts:252-254 | a hue in [0, 360] turned by less than a full circle lies in [0, 360) and is `shift` degrees round |
| ColorSystem.PaletteHues | src/core/colorSystem.ts:242-256 | the primary colour is the input, and the other three hues (+30, +60, +180 mod 360) are proper angles, pairwise different |
| Markdown.Subtitle | canvas-server.js:381-382 | an H1's subtitle is the next token's text when that token is a paragraph, and empty otherwise |
| Markdown.QuoteText | canvas-server.js:399 | a blockquote's text is its first inner token's text, and empty when it has none |
| Markdown.QuoteSizeOf | corrected-server.js:151-155 | a quote is small above 140 characters, medium above 100, large otherwise |
| Markdown.CanvasQuoteSize | canvas-server.js:404 | in the canvas server a quote is small above 100 characters and large otherwise |
| Markdown.ItemTexts | canvas-server.js:412 | a list contributes its items' texts, one per item, in order |
| Markdown.PartOf | canvas-server.js:406-413 | only paragraphs and lists contribute content to a slide, one part each |
| Markdown.Bulleted | canvas-server.js:431 | every list item is prefixed with `• ` |
| Markdown.GroupedIgnoresListPosition | canvas-server.js:418-437 | the paragraphs-then-lists merge sees only the order of the paragraphs and the order of the lists: moving a list past the paragraph after it changes nothing |
| Markdown.GroupedIsInOrderWithoutLists | canvas-server.js:418-437 | without lists, the paragraphs-then-lists merge equals the source-order merge of final-server.js |
| Markdown.GroupedListsOnly | canvas-server.js:425-433 | without paragraphs, the merged text is the lists' bullet lines run together |
| Markdown.TwoListsRunTogether | corrected-server.js:195-200 | two lists in one section are appended with no separator |
| Markdown.AdjacentListsShareALine | corrected-server.js:195-200 | the lists `a` and `b` merge to `• a• b`: the last bullet of one and the first of the next share a line |
| Markdown.InOrderSnoc | final-server.js:97-108 | the source-order merge puts each part after the previous ones with a blank line between |
| Markdown.Fallback | corrected-server.js:518-526 | the fallback slide is a default-coloured text slide with the given title whose text is the first `limit` characters of the input |
| Markdown.OrFallback | corrected-server.js:518-526 | the slide list is never empty: a non-empty list is kept and an empty one becomes the fallback slide alone |
| ContentFold.ParseMarkdownToSlides | canvas-server.js:374-440 | the two passes (fold the tokens, then merge each content list into the slide's text) give the slides the specification function describes |
| ContentFold.FoldTokens | canvas-server.js:379-416 | the `tokens.forEach` loop leaves the drafts the fold function describes |
| ContentFold.FinishDrafts | canvas-server.js:419-437 | the `slides.forEach` loop turns every draft into its finished slide |
| ContentFold.FoldCount | canvas-server.js:379-416 | the fold pushes one slide per H1, H2 and blockquote, and the open slide is one of them |
| ContentFold.StepKeepsSlide | canvas-server.js:406-415 | a paragraph or list only ever changes the content of the open slide, never a slide's fields |
| ContentFold.SlideFixed | canvas-server.js:379-416 | once pushed, a slide keeps the fields it was pushed with |
| ContentFold.NoContentOutsideH2 | canvas-server.js:406 | intro and quote slides never receive content, and paragraphs and lists before the first H2 are dropped |
| ContentFold.ParseCount | canvas-server.js:374-440 | there is exactly one slide per H1, H2 and blockquote |
| ContentFold.IntroAndQuoteSlides | canvas-server.js:380-405 | an H1 gives an intro slide subtitled by the next paragraph, and a blockquote a quote slide sized by its text; later tokens never change either |
| ContentFold.H2Slides | canvas-server.js:390-437 | an H2 gives a text slide titled by the heading whose text merges the paragraphs and lists up to the next H2, whatever H1s and blockquotes lie between (final-server.js:97-108 merges in source order) |
| Markdown.SwappedPair | canvas-server.js:418-437 | a list followed by a paragraph reads the same as the paragraph followed by the list |
| ContentFold.NextH2 | canvas-server.js:390-406 | the next section heading is the first H2 at or after a position, or the end |
| ErrorHandler.Classify | src/api/middleware/errorHandler.ts:16-47 | details are present exactly for a zod error |
| ErrorHandler.ZodErrorsAreValidation | src/api/middleware/errorHandler.ts:21-29 | a zod error is a 400 "Validation Error" with one detail per issue, in order, each naming the issue's dot-joined path, message and code |
| ErrorHandler.OwnStatusWins | src/api/middleware/errorHandler.ts:31-34 | a non-zero status of its own wins over every message test and brings the error's own message |
| ErrorHandler.MessageTestsInOrder | src/api/middleware/errorHandler.ts:36-47 | without a status the message is searched for `ENOENT` (404), `timeout` (408) and `ECONNREFUSED` (503) in that order, the first match deciding, and the status is 500 exactly when none matches |
| ErrorHandler.ZeroStatusFallsThrough | src/api/middleware/errorHandler.ts:31 | a status of 0 is falsy, so the error falls through to the message tests and a plain message gives 500 |
| ErrorHandler.MissingFileBeforeTimeout | src/api/middleware/errorHandler.ts:36-43 | a message mentioning both `ENOENT` and `timeout` gives 404 |
| ErrorHandler.Respond | src/api/middleware/errorHandler.ts:61-71 | the response is sent under the classified status, the body repeats that status and message, carries details exactly for a zod error, and carries a stack only when `NODE_ENV` is `development` |
| ErrorHandler.StackOnlyInDevelopment | src/api/middleware/errorHandler.ts:69 | in development the error's own stack is sent, elsewhere none |
| ErrorHandler.ValidationError | src/api/middleware/errorHandler.ts:75-82 | a validation error has status 400 and the given message |
| ErrorHandler.NotFoundError | src/api/middleware/errorHandler.ts:84-91 | a not-found error has status 404 and the message "Resource not found" unless one is given |
| ErrorHandler.RenderError | src/api/middleware/errorHandler.ts:93-100 | a render error has status 500 and the message "Failed to render carousel" unless one is given |
| ErrorHandler.TextProcessingError | src/api/middleware/errorHandler.ts:102-108 | a text-processing error has status 422 and the message "Failed to process text" unless one is given |
| ErrorHandler.ClassesKeepTheirStatus | src/api/middleware/errorHandler.ts:75-108 | each error class is answered with its own status and message whatever the message says, so a render error about a timeout is still a 500 |
| FinalSlide.ColorOf | canvas-server.js:447-479 | the colour strings `default` and `accent` name the two slide colours, and any other string is kept as given |
| FinalSlide.OrElse | canvas-server.js:477-479 | `override \|\| fallback` is the override when it is non-empty and the fallback otherwise |
| FinalSlide.AddFinalSlide | canvas-server.js:443-483 | slides are returned unchanged when the closing slide is missing or disabled, and otherwise with exactly one closing slide appended (corrected; see Findings) |
| FinalSlide.FinalSlideFields | canvas-server.js:447-481 | the closing slide is a text slide whose title and text are never empty; a template's fields give way only to non-empty settings, an unknown type takes the literal defaults, and the colour is the setting's, else the template's, else accent |
| FinalSlide.CanvasEndsWithFinalSlide | canvas-server.js:727-737 | with the closing slide enabled, the rendered list is the folded slides followed by the closing slide, and the fallback slide never appears (corrected; see Findings) |
| FinalSlide.AsWrittenAgreesOffPrototype | canvas-server.js:466-481 | wherever the type is not a name every object inherits, the record the source builds is the closing slide of the model |
| FinalSlide.AsWrittenInheritedTypeLosesFields | canvas-server.js:466-474 | the type `toString` passes the template guard, and the slide built has no title, text or colour, where the intended slide has the literal defaults |
| InlineTokens.LazyFrom | canvas-server.js:183 | the lazy body `.+?` ends at the first place the closing delimiter follows, and never crosses a line break |
| InlineTokens.PlainLen | canvas-server.js:183 | the plain alternative `[^*_]+` takes the longest prefix without `*` or `_` |
| InlineTokens.Delimited | canvas-server.js:183 | a delimited alternative matches its opening delimiter, a body without line breaks and its closing delimiter |
| InlineTokens.MatchLen | canvas-server.js:183-185 | a match is a delimited chunk or a plain run, and nothing matches exactly at an unpaired `*` or `_` or at the end |
| InlineTokens.Classify | canvas-server.js:186-201 | a delimited chunk becomes a bold or underlined run without line breaks, and a plain chunk an unstyled run of itself |
| InlineTokens.Scan | canvas-server.js:184-205 | every token has text; a plain token has no `*` or `_`, and a styled one no line break |
| InlineTokens.ScanStep | canvas-server.js:184-205 | the loop skips a position nothing matches, drops a match with empty text, and otherwise emits the classified run and continues after the match |
| InlineTokens.ScanTokens | canvas-server.js:184-205 | the `exec` loop collects exactly the tokens of the scan, in order |
| InlineTokens.ParseInline | canvas-server.js:179-218 | the result is the merge of the scanned tokens; no two neighbouring runs share a style, and the text is that of the scanned tokens |
| InlineTokens.MergedAlternates | canvas-server.js:208-217 | merging never leaves two neighbouring runs with the same bold and underline |
| InlineTokens.MergedKeepsText | canvas-server.js:208-217 | merging keeps the text: the output's texts concatenate to the input's |
| InlineTokens.MergedStep | canvas-server.js:209-216 | each loop iteration merges one more token into the runs so far |
| InlineTokens.UnderlineForm | canvas-server.js:183-192 | `__x__` gives one underlined run `x` |
| InlineTokens.BoldForm | canvas-server.js:183-199 | `**x**` gives one bold run `x` |
| InlineTokens.BoldUnderlineForm | canvas-server.js:183-196 | `__**x**__` gives one bold and underlined run `x` |
| InlineTokens.BoldOutsideUnderlineForm | canvas-server.js:183-199 | `**__x__**` is bold only, with the underscores kept in the text |
| InlineTokens.StrayDelimiterSkipped | canvas-server.js:183-185 | a lone `*` or `_` that opens no pair is skipped without trace |
| InlineTokens.EmptyInnerDropped | canvas-server.js:183-203 | `__****__` matches as an underline whose inner text `**` loses its own stars, so the empty text is dropped and no run appears |
| InlineTokens.ScanWhole | canvas-server.js:184-205 | a match covering the whole input gives at most one run |
| InlineTokens.DelimitedWhole | canvas-server.js:183 | `open x close` is matched whole when `close` first follows at the end |
| Wrapping.Pieces | canvas-server.js:244 | splitting at single separators gives at least one piece, and no piece holds a space, tab or newline |
| Wrapping.NonBlank | canvas-server.js:244 | `.filter(w => w.trim())` keeps only non-blank pieces, each one of the input's |
| Wrapping.WordsOf | canvas-server.js:244 | every word is non-empty, not blank, and holds no space, tab or newline |
| Wrapping.NoBreakSpaceKeepsOneWord | canvas-server.js:243-244 | text joined only by no-break spaces stays one word |
| Wrapping.AllWords | canvas-server.js:241-248 | every collected word has text and carries its segment's style |
| Wrapping.StyledWords | canvas-server.js:245-247 | each word of a segment keeps the segment's bold and underline, in order |
| Wrapping.CollectWords | canvas-server.js:241-248 | the collection loop gathers the words of all segments in order |
| Wrapping.AppendWords | canvas-server.js:245-247 | the inner loop appends one segment's words, in order, with its style |
| Wrapping.WrapSegments | canvas-server.js:227-297 | the lines are those of the wrap specification, and every line holds a run and every run holds text |
| Wrapping.PlaceOneWord | canvas-server.js:251-294 | one pass of the word loop does what the placement function says: join the line with a space run, break the word, or open a new line |
| Wrapping.BreakWord | canvas-server.js:270-287 | the character loop for a word wider than the line fills the open line with no space before it and closes a chunk only when it is non-empty |
| Wrapping.BreakStep | canvas-server.js:272-283 | a character that does not fit closes the open line on the non-empty chunk and starts the next line with itself; otherwise it joins the chunk, so the first character always joins even when it overflows |
| Wrapping.WrapSound | canvas-server.js:232-283 | no line is empty and no run is empty, whatever `maxWidth` is |
| Wrapping.PlaceGreedyJoin | canvas-server.js:257-267 | a word joins the open line exactly when the width so far, a space if the line is not empty, and the word fit in `maxWidth` |
| Wrapping.PlaceGreedyNewLine | canvas-server.js:288-292 | a word that overflows the open line but fits alone closes it and opens the next |
| Wrapping.WrapWhenWordsFit | canvas-server.js:254-293 | when every word fits alone, no line is wider than `maxWidth`, each line's width is the sum of its runs' widths, and no line could have taken the first word of the next |
| Wrapping.WrapKeepsWords | canvas-server.js:250-296 | without the inserted space runs the lines spell out the words back to back, broken words included |
| Wrapping.WrapFromEndsClosed | canvas-server.js:295 | the final `pushLine` leaves no open line behind |
| Wrapping.LongWordExample | canvas-server.js:270-287 | `a bcd` at width 2, one unit per character, gives the lines `a`+`b` and `cd`: the long word is glued to the open line without a space |
| Wrapping.BreakSound | canvas-server.js:270-287 | breaking a word character by character never makes an empty line or an empty run |
| Wrapping.WrapFromSound | canvas-server.js:250-296 | wrapping non-empty words never makes an empty line or an empty run |
| Wrapping.PlaceGreedy | canvas-server.js:254-292 | placing a word that fits keeps every finished line within the width, with its recorded width, and too full to take the next line's first word |
| Wrapping.WrapFromGreedy | canvas-server.js:250-296 | when every word fits, the lines are filled greedily: each fits, and none could have taken the next line's first word |
| Wrapping.WrapFromContent | canvas-server.js:250-296 | the lines and the open line together hold the words' text, in order |
| RichText.StrokeWidth | canvas-server.js:361 | the underline width is at least 3, and otherwise 0.045 of the font size rounded to the nearest integer |
| RichText.RunColor | canvas-server.js:335-337 | a run takes the accent colour exactly when it is underlined and bold on a slide that is not an accent slide, and the base colour otherwise |
| RichText.StrokeAt | canvas-server.js:339-352 | a run yields one underline exactly when it is underlined and not whitespace, running from the cursor for the run's measured width, in the run's colour, at the measured descent below the baseline less 2 (0.15 of the font size less 2 when the descent is 0) |
| RichText.RenderRichText | canvas-server.js:307-370 | the fills, strokes and line count are those of the render plan: empty text draws nothing and returns 0, and otherwise the text is typographically fixed, tokenized, wrapped and drawn line by line; the fill colour left on the context is the last run's colour, or the base colour when nothing was drawn (corrected; see Findings) |
| RichText.DrawAllLines | canvas-server.js:324-357 | the line loop draws the lines of the plan in order |
| RichText.DrawLine | canvas-server.js:327-355 | the run loop draws one line's runs in order |
| RichText.DrawRunsPlacesRuns | canvas-server.js:324-355 | each run is drawn at the start plus the widths of the runs before it, spaces included, and underlined there |
| RichText.StrokeCount | canvas-server.js:339-352 | there is one stroke per underlined run that is not whitespace, no more |
| RichText.FillsAreVisible | canvas-server.js:331-341 | whitespace runs are never drawn |
| RichText.FillsOnBaseline | canvas-server.js:340-341 | every fill of a line sits on that line's baseline |
| RichText.DrawLinesPlacesLines | canvas-server.js:321-357 | line `k` is drawn on the baseline `k` line heights below the start |
| RichText.Paragraphs | canvas-server.js:561 | the paragraphs of a text slide are its non-blank lines |
| RichText.ParaOf | canvas-server.js:563-578 | a paragraph is a bullet exactly when its trimmed text starts with `•`; a bullet is moved right and narrowed by the arrow marker's width plus 32, and any other paragraph is drawn trimmed at the padding over the full width |
| RichText.UsedLinesAnywhere | canvas-server.js:580-590 | the line count `renderRichText` returns for a paragraph does not depend on where it is drawn |
| RichText.ParagraphTopsSpaced | canvas-server.js:592-595 | the first paragraph starts at the top, and each next one starts below the previous one's lines plus one paragraph gap |
| RichText.SlideEndSum | canvas-server.js:559-596 | after the paragraphs, `y` has moved by all their lines plus one gap between each two |
| RichText.RenderTextSlide | canvas-server.js:544-597 | the paragraphs start on the baselines of the layout, `y` ends where the layout ends, each paragraph uses the lines `renderRichText` returns for it, and each is drawn on the fill colour the previous paragraph left (corrected; see Findings) |
| RichText.DrawParagraph | canvas-server.js:580-590 | drawing one paragraph returns the lines it uses and the fill colour it leaves on the context |
| RichText.DrawTitle | canvas-server.js:547-557 | the text starts below the title's wrapped lines and the title gap, or at the top when there is no title |
| RichText.LayParagraphs | canvas-server.js:559-596 | the paragraph loop records each paragraph's top and line count and ends at the layout's end |
| RichText.LayNext | canvas-server.js:563-595 | one pass draws paragraph `idx` and moves below it, adding a gap unless it is the last |
| RichText.ParagraphTops | canvas-server.js:580-595 | one starting baseline per paragraph |
| RichText.DrawRun | canvas-server.js:325-354 | one pass of the run loop adds the run's fill and underline, sets the fill colour to the run's colour and moves the cursor by the run's width |
| RichText.LinesStyleIsLastRun | canvas-server.js:324-357 | the run loop leaves the colour of the last run drawn, whatever line it is on, and the entry colour when there is no run |
| RichText.BaseColorCarriesOver | canvas-server.js:580-590 | `ctx.fillStyle` is passed as the next paragraph's base colour: after a paragraph whose last run is bold and underlined on a slide that is not an accent slide, the next paragraph is drawn in the accent colour, and otherwise in this paragraph's base colour |
| RichText.BaseColorsTextOrAccent | canvas-server.js:580-590 | every paragraph is drawn on the slide's text colour or the accent colour, and always on the text colour on an accent slide |
| PlainWrap.NbspToSpace | canvas-server.js:527-539 | every no-break space becomes an ordinary space and every other character is kept |
| PlainWrap.StripMarkers | canvas-server.js:517 | `replace(/[*_]/g, '')` leaves no `*` or `_` and adds no character |
| PlainWrap.WrapPlainForIntro | canvas-server.js:512-542 | the lines are the shown form of the wrap specification's lines, in order (corrected; see Findings) |
| PlainWrap.FillLines | canvas-server.js:523-540 | the word loop builds exactly the lines of the specification |
| PlainWrap.ExtendLaid | canvas-server.js:526-529 | a word joins the open line exactly when the line with it, measured with ordinary spaces, fits the width |
| PlainWrap.RestartLaid | canvas-server.js:530-536 | a word that does not fit closes the open line, if any, and opens the next |
| PlainWrap.PlainLaidOut | canvas-server.js:523-541 | every line fits the width unless it is one word alone, and no line could have taken the next line's first word |
| PlainWrap.PlainKeepsWords | canvas-server.js:514-541 | the lines hold the words of the fixed, marker-free text, in order, each exactly once (corrected; see Findings) |
| PlainWrap.PlainLinesClean | canvas-server.js:535-539 | no line is empty and none shows a no-break space |
| OverwriteFold.FoldSlides | styled-server.js:55-96 | the `forEach` over the tokens builds the slides of the fold specification |
| OverwriteFold.ParseMarkdownToSlides | src/app.ts:24-75 | styled-server.js (358-369) and app.ts fall back to one slide of the first 200 and 100 characters when the fold is empty; perfect-server.js (270-312) renders the fold as it is |
| OverwriteFold.LastParagraphSpec | styled-server.js:92-95 | the last paragraph of a range is absent exactly when the range has none, and otherwise is a paragraph with none after it |
| OverwriteFold.NextOpener | styled-server.js:56-91 | the next H1, H2 or blockquote at or after a position, or the end |
| OverwriteFold.SlideStepOpen | styled-server.js:92-95 | before the next opener, each paragraph overwrites the last slide's text, whatever its type |
| OverwriteFold.SlideStepClosed | styled-server.js:55-96 | once a later slide exists, no step touches an earlier one |
| OverwriteFold.LastParagraphWins | styled-server.js:55-96 | every H1, H2 and blockquote pushes its slide, which keeps its pushed fields except the text: that is the last paragraph before the next opener, if any; lists are ignored |
| OverwriteFold.SlideTotal | src/app.ts:28-62 | styled and perfect push one slide per opener; app.ts pushes one more for paragraphs before every opener, and that slide carries the latest of them |
| OverwriteFold.PerfectCanBeEmpty | perfect-server.js:273-312 | a document without headings or quotes gives no slide in styled and perfect, and perfect adds no fallback |
| PatternGenerator.InitState | src/core/patternGenerator.ts:66-69 | the two words start as the low 32 bits of `123456789 + seed` and `987654321 - seed` |
| PatternGenerator.Mwc | src/core/patternGenerator.ts:72-73 | one multiply-with-carry step of a 32-bit word stays within 32 bits |
| PatternGenerator.Step | src/core/patternGenerator.ts:72-73 | a call advances both words and keeps them 32-bit |
| PatternGenerator.Word | src/core/patternGenerator.ts:75 | the numerator `>>> 0` is an unsigned 32-bit value |
| PatternGenerator.Value | src/core/patternGenerator.ts:75-77 | every value the generator returns lies in [0, 1) |
| PatternGenerator.Stream | src/core/patternGenerator.ts:71-78 | `n` calls draw `n` values |
| PatternGenerator.SeededRandom.constructor | src/core/patternGenerator.ts:66-70 | a new generator starts in the state its seed determines |
| PatternGenerator.SeededRandom.Next | src/core/patternGenerator.ts:71-78 | a call steps both words once and returns the value of the new words, in [0, 1), so equal seeds give equal sequences |
| PatternGenerator.StreamPrefix | src/core/patternGenerator.ts:71-78 | drawing more values never changes the earlier ones |
| PatternGenerator.StreamAt | src/core/patternGenerator.ts:71-78 | the `k`-th value drawn is the one the state after `k + 1` steps gives |
| PatternGenerator.SeedsModulo | src/core/patternGenerator.ts:67-69 | seeds that agree modulo 2^32 give the same generator |
| PatternGenerator.SeedZeroFirstWord | src/core/patternGenerator.ts:68-73 | seed 0 starts at 123456789 and 987654321, and its first step is computed exactly |
| PatternGenerator.Angles | src/core/patternGenerator.ts:58-61 | `generateAngles(edgeCount)` has `edgeCount` entries, entry `i` being `i * 360 / edgeCount` |
| PatternGenerator.AnglesSpread | src/core/patternGenerator.ts:58-61 | the angles start at 0, climb evenly and stay below a full turn |
| PatternGenerator.RadiusInBand | src/core/patternGenerator.ts:84-100 | the corrected radius lies between the inner radius `growth * base / 10` and the outer radius `base` |
| PatternGenerator.AsWrittenShrinksRadius | src/core/patternGenerator.ts:89-97 | as written, every value above 0 yields `value * variation`, smaller than the variation itself |
| PatternGenerator.DefaultStyleAtHalf | src/core/patternGenerator.ts:89-97 | at value 0.5 the default style gives radius 36 as written and 156 in the band |
| PatternGenerator.ActualSeed | src/core/patternGenerator.ts:144 | `seed \|\| randomSeed`: a missing or zero seed takes the random one |
| PatternGenerator.PointsSpec | src/core/patternGenerator.ts:149-153 | there is one point per angle (corrected; see Findings) |
| PatternGenerator.GeneratePoints | src/core/patternGenerator.ts:131-156 | the seed used is `seed \|\| randomSeed`, and point `i` is at angle `i` and at the radius of the `i`-th value drawn from that seed (corrected; see Findings) |
| PatternGenerator.Wrap | src/core/patternGenerator.ts:179-180 | the indices `i + 1` and `i + 2` wrap to a valid point |
| PatternGenerator.WrapIsRemainder | src/core/patternGenerator.ts:179-180 | the wrap is the remainder the source takes |
| PatternGenerator.Commands | src/core/patternGenerator.ts:161-196 | fewer than 3 points draw nothing, and `n >= 3` points draw `n + 2` commands |
| PatternGenerator.CreateSmoothPath | src/core/patternGenerator.ts:161-196 | the loop appends exactly the printed commands of the path |
| PatternGenerator.PathCloses | src/core/patternGenerator.ts:169-193 | the path moves to the first midpoint, has one quadratic segment per point whose control point is the next point, ends each segment where the next begins, ends the last where the path started, and closes with `Z` |
| PatternGenerator.PathShape | src/core/patternGenerator.ts:161-196 | fewer than 3 points give `''`; otherwise the path starts with `M` and ends with `Z` |
| PatternGenerator.HalfStrings | src/core/patternGenerator.ts:169-187 | a midpoint prints as an integer when the sum is even and with `.5` when it is odd, negative ones included |
| PatternGenerator.StyleConfig | src/core/patternGenerator.ts:16-20 | every style's configuration has size 480, at least 3 edges and growth below 10 |
| PatternGenerator.CreatePattern | src/core/patternGenerator.ts:35-46 | the path is the smooth path through the points of the seed used, which is returned (corrected; see Findings) |
| PatternGenerator.GeneratePattern | src/core/patternGenerator.ts:25-30 | the SVG is the style's pattern for `seed \|\| randomSeed` in a square view box of the style's size (corrected; see Findings) |
| PatternGenerator.StylePathsAreClosed | src/core/patternGenerator.ts:161-196 | every style has enough points, so every pattern opens with `M` and ends with `Z` |
| PatternGenerator.Samples | src/core/patternGenerator.ts:201-219 | one entry per seed |
| PatternGenerator.SamplesAt | src/core/patternGenerator.ts:207-216 | each entry is the pattern of its own seed and carries that seed (corrected; see Findings) |
| PatternGenerator.GenerateMultiplePatterns | src/core/patternGenerator.ts:201-219 | exactly `count` patterns, every one unseeded, pattern `i` drawn from the `i`-th random seed (corrected; see Findings) |
| PatternGenerator.OpenPath | src/core/patternGenerator.ts:168-174 | the path opens with a move to the midpoint of the first two points |
| PatternGenerator.ClosedPath | src/core/patternGenerator.ts:193 | the path ends with `Z` after all of its curves |
| SlideHtml.BrandColor | final-server.js:117 | the brand colour is the setting when present; otherwise `#6366F1`, and `#2F00FF` in styled-server.js (105) |
| SlideHtml.ColorsByKind | enhanced-server.js:129-131 | an accent slide is white text on the brand colour and every other slide black on white; styled-server.js (111-116) agrees |
| SlideHtml.ShowShape | final-server.js:127 | the shape is shown exactly on intro and quote slides that ask for it |
| SlideHtml.ShowShapeTwo | styled-server.js:119-120 | the second shape is shown exactly when the first is and the style is `bright` |
| SlideHtml.KnownStyle | final-server.js:28-32 | only `default`, `bright` and `elegant` have paths of their own |
| SlideHtml.SmoothShapeLookup | final-server.js:27-34 | a known style gets its own path, any other name no object inherits gets the default path, and an inherited name such as `toString` yields that inherited member instead of a path |
| SlideHtml.WideServersAgree | perfect-server.js:11-19 | enhanced-server.js (28-35) and perfect-server.js draw the same shape for every style |
| SlideHtml.StyledShapeCounts | styled-server.js:11-48 | without the first shape nothing is drawn; with it, a style without a configuration throws, a known style draws one shape with its edge count, and only `bright` draws the second, with 14 points |
| SlideHtml.FinalSizesRule | final-server.js:130-142 | only a text slide gets sizes: 24px/14px when its text is not blank, 34px/16px otherwise |
| SlideText.ItemText | corrected-server.js:79 | `replace(/^•\s*/, '')` removes a bullet and the whitespace after it only at the very start of the line |
| SlideText.LineKind | corrected-server.js:76-88 | a line whose trimmed form starts with `•` is a list item wrapped at 32, any other non-blank line is trimmed and wrapped at 35, and a blank line is a spacer (corrected; see Findings) |
| SlideText.OneDivPerLine | corrected-server.js:72-92 | non-empty text gives exactly one `<div>` per line, each of its line's kind (corrected; see Findings) |
| SlideText.ProcessLinesApart | corrected-server.js:75-91 | each line is processed on its own: two blocks of lines give their markups one after the other |
| SlideText.EmptyTextIsEmpty | corrected-server.js:73 | empty text gives `''` |
| SlideText.SingleLine | corrected-server.js:75-91 | a single line is a single `<div>` |
| SlideText.ItemTextStripsLeadingBullet | corrected-server.js:77-79 | a line starting with `•` loses it and the whitespace after it, while a line with whitespace before the bullet is kept whole, bullet included |
| SmartWrap.RunLength | corrected-server.js:16-28 | a run of a pattern's character class never extends past the text |
| SmartWrap.MatchAtoms | corrected-server.js:15-29 | a match of a keep-together pattern ends within the text, after its start |
| SmartWrap.FindFrom | corrected-server.js:35-41 | a global `replace` finds each next match at or after the previous one's end |
| SmartWrap.FindFromLeftmost | corrected-server.js:35-41 | the match found is the leftmost one, and none is found only when there is none |
| SmartWrap.AllNonEmptyStart | corrected-server.js:15-29 | every keep-together pattern consumes a character, so each replacement pass makes progress |
| SmartWrap.SplitWs | corrected-server.js:44 | `split(/\s+/)` gives at least one piece and no piece holds whitespace |
| SmartWrap.PlaceholderShape | corrected-server.js:37 | a placeholder `__TOKEN{i}_{n}__` starts with `__TOKEN` and holds no whitespace, so a protected phrase is never split across lines |
| SmartWrap.SavedTokens | corrected-server.js:35-41 | every saved match carries a non-empty placeholder |
| SmartWrap.ProtectPhrases | corrected-server.js:35-41 | the first loop replaces each pattern's matches by placeholders in turn and saves them in creation order |
| SmartWrap.FillLines | corrected-server.js:48-61 | the greedy loop builds the lines of the fill specification |
| SmartWrap.RestorePhrases | corrected-server.js:64-67 | the last loop restores the placeholders in the order they were made |
| SmartWrap.IntelligentTextWrap | corrected-server.js:11-70 | the result is the wrap as written, and empty text or text no longer than `maxWidth` is returned unchanged |
| SmartWrap.FillFits | corrected-server.js:48-56 | every line is at most `maxWidth` characters unless it is a single word |
| SmartWrap.FillKeepsWords | corrected-server.js:48-61 | with no empty word, no line is empty and the lines joined by spaces are the words joined by spaces, so input whitespace collapses to single spaces and lines are joined by newlines |
| SmartWrap.SplitJoin | corrected-server.js:44 | splitting words joined by single spaces gives the words back |
| SmartWrap.SingleWordLines | corrected-server.js:44-64 | one word, however long, is one line |
| SmartWrap.SampleProtected | corrected-server.js:15-41 | protecting `5% практики` turns the percentage into `__TOKEN1_0__`, and `\w+\s+практики` then swallows that placeholder with the word after it |
| SmartWrap.SampleRestoredInOrder | corrected-server.js:64-67 | restored in creation order, the percentage is looked for before the phrase holding it is opened, so its placeholder survives |
| SmartWrap.SampleRestoredBack | corrected-server.js:64-67 | restored last-made first, the phrase is opened and then the percentage inside it |
| SmartWrap.AsWrittenLeavesPlaceholder | corrected-server.js:11-70 | as written, wrapping `5% практики` at any narrower width outputs `__TOKEN1_0__ практики` |
| SmartWrap.WrapRestoresSample | corrected-server.js:11-70 | the corrected wrap gives `5% практики` back whole |
| SmartWrap.LitAt | corrected-server.js:15-29 | a literal piece of a pattern matches only within the text |
| SmartWrap.MatchAlt | corrected-server.js:16-28 | the alternative tried first whose continuation matches decides, and its match stays within the text |
| SmartWrap.NonEmptyMatch | corrected-server.js:15-29 | every match of a keep-together pattern is non-empty |
| SmartWrap.NoGapNoMatch | corrected-server.js:22-28 | in text without whitespace, a pattern that needs `\s+` never matches, so a placeholder on its own is never re-protected |
| TextSplitter.ParagraphTexts | src/core/textSplitter.ts:73-75 | a quote keeps at most one text per inner token |
| TextSplitter.PieceTexts | src/core/textSplitter.ts:88-90 | a list item keeps at most one text per inner token |
| TextSplitter.ListItemTexts | src/core/textSplitter.ts:86-94 | one text per list item, in item order |
| TextSplitter.BlockOf | src/core/textSplitter.ts:25-62 | a block is pushed exactly for heading, paragraph, blockquote and list tokens; it keeps the token's raw text, and only headings carry a level |
| TextSplitter.CountKind | src/core/textSplitter.ts:158-159 | a count of blocks of one type is at most the number of blocks |
| TextSplitter.AutoCountBounds | src/core/textSplitter.ts:152-162 | the automatic count lies between 3 and 15, adds at most 3 for structure and never falls as the text grows |
| TextSplitter.CeilDivMonotone | src/core/textSplitter.ts:155 | more words never need fewer slides of 50 words |
| TextSplitter.H2Indices | src/core/textSplitter.ts:186 | every located H2 is an H2 block at or after the start position |
| TextSplitter.FindH2 | src/core/textSplitter.ts:191-193 | `findIndex` gives -1 or an H2 position, and no H2 lies between the start and that position |
| TextSplitter.GroupEnd | src/core/textSplitter.ts:191-195 | the end of an H2's group lies after the H2 and within the blocks |
| TextSplitter.GroupShape | src/core/textSplitter.ts:189-195 | a group starts with its own H2, holds no other H2 and ends at the next H2 or at the end |
| TextSplitter.FindIsFirst | src/core/textSplitter.ts:186-193 | `findIndex` finds the first of the filtered H2 blocks |
| TextSplitter.GroupsTile | src/core/textSplitter.ts:186-195 | the groups from a position on cover every block from the first H2, each once and in order |
| TextSplitter.TileStep | src/core/textSplitter.ts:189-195 | one group followed by the groups of the later H2 blocks covers the blocks from that H2 on |
| TextSplitter.H2GroupsCover | src/core/textSplitter.ts:186-195 | there is one group per H2, and together they are the blocks from the first H2 to the end |
| TextSplitter.GroupIntoSlides | src/core/textSplitter.ts:178-183 | no blocks give no slides |
| TextSplitter.FirstH1 | src/core/textSplitter.ts:113-124 | the position `indexOf(h1Blocks[0])` finds is the first H1 block |
| TextSplitter.Splitter.constructor | src/core/textSplitter.ts:12-17 | a new splitter holds its text and the blocks of all its tokens |
| TextSplitter.Splitter.ParseMarkdown | src/core/textSplitter.ts:22-66 | each handled token appends its block to `blocks`, in token order |
| TextSplitter.Splitter.CalculateOptimalSlideCount | src/core/textSplitter.ts:147-173 | a numeric `maxSlides` is used as given, and `auto` gives a count between 3 and 15 |
| TextSplitter.Splitter.GenerateSlides | src/core/textSplitter.ts:104-142 | no blocks give the default slide; an H1 puts its intro first and leaves the blocks after it to grouping with one slide less; otherwise all blocks are grouped, and an empty result becomes the default slide |
| TextSplitter.JoinPrefixesRest | src/core/textSplitter.ts:96 | after the first item, each item is preceded by the separator |
| TextSplitter.ListTextShape | src/core/textSplitter.ts:84-99 | the list text is the first item's text, then each later item's text after a newline and the bullet |
| TextSplitter.ParagraphTextsSnoc | src/core/textSplitter.ts:73-75 | an inner paragraph adds its text at the end, and any other inner token adds nothing |
| TextSplitter.QuoteTextSkipsOthers | src/core/textSplitter.ts:71-79 | a quote's text ignores inner tokens that are not paragraphs |
| TextSplitter.BlocksCount | src/core/textSplitter.ts:25-63 | parsing keeps one block per handled token and drops the others |
| Typography.MatchAt | canvas-server.js:166 | a match of `\b<word>\s+` covers the word and at least one whitespace character after it, all of them whitespace |
| Typography.ReplaceFrom | canvas-server.js:167 | a global replacement never lengthens the text, since each match of one or more spaces becomes one no-break space |
| Typography.FixAllOfEmpty | canvas-server.js:151-152 | empty text stays empty |
| Typography.FixHangingWords | canvas-server.js:151-171 | the loop applies the replacement for each dictionary word in order; with the intended boundary only whitespace changes, and the text never grows |
| Typography.ReplaceFromKeepsVisible | canvas-server.js:166-167 | with the intended boundary, a replacement keeps every character other than whitespace, in order |
| Typography.IntendedKeepsVisible | canvas-server.js:166-167 | one dictionary word's replacement keeps the visible text and never lengthens it |
| Typography.CyrillicNotAscii | canvas-server.js:154-166 | no character that matches a dictionary word's first letter, in any case, is an ASCII word character |
| Typography.AsWrittenFromUnchanged | canvas-server.js:166-167 | as written, text without ASCII letters, digits or `_` has no match for a Cyrillic word |
| Typography.DictionaryIsCyrillic | canvas-server.js:154-159 | every dictionary word is non-empty and spelt in small Cyrillic letters |
| Typography.AsWrittenFixAllUnchanged | canvas-server.js:163-168 | as written, no dictionary word changes text without ASCII letters, digits or `_` |
| Typography.AsWrittenIgnoresCyrillicText | canvas-server.js:151-171 | as written, the processor returns ordinary Russian text unchanged |
| Typography.AsWrittenExample | canvas-server.js:151-171 | as written, `в доме` keeps its breakable space |
| Typography.IntendedBindsLeadingWord | canvas-server.js:166-167 | with the intended boundary, a dictionary word at the start of the text is joined to the next word by a no-break space |
| Typography.IntendedExample | canvas-server.js:166-167 | with the intended boundary, `в доме` becomes `в`, a no-break space, then `доме` |
| Typography.AsWrittenLowercases | canvas-server.js:166-167 | as written, a capitalised dictionary word after an ASCII word character is matched regardless of case and written back in its lower-case dictionary form |
| Validation.ClientId | src/api/middleware/validation.ts:52 | a non-empty address is the client's key, and an absent or empty one is `unknown` |
| Validation.RateLimiter.constructor | src/api/middleware/validation.ts:48-49 | the limit defaults to 10 requests and the window to 60000 ms, and the map starts empty |
| Validation.RateLimiter.Handle | src/api/middleware/validation.ts:51-78 | one request updates only its client's entry, as the fixed-window rule says, returns the verdict for that entry, and keeps every count in range |
| Validation.AdmitKeepsCounts | src/api/middleware/validation.ts:57-62 | every stored count stays between 1 and the limit, or at 1 when the limit is below 1 |
| Validation.AdmitOutcomes | src/api/middleware/validation.ts:57-77 | a missing or expired entry restarts the window at count 1 and passes; within the window a request passes and counts iff the count is below the limit; otherwise it is refused and the entry is unchanged |
| Validation.RefusalLeavesMapAlone | src/api/middleware/validation.ts:63-77 | a refusal changes no entry, and `retryAfter` is the seconds left until the reset, rounded up |
| Validation.OtherClientsUntouched | src/api/middleware/validation.ts:55-62 | a request adds only its own client's key and changes no other client's entry |
| Validation.WindowBound | src/api/middleware/validation.ts:57-62 | requests arriving up to the reset time, the reset instant included, stay in the current window, and no more of them pass than the limit leaves room for |
| Validation.AtMostMaxPerWindow | src/api/middleware/validation.ts:57-62 | from the request that opens a window to its reset time, at least one and at most `maxRequests` requests pass; a limit below 1 still lets one through |
| Validation.ResetInstantIsOldWindow | src/api/middleware/validation.ts:57-74 | at the reset instant a full window still refuses with `retryAfter` 0, and one millisecond later a new window opens |
| Validation.LeadingDigits | src/api/middleware/validation.ts:84 | `parseInt` reads exactly the leading run of decimal digits |
| Validation.SizeLimit | src/api/middleware/validation.ts:82-103 | a refusal reports the limit it applied |
| Validation.SizeLimitOfNumber | src/api/middleware/validation.ts:84-102 | a length written as a plain number is refused iff it exceeds the limit, so a length equal to the limit passes |
| Validation.LeadingDigitsAll | src/api/middleware/validation.ts:84 | a string of digits is read whole |
| Validation.MissingOrGarbledLengthPasses | src/api/middleware/validation.ts:84-102 | a missing or empty header counts as 0, a header without digits is NaN, and both pass a non-negative limit |
| PuppeteerRenderer.LookupFirst | src/renderer/puppeteerRenderer.ts:171-178 | a name is looked up at its first entry, and a name with no entry has no value |
| PuppeteerRenderer.Placeholder | src/renderer/puppeteerRenderer.ts:172 | the pattern for a key is the key between `{{` and `}}` |
| PuppeteerRenderer.ReplaceAtAbsent | src/renderer/puppeteerRenderer.ts:173 | from a position on which the pattern no longer occurs, a global replace copies the text |
| PuppeteerRenderer.ReplaceAllAbsent | src/renderer/puppeteerRenderer.ts:173 | a text without the pattern is returned unchanged |
| PuppeteerRenderer.ReplaceAtFirst | src/renderer/puppeteerRenderer.ts:173 | text before the next occurrence is copied, the occurrence is replaced and the scan resumes after it |
| PuppeteerRenderer.ReplaceAllFirst | src/renderer/puppeteerRenderer.ts:173 | the first occurrence is replaced and the scan resumes after it |
| PuppeteerRenderer.BracesOfPlaceholder | src/renderer/puppeteerRenderer.ts:172 | in a text whose only braces belong to one placeholder, every `{` is one of that placeholder's two |
| PuppeteerRenderer.OnlyItsOwnPlaceholder | src/renderer/puppeteerRenderer.ts:171-174 | the placeholder of another plain key does not occur in such a text |
| PuppeteerRenderer.ValueInsertedVerbatim | src/renderer/puppeteerRenderer.ts:171-174 | with the intended substitution, the one placeholder of a key becomes the value exactly as it is, whatever characters it holds |
| PuppeteerRenderer.PlaceholderFirst | src/renderer/puppeteerRenderer.ts:172-173 | a placeholder after a brace-free prefix is the first occurrence of its pattern |
| PuppeteerRenderer.PlaceholderLast | src/renderer/puppeteerRenderer.ts:172-173 | a brace-free suffix holds no further occurrence of the pattern |
| PuppeteerRenderer.SubstitutedUntouched | src/renderer/puppeteerRenderer.ts:171-174 | a template without the placeholder of any key passes through the substitution loop unchanged |
| PuppeteerRenderer.PlaceholderPasses | src/renderer/puppeteerRenderer.ts:171-174 | after any number of passes of the loop, a template's one placeholder has been replaced by its key's value if that key's pass has run, and the template is untouched otherwise |
| PuppeteerRenderer.PlaceholderReplaced | src/renderer/puppeteerRenderer.ts:171-174 | a template whose one placeholder is `{{k}}` comes out of the loop with `String(value)` of `k` in its place, provided no value brings a placeholder of its own (corrected; see Findings) |
| PuppeteerRenderer.WordRun | src/renderer/puppeteerRenderer.ts:177 | the run of `\w` characters at the start never extends past the text |
| PuppeteerRenderer.WordRunOf | src/renderer/puppeteerRenderer.ts:177 | `(\w+)` takes a word exactly up to the first character outside `\w` |
| PuppeteerRenderer.IndexOf | src/renderer/puppeteerRenderer.ts:177 | a found occurrence lies within the text |
| PuppeteerRenderer.IndexOfFirst | src/renderer/puppeteerRenderer.ts:177 | the lazy body ends at the first `{{/if}}` |
| PuppeteerRenderer.BlockAt | src/renderer/puppeteerRenderer.ts:177 | a conditional block at the start of a text lies within it and is at least as long as `{{#if ` |
| PuppeteerRenderer.NamedBlock | src/renderer/puppeteerRenderer.ts:177 | the rest of a block after `{{#if ` lies within the text |
| PuppeteerRenderer.BlockBody | src/renderer/puppeteerRenderer.ts:177 | a block's length is its opening tag, its name, `}}`, its body and `{{/if}}`, and the body ends within the text |
| PuppeteerRenderer.CloseNotStraddled | src/renderer/puppeteerRenderer.ts:177 | a body without `{{/if}}` ends right before the first `{{/if}}` that follows it |
| PuppeteerRenderer.BlockReplaced | src/renderer/puppeteerRenderer.ts:177-179 | `{{#if name}}body{{/if}}` becomes its body when the name's value is truthy and nothing otherwise; the scan resumes after the first `{{/if}}`, so blocks do not nest |
| PuppeteerRenderer.ConditionalsAtBlock | src/renderer/puppeteerRenderer.ts:177-179 | the block at the head of a text is settled and the scan resumes after it |
| PuppeteerRenderer.BlockShape | src/renderer/puppeteerRenderer.ts:177 | a text of the form `{{#if name}}body{{/if}}rest` opens with the block of that name and body |
| PuppeteerRenderer.NameShape | src/renderer/puppeteerRenderer.ts:177 | after `{{#if `, a plain name and `}}` lead on to the body |
| PuppeteerRenderer.BodyShape | src/renderer/puppeteerRenderer.ts:177 | the body runs to the first `{{/if}}` |
| PuppeteerRenderer.NoBlocksUntouched | src/renderer/puppeteerRenderer.ts:177-179 | a text without `{{#if ` passes the conditional pass unchanged |
| PuppeteerRenderer.NoBlockHere | src/renderer/puppeteerRenderer.ts:177 | no block starts where `{{#if ` does not occur |
| PuppeteerRenderer.TextBeforeBlocks | src/renderer/puppeteerRenderer.ts:177-179 | text before the first `{{#if ` is copied as it is |
| PuppeteerRenderer.UnknownNameVanishes | src/renderer/puppeteerRenderer.ts:177-179 | the block of a name that is no key and nothing an object inherits vanishes |
| PuppeteerRenderer.InheritedNameKeepsBody | src/renderer/puppeteerRenderer.ts:177-179 | `{{#if constructor}}` keeps its body although no variable has that name, since `vars.constructor` is inherited and truthy |
| PuppeteerRenderer.ReplaceTemplateVariables | src/renderer/puppeteerRenderer.ts:167-182 | the loop replaces the placeholder of each entry in turn, and the conditional pass then settles the blocks (corrected; see Findings) |
| PuppeteerRenderer.ValuesSettledByConditionals | src/renderer/puppeteerRenderer.ts:171-179 | substitution runs first, so a block brought in by a value is settled by the conditional pass |
| PuppeteerRenderer.ExpandDoubleDollar | src/renderer/puppeteerRenderer.ts:173 | `$$` in a replacement string otherwise free of dollar signs becomes one `$` |
| PuppeteerRenderer.WholeMatch | src/renderer/puppeteerRenderer.ts:173 | as written, a text that is exactly the pattern becomes the expanded replacement |
| PuppeteerRenderer.DollarPatternsExpand | src/renderer/puppeteerRenderer.ts:171-174 | as written, a value holding `$$` loses a dollar sign, and a value `$&` puts the placeholder back |
| PuppeteerRenderer.WholePattern | src/renderer/puppeteerRenderer.ts:173 | with the intended substitution, a text that is exactly the pattern becomes the value |
| PuppeteerRenderer.DoubleDollarAsWritten | src/renderer/puppeteerRenderer.ts:173 | as written, `$$` in the value comes out as `$` |
| PuppeteerRenderer.AmpersandAsWritten | src/renderer/puppeteerRenderer.ts:173 | as written, the value `$&` reproduces the matched placeholder |
| PuppeteerRenderer.Content | src/renderer/puppeteerRenderer.ts:142-162 | an unknown slide type gives the invalid-slide paragraph, and an intro without title and text gives nothing |
| PuppeteerRenderer.QuoteWrapped | src/renderer/puppeteerRenderer.ts:154-157 | a quote is one `quote-content` division whose class is its size, or `quote--large` when it has none |
| PuppeteerRenderer.StyleOf | src/renderer/puppeteerRenderer.ts:104 | a missing style is `default` |
| PuppeteerRenderer.ShapeFlags | src/renderer/puppeteerRenderer.ts:107-109 | the second shape is shown iff the first is and the style is bright; a missing `showAbstraction` counts as true and `false` hides both |
| PuppeteerRenderer.SlideVars | src/renderer/puppeteerRenderer.ts:118-133 | the template variables are the twelve names of the object literal, in its order |
| PuppeteerRenderer.SlideConditions | src/renderer/puppeteerRenderer.ts:107-132 | the conditionals see the two shape flags, and `showArrow` holds iff the slide is not the last |
| PuppeteerRenderer.SlideEntry | src/renderer/puppeteerRenderer.ts:118-133 | each template variable is found at its own entry |
| PuppeteerRenderer.ArrowOnAllButLast | src/renderer/puppeteerRenderer.ts:132-179 | the arrow block of a slide's template is kept exactly when the slide is not the last (corrected; see Findings) |
| PuppeteerRenderer.GenerateSlideHtml | src/renderer/puppeteerRenderer.ts:97-137 | the page is the base template rendered with the slide's variables, with each shape drawn only when its flag is set (corrected; see Findings) |
| SmartWrapRestore.GoodPatterns | corrected-server.js:15-29 | every keep-together pattern has literals without an ASCII word character (and, matched case-insensitively, Cyrillic letters only), and a leading `\d+` is followed, past optional spaces, by such a literal, so no pattern can match inside a placeholder |
| SmartWrapRestore.ReplaceFromPieces | corrected-server.js:36-40 | one pattern's global replace, over text made of characters and whole placeholders, cuts only between those pieces: the result is again characters and whole placeholders, and each saved phrase is made of the pieces it was cut from |
| SmartWrapRestore.ProtectedPieces | corrected-server.js:35-41 | after any number of keep-together patterns, a text without `_` is characters and whole placeholders, and each saved phrase holds only placeholders saved before it |
| SmartWrapRestore.LinesTokened | corrected-server.js:44-63 | splitting at whitespace, filling the lines and joining them with newlines keep every placeholder whole |
| SmartWrapRestore.ReplacePieces | corrected-server.js:64-66 | replacing a placeholder everywhere replaces exactly the pieces that are that placeholder and nothing else |
| SmartWrapRestore.RestoredBackOpens | corrected-server.js:63-66 | restored last-made first, text made of characters and saved placeholders ends with no underscore left |
| SmartWrapRestore.WrapLeavesNoPlaceholder | corrected-server.js:11-69 | for every text without `_` and every width, the wrap with its placeholders restored last-made first leaves no placeholder in its output (corrected; see Findings) |

## Left out

- The `marked` library: the lexer's tokens are an input datatype, `marked`/`marked.parseInline` are injected functions, and the `parseWith*Accents` helpers (corrected-server.js:95-111 and their copies) are a parameter, because the library is foreign code.
- Text measurement (`ctx.measureText`) is the injected `measure` function, which returns whole pixels (see the `Wrapping.Wrap` line below), and its `actualBoundingBoxDescent` the injected `descent` function, and drawing is the list of fill and stroke commands; pixels, fonts and the canvas itself are foreign I/O.
- `renderIntroSlide`, `renderQuoteSlide`, `renderSlideToCanvas`, `loadAvatarImage` and `renderAvatar` (canvas-server.js:126-144,486-510,600-773) only place the modelled lines on the canvas, fetch an image and draw pixels; their shared layout pieces (`wrapPlainForIntro`, `renderRichText`, `renderTextSlide`'s vertical advance, `getContrastColor`) are modelled.
- Wrapping.Wrap: text widths are whole pixels (`measure` returns a `nat`, and the cursor and stroke ends are integers), while the canvas measures fractional doubles and adds them up in `currentWidth` and `x`. The same holds for RichText.RenderRichText, RichText.RenderTextSlide and PlainWrap.PlainGroups. Every lemma holds for any `measure`, but only for integer widths, so the line breaks a canvas decides from fractional widths and their rounding in the sums are not covered.
- Floating point: `getLuminance`, `hexToHsl`, the channel values of `hslToHex` and the trigonometry of `polarToCartesian` are parameters. Contrast ratios and shape radii are `real`s, exact where JavaScript rounds.
- `Math.random`, the shuffled seed pool and `Date.now()` are parameters: the seed `generatePattern` draws, and the rate limiter's and error handler's clock values.
- Puppeteer (`initBrowser`, `renderHTML`, screenshots, `healthCheck`, `cleanup`) is browser I/O and is not modelled.
- The HTML and CSS bodies of `create*HTML`, `baseTemplate`, src/simple-renderer.ts and image-server.js are presentation only. The decisions they interpolate are modelled in SlideHtml and PuppeteerRenderer.
- Express wiring, the routes, the process hooks, `validateBody` and `validateQuery` (src/api/middleware/validation.ts:9-45) and all logging only forward to the modelled parts. The schema those middlewares run is modelled in CarouselSchema.
- Zod's message texts are kept as opaque strings; only the issue codes, paths and counts are modelled.
- Strings are sequences of Unicode scalar values, not UTF-16 code units. The two agree on the Cyrillic and Latin text this code handles.
- `Object.entries` order is the order of the given sequence of pairs.
- A slide's type is any string, so that the `default` branches of the type switches are reachable.
- src/core/textSplitter.ts breaks off at line 196, inside `groupIntoSlides`. The rest of that method, `createIntroSlide` and `createDefaultSlide` are not part of this model; they are parameters, and only the H2 ranges are modelled.
- TextSplitter.Splitter.GenerateSlides: with no blocks, line 106 returns `createDefaultSlide()` itself, while line 132 pushes the same call's result into the slide array. Since that function is not visible, the model returns the one-slide list in both places.
- SlideHtml.ColorsByKind: styled-server.js looks up its colour scheme by the slide's colour name, so an inherited name such as `constructor` yields undefined colours. No fold ever produces such a name, so the model leaves that out.
- PatternGenerator.Stream: the generator's 32-bit words are exact integers, and each value is such a word divided by 2^32 as a `real`. A double holds every such quotient exactly, so the model's values are the source's values.
- RichText.RenderTextSlide: a paragraph's colours are the strings given. A real canvas normalises the `fillStyle` strings it accepts (`#FFF` reads back as `#ffffff`) and ignores a malformed or non-string one, so the colour carried over to the next paragraph is the model's string, not the canvas's normalised form.
- SmartWrapRestore.WrapLeavesNoPlaceholder: covers texts without `_`. A text that itself spells a placeholder, such as `__TOKEN0_0__`, has it replaced by a saved phrase, so no such promise holds for it. The lemma states that no placeholder survives; it does not state that the output words are the input words.
- SmartWrap.FillLines and SlideText count characters where the source counts UTF-16 code units.

## Findings

| source | as written | input that shows it | evidently intended | confidence | as-written member | corrected member |
|---|---|---|---|---|---|---|
| canvas-server.js:163-168 | `\b<word>\s+` without the `u` flag treats only `[A-Za-z0-9_]` as word characters, so a Russian preposition matches only right after an ASCII word character. The replacement writes the lower-case dictionary word, whatever case was matched. | `в доме` keeps its ordinary space; `xВ д` becomes `xв` followed by a no-break space. | every dictionary word that is not inside a longer word is bound to the next word, in its own spelling | high, not executed | Typography.AsWrittenExample | Typography.IntendedExample |
| canvas-server.js:466-474 | `templates[type]` is truthy for names every object inherits, so `type: "toString"` takes the template branch and spreads a function that holds no title, text or colour. | a final slide config with type `toString` and no overrides | an unknown type falls back to the default closing slide | high, not executed | FinalSlide.AsWrittenInheritedTypeLosesFields | FinalSlide.FinalSlideFields |
| corrected-server.js:64-67 | Placeholders are restored in the order they were made. A phrase saved later can hold an earlier placeholder, and that placeholder is then never restored. | `5% практики` at any width below its length gives `__TOKEN1_0__ практики` | the text comes back whole: restore the last-made placeholder first, so that no placeholder survives for any text | high, not executed | SmartWrap.AsWrittenLeavesPlaceholder | SmartWrapRestore.WrapLeavesNoPlaceholder |
| src/core/patternGenerator.ts:89-97 | `result` is always at least `baseRadius`, so the bounds check takes `baseRadius` off every value above 0, and each radius is a small fraction of the variation. | the default style (half size 240, growth 3) at the random value 0.5 gives radius 36 | a radius in the band between the inner and the outer radius (156 at that value) | medium, not executed | PatternGenerator.AsWrittenShrinksRadius | PatternGenerator.RadiusInBand |
| src/renderer/puppeteerRenderer.ts:171-174 | `html.replace(regex, String(value))` interprets `$` patterns in the value. | a value `costs $$5` renders `costs $5`; a value `$&` puts the placeholder back | the value is inserted as it is | high, not executed | PuppeteerRenderer.DollarPatternsExpand | PuppeteerRenderer.ValueInsertedVerbatim |
