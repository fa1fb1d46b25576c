# Fog of War — a Dafny model of its core

Fog of War is an Ionic/Angular app. It plays a video under an opaque black "fog"
layer, and the user scratches the fog away with a circular brush. This project
models the parts of the app that hold its logic:

- **Home page** (`src/app/home/home.page.ts`). Covers:
  - the letterbox geometry that sizes the canvas for the video;
  - the RGBA fog mask and the fully opaque mask it starts as;
  - the brush, which clears the alpha of the pixels of a disc that its bounding box reaches, as the source computes that box, and a corrected brush that clears the whole disc;
  - the mouse-stroke flag;
  - the dirty-flag handshake between the mask and the cached fog canvas that the frame loop draws;
  - fog reset.
- **Translation service** (`src/app/services/translation.service.ts`). Covers:
  - the initial language: saved preference, then browser language, then English;
  - `setLanguage` and `getLanguage`, with the language guard as the source writes it, and a corrected guard;
  - `translate`/`t`: lookup with fallback to English and then to the key, followed by `{{name}}` placeholder substitution.
- **Tutorial** (`src/app/components/tutorial/tutorial.component.ts`): a four-step counter with next, previous, skip and close.
- **Language selector** (`src/app/components/language-selector/language-selector.component.ts`): the offered languages, the selected code and its native name.

Modules:

- `Wrappers`: the `Option` datatype.
- `Geometry`: display, backing and mask sizes over exact reals.
- `Raster`: the byte layout of an ImageData.
- `Brush`: the stamp as a specification function, and the two loops as a method over an `array`.
- `Home`: the `HomePage` class with its fields.
- `Placeholders`: the global regular-expression replace, as a parse into pieces followed by a fill.
- `Translation`: table functions and the `TranslationService` class.
- `Tutorial`: the `TutorialComponent` class plus a pure transition function for multi-step properties.
- `LanguageSelector`: the `LanguageSelectorComponent` class.

The browser's outputs enter the model as parameters:

- the container's bounding-rectangle, client and window sizes, and the video's size;
- `devicePixelRatio`;
- the canvas's bounding rectangle;
- whether the video is ready;
- the stored language;
- `navigator.language`.

The translation table is a parameter whose languages are exactly `en`, `es` and `pl`.

## Model

| member | source | states |
|---|---|---|
| Geometry.FirstNonZero | src/app/home/home.page.ts:186-188 | `rect \|\| client \|\| window`: the rectangle's size when non-zero, else the client size when non-zero, else the window size |
| Geometry.DegenerateFit | src/app/home/home.page.ts:210-237 | for a video with a zero dimension the display size has a zero side, fits the container and keeps the cross-product aspect relation |
| Geometry.ResolveLayout | src/app/home/home.page.ts:201-237 | setup is retried exactly when a container dimension is 0; otherwise the display size fits the container and keeps the video's aspect ratio, and it has a zero side exactly when the video has one |
| Geometry.InitialFitIsLetterbox | src/app/home/home.page.ts:217-227 | the landscape/portrait fit is positive, lies inside the container, keeps the aspect ratio and touches one side |
| Geometry.ClampsAreInert | src/app/home/home.page.ts:229-237 | in exact arithmetic the two bound checks never change the fitted size |
| Geometry.FitVideoIsLetterbox | src/app/home/home.page.ts:208-237 | `displayWidth / displayHeight == videoWidth / videoHeight`, the display fits the container, and one side is filled |
| Geometry.FitVideoFitsLongerSide | src/app/home/home.page.ts:219-227 | landscape gives `width = min(cw, ch*aspect)`; otherwise `height = min(ch, cw/aspect)` |
| Geometry.EffectiveDpr | src/app/home/home.page.ts:256 | `devicePixelRatio \|\| 1`: the ratio when it is non-zero, and 1 when it is 0 |
| Geometry.BackingSize | src/app/home/home.page.ts:256-258 | the backing store divided by the device pixel ratio is the display size, with the same aspect ratio |
| Geometry.CanvasDimension | src/app/home/home.page.ts:257-258 | a length assigned to a canvas dimension keeps its integer part: `n <= x < n + 1` |
| Raster.ByteIndexDecodes | src/app/home/home.page.ts:565-566 | byte `(py*stride+px)*4+c` belongs to column px, row py and channel c |
| Raster.ByteIndexEncodes | src/app/home/home.page.ts:565-566 | every byte index is the index of its own column, row and channel |
| Raster.PixelInBuffer | src/app/home/home.page.ts:565-566 | each channel of each pixel of a well-formed mask lies inside its buffer |
| Raster.OpaqueMask | src/app/home/home.page.ts:275-300 | the fresh mask is a well-formed ImageData of the requested size |
| Brush.Stamped | src/app/home/home.page.ts:558-570 | the buffer after the loops has the original length and every colour byte copied |
| Raster.OpaqueMaskIsFogged | src/app/home/home.page.ts:285-300 | every pixel of the fresh mask is (0, 0, 0, 255) |
| Brush.Ceil | src/app/home/home.page.ts:553 | `Math.ceil`: `x <= ceil(x) < x + 1` |
| Brush.SourceBox | src/app/home/home.page.ts:552-555 | the bounding box as written stays inside the canvas |
| Brush.FullBox | src/app/home/home.page.ts:552-555 | the corrected bounding box stays inside the canvas |
| Brush.ClearIfInDisc | src/app/home/home.page.ts:560-568 | the inner loop body sets the pixel's alpha byte to 0 exactly when the pixel is in the disc and the byte is inside the buffer; every other byte is unchanged |
| Brush.ApplyBrush | src/app/home/home.page.ts:544-568 | the loops over a copy of the mask produce exactly the stamped buffer, at the same size |
| Brush.StampOnlyClearsAlpha | src/app/home/home.page.ts:564-567 | only alpha bytes (index ≡ 3 mod 4) change, and only to 0; no byte increases and the length is kept |
| Brush.StampIdempotent | src/app/home/home.page.ts:544-568 | stamping twice with the same stamp equals stamping once |
| Brush.StampsCommute | src/app/home/home.page.ts:544-568 | two stamps give the same mask in either order |
| Brush.StampAtPixel | src/app/home/home.page.ts:558-568 | with the mask's width as stride, a pixel's alpha becomes 0 exactly when it is in the box and the disc, stays as it was otherwise, and its colour never changes |
| Brush.DiscWithinRadius | src/app/home/home.page.ts:549-564 | a pixel of the disc is within the radius of the centre on each axis |
| Brush.SourceBoxHits | src/app/home/home.page.ts:552-568 | with the box as written, an in-canvas pixel is cleared exactly when it is in the disc and strictly before `c + r` on both axes |
| Brush.FullBoxHits | src/app/home/home.page.ts:552-568 | with the corrected box, an in-canvas pixel is cleared exactly when it is in the disc |
| Brush.SourceBoxMissesDiscEdge | src/app/home/home.page.ts:553 | centre (10, 10), radius 5: pixel (15, 10) is in the disc but not cleared, while (5, 10) is cleared |
| Home.StampAt | src/app/home/home.page.ts:529-548 | the centre and radius are the pointer position and the brush size, each scaled by canvas size over displayed size |
| Home.BrushedMask | src/app/home/home.page.ts:544-574 | the mask after one stamp with the source's bounding box keeps the mask's width, height and buffer length |
| Home.CorrectedBrushedMask | src/app/home/home.page.ts:544-574 | the mask after one stamp with the corrected bounding box keeps the mask's width, height and buffer length |
| Home.BrushClearsDisc | src/app/home/home.page.ts:544-575 | when canvas and mask sizes agree, the brush keeps the mask's size, clears the alpha of exactly those disc pixels that lie strictly before `c + r` on both axes, and leaves colours untouched |
| Home.CorrectedBrushClearsDisc | src/app/home/home.page.ts:552-568 | with the corrected box and agreeing sizes, the alpha of exactly the pixels in the disc is cleared and colours are untouched |
| Home.BrushIdempotent | src/app/home/home.page.ts:511-575 | repeating a stamp at the same point changes nothing |
| Home.DrawingIffStrokeOpen | src/app/home/home.page.ts:478-509 | after any sequence of mouse events, `isDrawing` holds exactly when some mousedown has no later mouseup |
| Home.HomePage.constructor | src/app/home/home.page.ts:14-54 | the elements found in `ngAfterViewInit` are recorded; the page starts with no mask, a clean flag, brush size 50, not drawing, and the 300 x 150 size an HTML canvas has before its size is assigned |
| Home.HomePage.DrawFog | src/app/home/home.page.ts:360-463 | in a frame that composites the fog (judged on the state before the frame), a dirty mask is copied into the existing cache and the flag is cleared, and a clean flag leaves the cache as it was; any other frame changes nothing |
| Home.HomePage.RemoveFog | src/app/home/home.page.ts:511-575 | with a context, a mask and a non-empty rectangle, the mask becomes the mask brushed with the source's bounding box and is marked dirty; otherwise nothing changes |
| Home.HomePage.OnMouseDown | src/app/home/home.page.ts:478-493 | starts a stroke and stamps at the pointer relative to the canvas |
| Home.HomePage.OnMouseMove | src/app/home/home.page.ts:495-505 | stamps only while a stroke is open |
| Home.HomePage.OnMouseUp | src/app/home/home.page.ts:507-509 | ends the stroke |
| Home.HomePage.SetBrushSize | src/app/home/home.page.ts:583-587 | the brush size becomes the parsed slider value |
| Home.HomePage.ResetFog | src/app/home/home.page.ts:589-606 | with a canvas of positive size, the mask becomes a fully opaque mask of the canvas size and is marked dirty; otherwise nothing changes |
| Home.HomePage.SetupCanvas | src/app/home/home.page.ts:138-356 | missing elements or a zero measured container change nothing; otherwise the canvas gets the backing size and the mask a fresh opaque mask of the floored display size, which the cache shows; a video with a zero dimension ends in `MaskFailed` |
| Placeholders.WordRun | src/app/services/translation.service.ts:202 | the longest prefix made of `\w` characters |
| Placeholders.PlaceholderNameLength | src/app/services/translation.service.ts:202 | a positive result means the string starts with `{{`, a non-empty `\w+` name and `}}` |
| Placeholders.Parse | src/app/services/translation.service.ts:202 | every placeholder found has a `\w+` name |
| Placeholders.RenderParse | src/app/services/translation.service.ts:202 | the scan loses nothing: the pieces spell out the original string |
| Placeholders.FillWithoutValues | src/app/services/translation.service.ts:202-204 | with no usable parameter, filling spells every piece out, placeholders verbatim |
| Placeholders.Substitute | src/app/services/translation.service.ts:201-205 | when every parameter is missing or empty, the replace returns the string unchanged |
| Placeholders.SubstitutePlaceholder | src/app/services/translation.service.ts:202-204 | a leading `{{name}}` becomes `params[name]` when that is non-empty, is kept otherwise, and the scan continues after it |
| Placeholders.SubstituteText | src/app/services/translation.service.ts:202 | a character that does not open a placeholder is copied as it is |
| Translation.Lookup | src/app/services/translation.service.ts:197-199 | the result is the current language's entry, the English entry or the key, and is empty only for an empty key |
| Translation.LookupFallback | src/app/services/translation.service.ts:197-199 | a non-empty entry of the current language wins, then a non-empty English entry, then the key |
| Translation.TranslateIn | src/app/services/translation.service.ts:196-208 | without parameters, or with no usable values, the looked-up string comes back unchanged |
| Translation.PrimarySubtag | src/app/services/translation.service.ts:178 | `split('-')[0]`: the longest hyphen-free prefix of the tag |
| Translation.InitialLanguage | src/app/services/translation.service.ts:171-183 | the saved language if the guard as written accepts it, else the browser's primary subtag if accepted, else `en`; supported unless an inherited member name was saved or sent |
| Translation.SetLanguageAsWritten | src/app/services/translation.service.ts:185-190 | an accepted name becomes current and anything else is ignored; for a name that is not an inherited member this is the corrected update |
| Translation.SetLanguageAsWrittenAcceptsInheritedName | src/app/services/translation.service.ts:171-190 | the guards as written accept `constructor` in `setLanguage` and a saved `__proto__` in the constructor, neither a supported language |
| Translation.NextLanguage | src/app/services/translation.service.ts:185-190 | corrected guard: a supported code becomes current, any other code leaves the language unchanged, so the language stays supported |
| Translation.TranslationService.constructor | src/app/services/translation.service.ts:171-183 | the starting language is the initial-language choice as written |
| Translation.TranslationService.SetLanguage | src/app/services/translation.service.ts:185-190 | the current language follows the guard as written |
| Translation.TranslationService.GetLanguage | src/app/services/translation.service.ts:192-194 | the current language is `en`, `es`, `pl` or an inherited member name the guard let through |
| Translation.TranslationService.Translate | src/app/services/translation.service.ts:196-208 | the service's translation is the table lookup for its current language, and without parameters exactly that lookup |
| Translation.TranslationService.T | src/app/services/translation.service.ts:211-213 | `t` returns exactly what `translate` returns |
| Tutorial.Apply | src/app/components/tutorial/tutorial.component.ts:43-64 | an action keeps the step in range, never reopens a closed tutorial, and moves the step by at most one |
| Tutorial.Run | src/app/components/tutorial/tutorial.component.ts:43-59 | a sequence of actions moves the step by at most one per action |
| Tutorial.RunStaysInRange | src/app/components/tutorial/tutorial.component.ts:11-55 | after any sequence of actions the step is still in `[0, 3]` |
| Tutorial.RunKeepsClosed | src/app/components/tutorial/tutorial.component.ts:57-64 | once closed, the tutorial stays closed |
| Tutorial.NextAdvancesOrCloses | src/app/components/tutorial/tutorial.component.ts:43-49 | `next` adds exactly 1 before the last step; on the last step it closes and keeps the step |
| Tutorial.PreviousStepsBack | src/app/components/tutorial/tutorial.component.ts:51-55 | `previous` is a no-op at step 0 and subtracts 1 elsewhere |
| Tutorial.PreviousUndoesNext | src/app/components/tutorial/tutorial.component.ts:43-55 | from a step that is not the last, `next` then `previous` restores the state |
| Tutorial.SkipCloses | src/app/components/tutorial/tutorial.component.ts:57-59 | `skip` always closes |
| Tutorial.TutorialComponent.constructor | src/app/components/tutorial/tutorial.component.ts:11 | the tutorial starts open at step 0 |
| Tutorial.TutorialComponent.Next | src/app/components/tutorial/tutorial.component.ts:43-49 | the new state is the `next` transition of the old one |
| Tutorial.TutorialComponent.Previous | src/app/components/tutorial/tutorial.component.ts:51-55 | the new state is the `previous` transition of the old one |
| Tutorial.TutorialComponent.Skip | src/app/components/tutorial/tutorial.component.ts:57-59 | the new state is the `skip` transition of the old one |
| Tutorial.TutorialComponent.Close | src/app/components/tutorial/tutorial.component.ts:61-64 | closing keeps the step |
| Tutorial.TutorialComponent.IsLastStep | src/app/components/tutorial/tutorial.component.ts:66-68 | true exactly on step 3 |
| Tutorial.TutorialComponent.IsFirstStep | src/app/components/tutorial/tutorial.component.ts:70-72 | true exactly on step 0 |
| LanguageSelector.FindByCode | src/app/components/language-selector/language-selector.component.ts:50 | `find` returns the first entry with the code, and nothing only when no entry has it |
| LanguageSelector.NativeName | src/app/components/language-selector/language-selector.component.ts:49-52 | the shown name is one of English, Español and Polski, and English when no offered language has the code |
| LanguageSelector.NativeNames | src/app/components/language-selector/language-selector.component.ts:18-52 | `en`, `es` and `pl` show as English, Español and Polski; any other code shows as English |
| LanguageSelector.OfferedAreSupported | src/app/components/language-selector/language-selector.component.ts:18-22 | the offered codes are exactly the translation service's languages |
| LanguageSelector.LanguageSelectorComponent.constructor | src/app/components/language-selector/language-selector.component.ts:24 | the selection starts at `en` |
| LanguageSelector.LanguageSelectorComponent.NgOnInit | src/app/components/language-selector/language-selector.component.ts:31-34 | the selection becomes the service's current language |
| LanguageSelector.LanguageSelectorComponent.SelectLanguage | src/app/components/language-selector/language-selector.component.ts:36-39 | the selection is the argument even if the service rejects it; the service follows its guard as written, so for a supported code its language then equals the selection |
| LanguageSelector.LanguageSelectorComponent.Confirm | src/app/components/language-selector/language-selector.component.ts:41-47 | confirming keeps the selection |
| LanguageSelector.LanguageSelectorComponent.CurrentLanguageName | src/app/components/language-selector/language-selector.component.ts:49-52 | the shown name is always English, Español or Polski |

## Left out

- Video and file plumbing is not modelled: picking a file, object URLs, `play()`, and the `setTimeout`/`loadedmetadata`/`loadeddata` retry chains at src/app/home/home.page.ts:40-136 and 151-199. It is media I/O driven by timers. `SetupCanvas` starts where the container has been measured.
- In `drawFog`, only the mask-to-cache handshake is modelled. Drawing the video, the test fills and the `requestAnimationFrame` rescheduling are rendering and scheduling. Whether the video can be drawn (`readyState >= 2`) is an input.
- `console` diagnostics are not modelled. This includes the `pixelsRemoved` counter and the pixel probes at src/app/home/home.page.ts:290 and 421.
- `localStorage` writes, `MenuController` and `ModalController` are not modelled. Closing the tutorial and confirming the language are each one flag.
- `onCanvasTouch` is not modelled (src/app/home/home.page.ts:466-476). It stamps at the first touch point through `removeFog`, after checking the context and the mask itself, and it never opens a stroke (`isDrawing` is left as it is).
- Home.HomePage.SetBrushSize takes the integer that `parseInt` returns. A non-numeric slider value, which would give NaN, is not modelled.
- Floating-point special values are not modelled as such. A zero video height makes the aspect ratio infinite and a zero width makes it 0; `DegenerateFit` gives the sizes the source then computes. A 0 x 0 video makes every size NaN, which a canvas dimension stores as 0, so it is modelled as the zero size. Non-finite container sizes cannot arise with reals.
- Numbers are exact reals, not IEEE doubles. Rounding in the aspect ratio and the brush distance test is not modelled.
- Large canvas sizes are not modelled. A canvas's `width`/`height` setter takes the integer part modulo 2^32, and a value above 2^31 - 1 is replaced by the default 300 or 150. `CanvasDimension` (the floor) therefore matches the browser only below 2^31.
- A freshly created canvas always yields a 2D context. The source's `if (!maskCtx)` branches are therefore treated as unreachable.
- Creating or reading an ImageData with a zero dimension throws in the browser. The model treats it as an abort that leaves the mask unchanged: `MaskFailed` in `SetupCanvas`, and a no-op in `ResetFog`.
- Stride mismatch, kept as written. `removeFog` uses the canvas's width as the row stride and the canvas size as the loop bounds. `setupCanvas` sizes the mask at the display size and `resetFog` at the canvas size, so the two agree only when the device pixel ratio is 1. The model keeps this mismatch (`BrushedMask` takes the canvas size). `BrushClearsDisc` states the disc property for the case where the sizes agree.
- Looking up a translation key or a placeholder parameter that is an inherited JavaScript object member is not modelled. Only own entries are looked up. This includes lookups in the current language when that language is an inherited name such as `constructor`: the model reads its entries as missing and falls back to English.
- The strings of the translation table (src/app/services/translation.service.ts:12-169) are not reproduced. The table is a parameter whose languages are `en`, `es` and `pl`.

## Findings

The page and the service follow the source as written. Each corrected definition is proved beside it.

| source | as written | input that shows it | evidently intended | confidence | as-written member | corrected member |
|---|---|---|---|---|---|---|
| src/app/home/home.page.ts:553,555 | the brush box ends at `ceil(c + r)`, exclusive, so a pixel exactly at `c + r` is never visited | centre (10, 10), radius 5: pixel (15, 10) is at distance 5, inside the disc, but stays fogged while (5, 10) is cleared | the box covers every pixel of the disc (`floor(c + r) + 1`, exclusive) | not executed | Brush.SourceBoxMissesDiscEdge | Home.CorrectedBrushClearsDisc |
| src/app/services/translation.service.ts:174,179,186 | `this.translations[lang]` is truthy for members inherited from `Object.prototype` | `setLanguage("constructor")` makes `getLanguage()` return `"constructor"`, and every lookup then falls back to English | only the table's own languages are accepted | not executed | Translation.SetLanguageAsWrittenAcceptsInheritedName | Translation.NextLanguage |
