# Image studio page and service client, modelled in Dafny

This project models the two pieces of logic in a browser image studio that can be
stated and checked apart from the React user interface and the remote model.

- **The image service client** (`services/geminiService.ts`). It decorates the
  text-to-image prompt with a style prefix and an optional HD phrase. It maps the
  edit strength to one of three instruction bands, with an optional "pro mode"
  clause. It assembles the ordered part list each operation sends. It decodes a
  multi-part reply: the last text part wins, and so does the last inline image,
  which becomes a `data:<mime>;base64,<data>` URL (section 3 of RFC 2397). A
  reply without an image is a failure. Every failure is rethrown with one fixed
  message per operation.
- **The generator page session** (`components/GeneratorPage.tsx`). The page state
  is a class whose fields are the component's state values, its two drawing
  flags and its mounted elements. The model covers:
  - the gestures on the inpaint overlay and the sketch pad (start, draw, stop);
  - the scan for a non-zero 32-bit pixel word when a stroke ends;
  - the input checks at the head of every action, and what each action leaves behind;
  - the in-place binarization loop that turns the resampled overlay into a
    black-and-white mask;
  - `resetState`, the upload handler and the main-button dispatch;
  - the page's `split(',')[1]` reading of data-URL payloads.

Files:

- `common.dfy`: `Option`, `Result`, and `NotIn`, "character absent from a string".
- `data_url.dfy`: building data URLs, and JavaScript's `split(sep)[k]`.
- `gemini_service.dfy`: the service client.
- `raster.dfy`: RGBA buffers, the `Canvas` class, the content scan and binarization.
- `generator_page.dfy`: the page session.

The remote model is a function parameter from request to reply. A reply is a
rejection, or a list of parts (or of generated images). The page reaches the
browser through other function parameters:

- the pixels a pointer stroke paints;
- the resampling `drawImage` performs;
- the PNG encoding behind `toDataURL`.

JavaScript truthiness is modelled by treating an absent string and `""` alike.
Each method of the session names the fields it may change (`modifies this`f`),
so every other field is guaranteed unchanged.

Where the code and the page's stated behaviour differ, the model follows the
code. `resetState` clears `hasMask` and `hasSketch` only when the corresponding
canvas is mounted, because `clearInpaintCanvas` and `clearSketchCanvas` do
nothing without one. The contracts of `ResetState` and `HandleFileChange` say so.
`handleInpaint` sets `loading` before it builds the mask, and it builds the mask
outside its `try`/`finally`. When the displayed image or the overlay has zero
width or height, `drawImage` or `getImageData` throws there, so no request is
sent and `loading` stays true. `HandleInpaint` promises exactly that; the helper
predicate `MaskDrawable` names the condition (both sizes of the image and of the
overlay positive) under which the mask can be built.

## Model

| member | source | states |
|---|---|---|
| GeminiService.FullPrompt | services/geminiService.ts:14-32 | The decorated prompt starts with the style's fixed prefix; stripping that prefix and the quality suffix gives back exactly the user's prompt |
| GeminiService.HdAppendsSuffix | services/geminiService.ts:30-32 | 'hd' appends exactly ", 4k, high resolution, sharp focus" to what 'standard' sends; 'standard' sends prefix + prompt unchanged |
| GeminiService.FullPromptDeterminesStyle | services/geminiService.ts:17-27 | Different styles never produce the same decorated prompt: the three prefixes differ within their common length |
| GeminiService.StylePrefixesDiffer | services/geminiService.ts:17-27 | Any two distinct style prefixes disagree at a position both cover |
| GeminiService.BandOf | services/geminiService.ts:71-77 | Subtle exactly below 0.3, moderate exactly on [0.3, 0.7), significant exactly from 0.7; so 0.3 and 0.7 fall in the upper band |
| GeminiService.BandMonotonic | services/geminiService.ts:71-77 | A larger strength never selects a weaker band |
| GeminiService.EditInstruction | services/geminiService.ts:79-83 | The instruction starts with the band phrase; stripping band phrase, optional pro clause and the instruction lead gives back exactly the prompt |
| GeminiService.EditInstructionDetermines | services/geminiService.ts:69-83 | Equal instructions come from the same band, the same pro-mode setting and the same prompt |
| GeminiService.SameBand | services/geminiService.ts:71-77 | Equal instructions come from the same strength band |
| GeminiService.BandPhrasesDiffer | services/geminiService.ts:71-77 | Two distinct band phrases disagree at a position both cover |
| GeminiService.EditParts | services/geminiService.ts:88-96 | Edit sends [image with the upload's data and MIME type, text holding the prompt after the instruction prefix] |
| GeminiService.InpaintParts | services/geminiService.ts:136-155 | Inpaint sends [text holding the prompt inside the fixed template, image with the upload's MIME type, mask as 'image/png'] |
| GeminiService.RemoveBackgroundParts | services/geminiService.ts:192-205 | Remove-background sends [image with the upload's MIME type, the fixed instruction text] |
| GeminiService.SketchParts | services/geminiService.ts:243-256 | Sketch sends [sketch as 'image/png', text holding the prompt inside the fixed template] |
| GeminiService.DecodeParts | services/geminiService.ts:103-115 | The decoding loop leaves exactly the last image URL and the last text of the parts; a missing parts list decodes to nothing |
| GeminiService.LastTextIsLastTextPart | services/geminiService.ts:107-109 | The decoded text is the text of the last part with non-empty text |
| GeminiService.LastTextNone | services/geminiService.ts:107-109 | There is no decoded text exactly when no part has non-empty text |
| GeminiService.LastImageIsLastImagePart | services/geminiService.ts:110-112 | The decoded image is "data:" + mime + ";base64," + data of the last part with empty text, data and MIME type |
| GeminiService.DecodedImageSource | services/geminiService.ts:108-112 | A decoded image comes from a part whose text is empty: a text part is never read as an image |
| GeminiService.Rethrow | services/geminiService.ts:123-126 | A success passes through unchanged; every error, whatever its message, becomes the operation's fixed message |
| GeminiService.Settle | services/geminiService.ts:103-126 | The operation succeeds exactly when the reply decodes to an image; a success carries the decoded result with an image; every failure carries the one fixed message |
| GeminiService.TextOnlyReplyFails | services/geminiService.ts:117-126 | A reply with only text parts fails with the fixed message |
| GeminiService.SendAndDecode | services/geminiService.ts:103-126 | The shared decode-and-fail step returns the settled outcome of the service's reply |
| GeminiService.EditImage | services/geminiService.ts:61-127 | editImage returns the settled outcome of the reply to the edit part list, failing with "Failed to edit image. Please try again." |
| GeminiService.InpaintImage | services/geminiService.ts:129-185 | inpaintImage returns the settled outcome of the reply to the inpaint part list, with its fixed failure message |
| GeminiService.RemoveBackground | services/geminiService.ts:187-236 | removeBackground returns the settled outcome of the reply to its part list, with its fixed failure message |
| GeminiService.SketchToImage | services/geminiService.ts:238-287 | sketchToImage returns the settled outcome of the reply to the sketch part list, with its fixed failure message |
| GeminiService.GenerateImage | services/geminiService.ts:34-53 | Succeeds exactly when the service generated at least one image, and then returns "data:image/jpeg;base64," + the first image's bytes; every failure carries "Failed to generate image. Please try again." |
| GeminiService.GeneratedPayload | services/geminiService.ts:44-46 | The payload read back from the returned URL is exactly the generated image's bytes |
| DataUrl.PayloadExists | components/GeneratorPage.tsx:273 | `split(',')[1]` exists exactly when the URL holds a comma |
| DataUrl.Field | components/GeneratorPage.tsx:231 | `split(sep)[k]`: a field never holds the separator, and field 0 always exists |
| DataUrl.Payload | components/GeneratorPage.tsx:231 | `split(',')[1]` never holds a comma; its exact content is given by `PayloadBetweenCommas` |
| DataUrl.PayloadBetweenCommas | components/GeneratorPage.tsx:231 | `split(',')[1]` is exactly the text between the first comma and the next comma or the end |
| DataUrl.BuiltHasPayload | components/GeneratorPage.tsx:313 | Every data URL built as "data:" + mime + ";base64," + data has a payload |
| DataUrl.PayloadOfBuild | components/GeneratorPage.tsx:313 | When neither mime nor data holds a comma, `split(',')[1]` of the built URL is exactly the data |
| Raster.Canvas.constructor | components/GeneratorPage.tsx:250-252 | A new canvas has the requested size and a fully transparent buffer of 4 × width × height bytes |
| Raster.Canvas.ClearRect | components/GeneratorPage.tsx:56 | Clearing leaves every byte zero |
| Raster.Canvas.PutPixels | components/GeneratorPage.tsx:256-259 | Writing pixels (the resampled overlay here, a stroke at lines 144-149) keeps the buffer's size and overwrites it from the start |
| Raster.AnyNonZeroWord | components/GeneratorPage.tsx:157-158 | The scan finds a pixel exactly when some little-endian 32-bit pixel word is non-zero |
| Raster.ContentIffNonZeroByte | components/GeneratorPage.tsx:157-158 | A buffer of whole pixels has a non-zero word exactly when it has a non-zero byte |
| Raster.BlankHasNoContent | components/GeneratorPage.tsx:56 | A cleared buffer has no content |
| Raster.PaintedPixelIsContent | components/GeneratorPage.tsx:157-158 | A pixel with non-zero alpha counts as content |
| Raster.Binarized | components/GeneratorPage.tsx:263-270 | The buffer the loop leaves, of the same length; its pixels are given by `BinarizedPixel` |
| Raster.BinarizedPixel | components/GeneratorPage.tsx:263-270 | Each binarized pixel is the mask colour of the same pixel's original alpha |
| Raster.BinarizedIsTwoColour | components/GeneratorPage.tsx:263-270 | Every binarized pixel is opaque white or opaque black; white exactly where the alpha was non-zero, black exactly where it was zero |
| Raster.BinarizePixel | components/GeneratorPage.tsx:264-269 | One loop iteration sets the pixel to its mask colour and leaves every other byte unchanged |
| Raster.BinarizeMask | components/GeneratorPage.tsx:261-270 | The in-place loop leaves the buffer equal to the binarized original |
| GeneratorPage.GetCoords | components/GeneratorPage.tsx:121-127 | Coordinates exist exactly when a canvas exists and the event is a mouse event or a touch with a contact; adding the canvas origin back gives the client position |
| GeneratorPage.AfterMove | components/GeneratorPage.tsx:137-150 | A move paints nothing unless drawing is on, the event has coordinates and the page is ready |
| GeneratorPage.MainAction | components/GeneratorPage.tsx:332-341 | generate → generate, edit in inpaint mode → inpaint, edit otherwise → edit, sketch → sketch, select → nothing, each in both directions |
| GeneratorPage.Validate | components/GeneratorPage.tsx:203-247 | An error exactly when the operation's needs are unmet: prompt (all but remove-background), upload (edit, inpaint, remove-background), mounted image, overlay and mask (inpaint), pad and sketch (sketch); an empty prompt is reported first |
| GeneratorPage.MissingImageReported | components/GeneratorPage.tsx:215 | With a prompt given, a missing upload is reported next, with the operation's own message |
| GeneratorPage.ErrorText | components/GeneratorPage.tsx:209 | The error shown is the thrown message, or "An unexpected error occurred." when that message is empty |
| GeneratorPage.SettledOutcome | components/GeneratorPage.tsx:218-221 | After an edit-style call the page shows no error or the service's fixed failure message, never its own "did not produce a new image" message; the image shown is the reply's last image, if any |
| GeneratorPage.GenerateOutcome | components/GeneratorPage.tsx:207-209 | A failed generate shows the service's fixed failure message |
| GeneratorPage.UploadedData | components/GeneratorPage.tsx:311-314 | The kept base64 data is the file's content whenever its MIME type holds no comma |
| GeneratorPage.PngPayload | components/GeneratorPage.tsx:231 | `toDataURL('image/png').split(',')[1]` is exactly the PNG encoding of the canvas |
| GeneratorPage.MaskBytes | components/GeneratorPage.tsx:250-273 | The mask has exactly naturalWidth × naturalHeight pixels, all opaque black or white, white exactly where the resampled overlay had alpha |
| GeneratorPage.DrawMask | components/GeneratorPage.tsx:256-271 | Drawing the resampled overlay into the fresh mask canvas and binarizing it leaves the mask bytes |
| GeneratorPage.Session.constructor | components/GeneratorPage.tsx:20-50 | The initial state: dashboard, empty prompt, nothing loaded, realistic/standard/1:1, strength 0.5, nothing mounted |
| GeneratorPage.Session.ClearInpaintCanvas | components/GeneratorPage.tsx:52-59 | A mounted overlay is cleared and `hasMask` becomes false; without one nothing changes |
| GeneratorPage.Session.ClearSketchCanvas | components/GeneratorPage.tsx:61-68 | A mounted pad is cleared and `hasSketch` becomes false; without one nothing changes |
| GeneratorPage.Session.ResetState | components/GeneratorPage.tsx:70-85 | Prompt "", no image, no upload, no error, not loading, edit mode 'none', mounted canvases cleared with their flags false, tool back to 'select' unless `keepTool` |
| GeneratorPage.Session.StartInpaint | components/GeneratorPage.tsx:130-136 | Starting a stroke sets the drawing flag and changes nothing else |
| GeneratorPage.Session.DrawInpaint | components/GeneratorPage.tsx:137-150 | While not drawing nothing changes; otherwise the stroke is painted when the event has coordinates and the image is mounted |
| GeneratorPage.Session.StopInpaint | components/GeneratorPage.tsx:152-163 | Drawing stops; `hasMask` becomes true exactly when the overlay holds a non-zero word, and is never turned false |
| GeneratorPage.Session.StartSketch | components/GeneratorPage.tsx:166-172 | Starting a stroke sets the drawing flag and changes nothing else |
| GeneratorPage.Session.DrawSketch | components/GeneratorPage.tsx:173-187 | While not drawing nothing changes; otherwise the stroke is painted when the event has coordinates |
| GeneratorPage.Session.StopSketch | components/GeneratorPage.tsx:188-199 | Drawing stops; `hasSketch` becomes true exactly when the pad holds a non-zero word, and is never turned false |
| GeneratorPage.Session.HandleGenerate | components/GeneratorPage.tsx:202-211 | A failed check sets only the error; otherwise the upload is dropped, loading ends false, and the page shows the generated image or the failure message |
| GeneratorPage.Session.Generate | components/GeneratorPage.tsx:204-210 | The generate call with the session's prompt and options, then its image or error, loading false |
| GeneratorPage.Session.Settled | components/GeneratorPage.tsx:219-221 | Shows the call's image, or the page's no-image message, or the thrown message |
| GeneratorPage.Session.HandleEdit | components/GeneratorPage.tsx:213-223 | A failed check sets only the error; otherwise the upload and instruction go to the service and loading ends false with its image or error |
| GeneratorPage.Session.Edit | components/GeneratorPage.tsx:216-222 | The edit call with the session's upload, prompt, pro mode and strength, then its outcome, loading false |
| GeneratorPage.Session.HandleSketchToImage | components/GeneratorPage.tsx:225-242 | A failed check sets only the error; otherwise the pad's PNG payload goes to the service and loading ends false with its image or error |
| GeneratorPage.Session.SketchToImage | components/GeneratorPage.tsx:228-241 | The sketch call with the prompt and the pad's PNG encoding, then its outcome, loading false |
| GeneratorPage.Session.HandleInpaint | components/GeneratorPage.tsx:244-289 | A failed check sets only the error; otherwise a naturalWidth × naturalHeight binarized mask is built and sent; loading ends false; success leaves inpaint mode; without a mask context the fixed mask error is shown; with an image or overlay of zero width or height no call is made and loading stays true with no error |
| GeneratorPage.Session.Inpaint | components/GeneratorPage.tsx:248-288 | The mask-building and inpaint call after the checks, with the same outcome, the zero-size path included |
| GeneratorPage.Session.HandleRemoveBackground | components/GeneratorPage.tsx:291-303 | A failed check sets only the error; otherwise the upload goes to the service and loading ends false with its image or error |
| GeneratorPage.Session.RemoveBackground | components/GeneratorPage.tsx:293-302 | The remove-background call with the upload, then its outcome, loading false |
| GeneratorPage.Session.HandleFileChange | components/GeneratorPage.tsx:306-319 | Without a file nothing changes; with one the page is reset keeping the tool, and shows the file's data URL with its payload and MIME type as the upload |
| GeneratorPage.Session.HandleMainAction | components/GeneratorPage.tsx:332-341 | On the dashboard nothing changes; a page left loading that was not loading before comes only from an inpaint whose checks passed and whose image or overlay has no area |

## Left out

- The network calls and the model identifiers (`constants.ts` is not part of this model): the service is a function parameter, and the reply's `candidates[0].content.parts` is an optional list of parts.
- Canvas rasterization: stroke painting (colour, cap, join, brush width scaled by the display ratio), `drawImage` resampling and `toDataURL` PNG encoding are browser functions passed in as parameters; their pixels and bytes are taken as given.
- The browser's PNG encoder behind `toDataURL` and the service's `imageBytes` are taken to return base64 text (the `Base64` type). `GeneratedPayload`, `PngPayload` and the payload reading in `HandleSketchToImage` and `HandleInpaint` rely on this.
- A stroke is a function of the current pixels and the latest point only. `ctx.stroke()` repaints the whole path since `beginPath` with the current brush width, and that dependence on the path history is not modelled.
- The exception that leaves `handleInpaint` loading (an unhandled promise rejection) has no effect beyond what `HandleInpaint` states; its message is not modelled.
- `getContext('2d')` on the mounted overlay and pad is taken to succeed; only the mask canvas's context failure in `handleInpaint` is modelled, as a parameter.
- The layout effects that size the canvases, resize listeners, and the effect that switches the tool to 'edit' once an upload exists.
- Rendering, styling, the setters wired directly to form controls (prompt, style, quality, aspect ratio, pro mode, strength, brush sizes), the inpaint-mode toggle button and `downloadImage`.
- Console logging.
- The file input element's `value` reset in `resetState`.
- async scheduling. Each handler runs as one sequential step from its checks to `loading = false`; the page's only guard against overlapping calls is disabling buttons.
- GeneratorPage.GetCoords: coordinates are exact reals, not IEEE doubles.
- GeminiService.BandOf: strength is a real number; a NaN strength, which the source would place in the significant band, is not modelled.
- GeneratorPage.Session.ResetState: does not promise `hasMask`/`hasSketch` false when the corresponding canvas is unmounted, because the code leaves them unchanged then.
- GeneratorPage.Session.HandleFileChange: the file reader's asynchronous load is folded into the handler, and the uploaded content arrives as base64.
- GeneratorPage.Session.HandleMainAction: states that the dashboard changes nothing and when a handler can leave the page loading; which handler runs is the contract of `MainAction`, and what each handler does is its own contract.
- GeneratorPage.UploadedData: equals the file content only when the MIME type holds no comma, which is what `split(',')[1]` guarantees and no more.
