/**
  The generator page: one session's state, the drawing gestures on the inpaint
  overlay and the sketch pad, the input checks each action runs before calling
  the image service, what each action leaves behind, and the dispatch of the
  main action button.

  The browser is a parameter wherever the page calls into it: the stroke a
  pointer move paints, the resampling `drawImage` performs, the PNG encoding of
  `toDataURL`. The remote service is a function from request to reply, as in
  the service module.
 */
module GeneratorPage {
  import opened Common
  import DataUrl
  import opened Raster
  import S = GeminiService

  datatype Tool = Select | Generate | Edit | Sketch
  datatype EditMode = NoEdit | InpaintMode

  /** The uploaded image as the edit calls need it: base64 payload and MIME type. */
  datatype OriginalImage = OriginalImage(data: string, mime: string)

  /** The displayed `<img>` element, when mounted: its intrinsic size. */
  datatype ImageElement = ImageElement(naturalWidth: nat, naturalHeight: nat)

  datatype Point = Point(x: real, y: real)

  /** The top-left corner of a canvas's bounding client rectangle. */
  datatype Rect = Rect(left: real, top: real)

  /** A pointer event: mouse, touch (its current contacts), or anything else. */
  datatype InputEvent =
    | MouseInput(clientX: real, clientY: real)
    | TouchInput(touches: seq<Point>)
    | OtherInput

  /** A picked file: its MIME type and its content as base64. */
  datatype UploadedFile = UploadedFile(mime: string, content: DataUrl.Base64)

  // ---------------------------------------------------------------------------
  // Pointer coordinates
  // ---------------------------------------------------------------------------

  /** The client position of a mouse event or of a touch event's first contact. */
  function ClientPosition(e: InputEvent): Option<Point>
  {
    match e
    case MouseInput(x, y) => Some(Point(x, y))
    case TouchInput(touches) => if |touches| > 0 then Some(touches[0]) else None
    case OtherInput => None
  }

  /**
    `getCoords`: the event's position relative to the canvas, or nothing when
    there is no canvas or the event carries no position. Adding the canvas
    origin back gives the client position.
   */
  function GetCoords(e: InputEvent, canvasRect: Option<Rect>): (r: Option<Point>)
    ensures r.Some? <==> canvasRect.Some? && ClientPosition(e).Some?
    ensures r.Some? ==>
              r.value.x + canvasRect.value.left == ClientPosition(e).value.x
              && r.value.y + canvasRect.value.top == ClientPosition(e).value.y
  {
    if canvasRect.None? then None
    else match ClientPosition(e)
      case None => None
      case Some(p) => Some(Point(p.x - canvasRect.value.left, p.y - canvasRect.value.top))
  }

  /**
    What a pointer move leaves on a canvas: the browser's stroke to `coords`
    when drawing is on, the event has a position and the page is ready to
    paint; the pixels as they were otherwise.
   */
  function AfterMove(pixels: seq<bv8>, drawing: bool, coords: Option<Point>, ready: bool,
                     stroke: (seq<bv8>, Point) -> seq<bv8>): (r: seq<bv8>)
    ensures |r| == |pixels|
    ensures !drawing || coords.None? || !ready ==> r == pixels
  {
    if drawing && coords.Some? && ready then Overlaid(pixels, stroke(pixels, coords.value)) else pixels
  }

  // ---------------------------------------------------------------------------
  // Main action dispatch
  // ---------------------------------------------------------------------------

  datatype Action = RunGenerate | RunEdit | RunInpaint | RunSketch | NoAction

  /** `handleMainAction`: which handler the main button runs for a tool and edit mode. */
  function MainAction(tool: Tool, mode: EditMode): (a: Action)
    ensures a == NoAction <==> tool == Select
    ensures a == RunGenerate <==> tool == Generate
    ensures a == RunInpaint <==> tool == Edit && mode == InpaintMode
    ensures a == RunEdit <==> tool == Edit && mode == NoEdit
    ensures a == RunSketch <==> tool == Sketch
  {
    match tool
    case Generate => RunGenerate
    case Edit => (match mode case InpaintMode => RunInpaint case NoEdit => RunEdit)
    case Sketch => RunSketch
    case Select => NoAction
  }

  // ---------------------------------------------------------------------------
  // Input checks
  // ---------------------------------------------------------------------------

  const PromptMissing := "Please enter a prompt."
  const EditPromptMissing := "Please enter an editing instruction."
  const EditImageMissing := "Please upload an image to edit."
  const SketchPromptMissing := "Please describe what your sketch should become."
  const SketchMissing := "Please draw something on the canvas first."
  const InpaintPromptMissing := "Please enter a description for the area to inpaint."
  const ImageMissing := "Please upload an image first."
  const MaskMissing := "Please mask an area on the image to inpaint."

  datatype Operation = GenerateOp | EditOp | InpaintOp | SketchOp | RemoveBackgroundOp

  /** The part of the page state the input checks look at. */
  datatype Readiness = Readiness(
    prompt: string,
    hasOriginal: bool,
    hasImageElement: bool,
    hasInpaintCanvas: bool,
    hasMask: bool,
    hasSketchCanvas: bool,
    hasSketch: bool)

  /** What each operation needs before it may call the service. */
  predicate Ready(op: Operation, s: Readiness)
  {
    && (op != RemoveBackgroundOp ==> s.prompt != "")
    && (op == EditOp || op == InpaintOp || op == RemoveBackgroundOp ==> s.hasOriginal)
    && (op == InpaintOp ==> s.hasImageElement && s.hasInpaintCanvas && s.hasMask)
    && (op == SketchOp ==> s.hasSketchCanvas && s.hasSketch)
  }

  /** The message shown when an operation that needs a prompt has none. */
  function PromptMessage(op: Operation): string
  {
    match op
    case GenerateOp => PromptMissing
    case EditOp => EditPromptMissing
    case InpaintOp => InpaintPromptMissing
    case SketchOp => SketchPromptMissing
    case RemoveBackgroundOp => ""
  }

  /**
    The checks at the head of each `handle*` function, in their order: an error
    message exactly when the operation is not ready; an empty prompt is
    reported before anything else.
   */
  function Validate(op: Operation, s: Readiness): (e: Option<string>)
    ensures e.None? <==> Ready(op, s)
    ensures op != RemoveBackgroundOp && s.prompt == "" ==> e == Some(PromptMessage(op))
    ensures e.Some? ==> e.value != ""
  {
    match op
    case GenerateOp =>
      if s.prompt == "" then Some(PromptMissing) else None
    case EditOp =>
      if s.prompt == "" then Some(EditPromptMissing)
      else if !s.hasOriginal then Some(EditImageMissing)
      else None
    case SketchOp =>
      if s.prompt == "" then Some(SketchPromptMissing)
      else if !s.hasSketchCanvas || !s.hasSketch then Some(SketchMissing)
      else None
    case InpaintOp =>
      if s.prompt == "" then Some(InpaintPromptMissing)
      else if !s.hasOriginal || !s.hasImageElement then Some(ImageMissing)
      else if !s.hasInpaintCanvas || !s.hasMask then Some(MaskMissing)
      else None
    case RemoveBackgroundOp =>
      if !s.hasOriginal then Some(ImageMissing) else None
  }

  /** With a prompt given, the image checks come next for the operations that need an image. */
  lemma MissingImageReported(op: Operation, s: Readiness)
    requires op == EditOp || op == InpaintOp || op == RemoveBackgroundOp
    requires op != RemoveBackgroundOp ==> s.prompt != ""
    requires !s.hasOriginal
    ensures Validate(op, s) == Some(if op == EditOp then EditImageMissing else ImageMissing)
  {
  }

  // ---------------------------------------------------------------------------
  // Outcomes of a service call
  // ---------------------------------------------------------------------------

  const EditNoImage := "Editing did not produce a new image."
  const SketchNoImage := "Sketch-to-image did not produce a new image."
  const InpaintNoImage := "Inpainting did not produce a new image."
  const RemoveBackgroundNoImage := "Background removal did not produce a new image."
  const MaskContextMissing := "Could not create the inpainting mask."
  const UnexpectedError := "An unexpected error occurred."

  /** `err.message || 'An unexpected error occurred.'` */
  function ErrorText(message: string): (r: string)
    ensures r != ""
    ensures message != "" ==> r == message
    ensures message == "" ==> r == UnexpectedError
  {
    if message != "" then message else UnexpectedError
  }

  /** The error a handler shows after the service answered. */
  function ErrorAfter(r: Result<S.EditedImageResult>, noImage: string): Option<string>
  {
    if r.Err? then Some(ErrorText(r.message))
    else if r.value.imageUrl.Some? then None
    else Some(noImage)
  }

  /** The image a handler shows after the service answered. */
  function ImageAfter(r: Result<S.EditedImageResult>, prior: Option<string>): Option<string>
  {
    if r.Ok? && r.value.imageUrl.Some? then r.value.imageUrl else prior
  }

  /**
    After an edit-style call the page shows either no error or the service's
    fixed failure message; its own "did not produce a new image" message is
    never shown, because the service already fails when no image came back.
    The image shown is the last inline image of the reply, if there was one.
   */
  lemma {:induction false} SettledOutcome(reply: S.ContentReply, noImage: string, failure: string,
                                          pageNoImage: string, prior: Option<string>)
    requires failure != ""
    ensures var r := S.Settle(reply, noImage, failure);
            ErrorAfter(r, pageNoImage) == (if r.Ok? then None else Some(failure))
    ensures ImageAfter(S.Settle(reply, noImage, failure), prior)
            == (if reply.Replied? && S.Decoded(reply.parts).imageUrl.Some?
                then S.Decoded(reply.parts).imageUrl else prior)
  {
    var r := S.Settle(reply, noImage, failure);
    if r.Err? {
      assert ErrorText(r.message) == failure;
    }
  }

  /** A generate call shows either no error or the fixed failure message. */
  lemma GenerateOutcome(prompt: string, options: S.GenerateImageOptions, service: S.GenerateRequest -> S.GenerateReply)
    ensures var r := S.GenerateImage(prompt, options, service);
            r.Err? ==> ErrorText(r.message) == S.GenerateFailure
  {
  }

  // ---------------------------------------------------------------------------
  // Payloads read back from data URLs
  // ---------------------------------------------------------------------------

  /**
    The base64 data the page keeps for an upload: `split(',')[1]` of the data
    URL the file reader produces. It is the file's content whenever the MIME
    type holds no comma.
   */
  function UploadedData(file: UploadedFile): (r: string)
    ensures NotIn(',', file.mime) ==> r == file.content
  {
    var content: string := file.content;
    var url := DataUrl.Build(file.mime, content);
    DataUrl.BuiltHasPayload(file.mime, content);
    assert NotIn(',', file.mime) ==> DataUrl.Payload(url) == Some(content) by {
      DataUrl.Base64HasNoComma(file.content);
      if NotIn(',', file.mime) {
        DataUrl.PayloadOfBuild(file.mime, file.content);
      }
    }
    DataUrl.Payload(url).value
  }

  lemma PngMimeHasNoComma()
    ensures NotIn(',', S.PngMime)
  {
    assert S.PngMime == ['i', 'm', 'a', 'g', 'e', '/', 'p', 'n', 'g'];
  }

  /**
    The mask the inpaint handler builds from a resampled overlay: a transparent
    canvas of the image's natural size, the overlay written over it, then
    binarized. It has exactly `width * height` pixels, each opaque white where
    the resampled overlay had any alpha and opaque black everywhere else.
   */
  function MaskBytes(resampled: seq<bv8>, width: nat, height: nat): (r: seq<bv8>)
    ensures |r| == 4 * (width * height)
    ensures TwoColour(r)
    ensures forall p: nat :: 4 * p + 4 <= |r| ==>
              (PixelAt(r, p) == White <==> 4 * p + 3 < |resampled| && resampled[4 * p + 3] > 0)
  {
    var canvas := Overlaid(Transparent(4 * (width * height)), resampled);
    BinarizedIsTwoColour(canvas);
    Binarized(canvas)
  }

  /** `canvas.toDataURL('image/png').split(',')[1]`: exactly the browser's PNG encoding of the pixels. */
  method PngPayload(pixels: seq<bv8>, width: nat, height: nat, encodePng: (seq<bv8>, nat, nat) -> DataUrl.Base64)
    returns (payload: string)
    ensures payload == encodePng(pixels, width, height)
  {
    var encoded := encodePng(pixels, width, height);
    var url := DataUrl.Build(S.PngMime, encoded);
    PngMimeHasNoComma();
    DataUrl.Base64HasNoComma(encoded);
    DataUrl.PayloadOfBuild(S.PngMime, encoded);
    payload := DataUrl.Payload(url).value;
  }

  /**
    Whether handleInpaint can build its mask: `drawImage` throws for a source
    canvas without area and `getImageData` for a rectangle without area, so an
    overlay or an image of zero width or height makes the handler throw before
    its `try`.
   */
  predicate MaskDrawable(element: ImageElement, overlayWidth: nat, overlayHeight: nat)
  {
    element.naturalWidth > 0 && element.naturalHeight > 0 && overlayWidth > 0 && overlayHeight > 0
  }

  /**
    The drawing and binarization steps of handleInpaint on a fresh mask
    canvas: the overlay, resampled by the browser to the mask's size, is
    drawn in, then every pixel becomes opaque white or opaque black.
   */
  method DrawMask(mask: Canvas, overlay: seq<bv8>, overlayWidth: nat, overlayHeight: nat,
                  resample: (seq<bv8>, nat, nat, nat, nat) -> seq<bv8>)
    requires mask.Valid() && mask.data[..] == Transparent(4 * (mask.width * mask.height))
    modifies mask.data
    ensures mask.data[..] == MaskBytes(resample(overlay, overlayWidth, overlayHeight, mask.width, mask.height),
                                       mask.width, mask.height)
  {
    mask.PutPixels(resample(overlay, overlayWidth, overlayHeight, mask.width, mask.height));
    BinarizeMask(mask);
  }

  // ---------------------------------------------------------------------------
  // The session
  // ---------------------------------------------------------------------------

  /**
    The page component's state: its `useState` values, the two drawing flags
    held in refs, and the mounted elements its refs point to (`null` or `None`
    while unmounted). Each method names the fields it may change; every other
    field keeps its value.
   */
  class Session {
    var activeTool: Tool
    var prompt: string
    var image: Option<string>
    var originalImage: Option<OriginalImage>
    var loading: bool
    var error: Option<string>
    var editMode: EditMode
    var hasMask: bool
    var hasSketch: bool
    var isDrawingInpaint: bool
    var isSketching: bool
    var style: S.Style
    var quality: S.Quality
    var aspectRatio: S.AspectRatio
    var isProMode: bool
    var editStrength: real
    var imageElement: Option<ImageElement>
    var inpaintCanvas: Canvas?
    var sketchCanvas: Canvas?

    function Checked(): Readiness
      reads this
    {
      Readiness(prompt, originalImage.Some?, imageElement.Some?, inpaintCanvas != null, hasMask,
                sketchCanvas != null, hasSketch)
    }

    function Options(): S.GenerateImageOptions
      reads this
    {
      S.GenerateImageOptions(style, quality, aspectRatio)
    }

    /** The pixel buffers of the mounted canvases. */
    ghost function Surfaces(): set<object>
      reads this
    {
      var inpaint: set<object> := if inpaintCanvas != null then {inpaintCanvas.data} else {};
      var sketch: set<object> := if sketchCanvas != null then {sketchCanvas.data} else {};
      inpaint + sketch
    }

    /** The initial `useState` values; nothing is mounted yet. */
    constructor ()
      ensures activeTool == Select && prompt == "" && image == None && originalImage == None
      ensures !loading && error == None && editMode == NoEdit
      ensures !hasMask && !hasSketch && !isDrawingInpaint && !isSketching
      ensures Options() == S.GenerateImageOptions(S.Realistic, S.Standard, S.Square)
      ensures !isProMode && editStrength == 0.5
      ensures imageElement == None && inpaintCanvas == null && sketchCanvas == null
    {
      activeTool, prompt, image, originalImage := Select, "", None, None;
      loading, error, editMode := false, None, NoEdit;
      hasMask, hasSketch, isDrawingInpaint, isSketching := false, false, false, false;
      style, quality, aspectRatio, isProMode, editStrength := S.Realistic, S.Standard, S.Square, false, 0.5;
      imageElement, inpaintCanvas, sketchCanvas := None, null, null;
    }

    // -------------------------------------------------------------------------
    // Clearing and resetting
    // -------------------------------------------------------------------------

    /** `clearInpaintCanvas`: only a mounted overlay is cleared, and only then is `hasMask` reset. */
    method ClearInpaintCanvas()
      modifies this`hasMask, if inpaintCanvas != null then {inpaintCanvas.data} else {}
      ensures hasMask == (old(hasMask) && inpaintCanvas == null)
      ensures inpaintCanvas != null ==> Blank(inpaintCanvas.data[..])
    {
      if inpaintCanvas != null {
        inpaintCanvas.ClearRect();
        hasMask := false;
      }
    }

    /** `clearSketchCanvas`: only a mounted sketch pad is cleared, and only then is `hasSketch` reset. */
    method ClearSketchCanvas()
      modifies this`hasSketch, if sketchCanvas != null then {sketchCanvas.data} else {}
      ensures hasSketch == (old(hasSketch) && sketchCanvas == null)
      ensures sketchCanvas != null ==> Blank(sketchCanvas.data[..])
    {
      if sketchCanvas != null {
        sketchCanvas.ClearRect();
        hasSketch := false;
      }
    }

    /**
      `resetState(keepTool)`: prompt, image, upload, error, loading and edit
      mode go back to their initial values, the mounted canvases are cleared,
      and the tool returns to the dashboard unless `keepTool`.
     */
    method ResetState(keepTool: bool)
      modifies this`prompt, this`image, this`originalImage, this`error, this`loading, this`editMode
      modifies this`hasMask, this`hasSketch, this`activeTool, Surfaces()
      ensures prompt == "" && image == None && originalImage == None && error == None && !loading
      ensures editMode == NoEdit
      ensures hasMask == (old(hasMask) && inpaintCanvas == null)
      ensures hasSketch == (old(hasSketch) && sketchCanvas == null)
      ensures activeTool == if keepTool then old(activeTool) else Select
      ensures inpaintCanvas != null ==> Blank(inpaintCanvas.data[..])
      ensures sketchCanvas != null ==> Blank(sketchCanvas.data[..])
    {
      prompt, image, originalImage, error, loading := "", None, None, None, false;
      editMode := NoEdit;
      ClearInpaintCanvas();
      ClearSketchCanvas();
      if !keepTool {
        activeTool := Select;
      }
    }

    // -------------------------------------------------------------------------
    // Gestures
    // -------------------------------------------------------------------------

    /** `startInpaint`: drawing starts; the path it opens lives in the browser. */
    method StartInpaint()
      modifies this`isDrawingInpaint
      ensures isDrawingInpaint
    {
      isDrawingInpaint := true;
    }

    /**
      `drawInpaint`: while drawing, and with the image mounted, the browser
      strokes to the event's position on the overlay; the session is unchanged.
     */
    method DrawInpaint(e: InputEvent, canvasRect: Rect, stroke: (seq<bv8>, Point) -> seq<bv8>)
      modifies if inpaintCanvas != null then {inpaintCanvas.data} else {}
      ensures inpaintCanvas != null ==>
                inpaintCanvas.data[..]
                == AfterMove(old(inpaintCanvas.data[..]), isDrawingInpaint, GetCoords(e, Some(canvasRect)),
                             imageElement.Some?, stroke)
    {
      if !isDrawingInpaint {
        return;
      }
      var coords := GetCoords(e, if inpaintCanvas != null then Some(canvasRect) else None);
      if coords.None? {
        return;
      }
      if inpaintCanvas != null && imageElement.Some? {
        inpaintCanvas.PutPixels(stroke(inpaintCanvas.Pixels(), coords.value));
      }
    }

    /**
      `stopInpaint`: drawing stops, and `hasMask` becomes true when the
      mounted overlay holds a non-zero pixel word; it never becomes false here.
     */
    method StopInpaint()
      modifies this`isDrawingInpaint, this`hasMask
      ensures !isDrawingInpaint
      ensures hasMask == (old(hasMask) || (inpaintCanvas != null && HasContent(inpaintCanvas.data[..])))
    {
      isDrawingInpaint := false;
      if inpaintCanvas != null {
        var found := AnyNonZeroWord(inpaintCanvas.data);
        if found {
          hasMask := true;
        }
      }
    }

    /** `startSketch`: drawing starts. */
    method StartSketch()
      modifies this`isSketching
      ensures isSketching
    {
      isSketching := true;
    }

    /** `drawSketch`: while drawing, the browser strokes to the event's position on the pad. */
    method DrawSketch(e: InputEvent, canvasRect: Rect, stroke: (seq<bv8>, Point) -> seq<bv8>)
      modifies if sketchCanvas != null then {sketchCanvas.data} else {}
      ensures sketchCanvas != null ==>
                sketchCanvas.data[..]
                == AfterMove(old(sketchCanvas.data[..]), isSketching, GetCoords(e, Some(canvasRect)), true, stroke)
    {
      if !isSketching {
        return;
      }
      var coords := GetCoords(e, if sketchCanvas != null then Some(canvasRect) else None);
      if coords.None? {
        return;
      }
      if sketchCanvas != null {
        sketchCanvas.PutPixels(stroke(sketchCanvas.Pixels(), coords.value));
      }
    }

    /** `stopSketch`: drawing stops, and `hasSketch` becomes true when the pad holds a non-zero pixel word. */
    method StopSketch()
      modifies this`isSketching, this`hasSketch
      ensures !isSketching
      ensures hasSketch == (old(hasSketch) || (sketchCanvas != null && HasContent(sketchCanvas.data[..])))
    {
      isSketching := false;
      if sketchCanvas != null {
        var found := AnyNonZeroWord(sketchCanvas.data);
        if found {
          hasSketch := true;
        }
      }
    }

    // -------------------------------------------------------------------------
    // Service calls
    // -------------------------------------------------------------------------

    /**
      `handleGenerate`: without a prompt only the error is set. Otherwise the
      previous image and upload are dropped, the service is asked for one image,
      and the page ends not loading, showing the new image or the failure.
     */
    method HandleGenerate(service: S.GenerateRequest -> S.GenerateReply)
      modifies this`loading, this`error, this`image, this`originalImage
      ensures var guard := Validate(GenerateOp, old(Checked()));
              guard.Some? ==>
                error == guard && loading == old(loading) && image == old(image) && originalImage == old(originalImage)
      ensures var guard := Validate(GenerateOp, old(Checked()));
              var r := S.GenerateImage(old(prompt), old(Options()), service);
              guard.None? ==>
                && !loading && originalImage == None
                && image == (if r.Ok? then Some(r.value) else None)
                && error == (if r.Ok? then None else Some(ErrorText(r.message)))
    {
      var guard := Validate(GenerateOp, Checked());
      if guard.Some? {
        error := guard;
      } else {
        Generate(service);
      }
    }

    /** The part of `handleGenerate` after its check passed. */
    method Generate(service: S.GenerateRequest -> S.GenerateReply)
      modifies this`loading, this`error, this`image, this`originalImage
      ensures var r := S.GenerateImage(old(prompt), old(Options()), service);
              && !loading && originalImage == None
              && image == (if r.Ok? then Some(r.value) else None)
              && error == (if r.Ok? then None else Some(ErrorText(r.message)))
    {
      var description, options := prompt, Options();
      loading, error, image, originalImage := true, None, None, None;
      var r := S.GenerateImage(description, options, service);
      if r.Ok? {
        image := Some(r.value);
      } else {
        error := Some(ErrorText(r.message));
      }
      loading := false;
    }

    /** Shows the outcome of an edit-style call: the new image, or an error. */
    method Settled(r: Result<S.EditedImageResult>, noImage: string)
      requires error.None?
      modifies this`error, this`image
      ensures error == ErrorAfter(r, noImage) && image == ImageAfter(r, old(image))
    {
      if r.Ok? {
        if r.value.imageUrl.Some? {
          image := r.value.imageUrl;
        } else {
          error := Some(noImage);
        }
      } else {
        error := Some(ErrorText(r.message));
      }
    }

    /**
      `handleEdit`: needs a prompt, then an upload. The upload and the
      instruction go to the service; the page ends not loading, showing the
      edited image or an error.
     */
    method HandleEdit(service: seq<S.RequestPart> -> S.ContentReply)
      modifies this`loading, this`error, this`image
      ensures var guard := Validate(EditOp, old(Checked()));
              guard.Some? ==> error == guard && loading == old(loading) && image == old(image)
      ensures var guard := Validate(EditOp, old(Checked()));
              guard.None? ==>
                var r := S.Settle(service(S.EditParts(old(prompt), old(originalImage).value.data,
                                                      old(originalImage).value.mime, old(isProMode), old(editStrength))),
                                  S.NoEditedImage, S.EditFailure);
                !loading && error == ErrorAfter(r, EditNoImage) && image == ImageAfter(r, old(image))
    {
      var guard := Validate(EditOp, Checked());
      if guard.Some? {
        error := guard;
      } else {
        Edit(service);
      }
    }

    /** The part of `handleEdit` after its checks passed. */
    method Edit(service: seq<S.RequestPart> -> S.ContentReply)
      requires originalImage.Some?
      modifies this`loading, this`error, this`image
      ensures var r := S.Settle(service(S.EditParts(old(prompt), old(originalImage).value.data,
                                                    old(originalImage).value.mime, old(isProMode), old(editStrength))),
                                S.NoEditedImage, S.EditFailure);
              !loading && error == ErrorAfter(r, EditNoImage) && image == ImageAfter(r, old(image))
    {
      var instruction, original, isPro, strength := prompt, originalImage.value, isProMode, editStrength;
      loading, error := true, None;
      var r := S.EditImage(instruction, original.data, original.mime, isPro, strength, service);
      Settled(r, EditNoImage);
      loading := false;
    }

    /**
      `handleSketchToImage`: needs a prompt, then a drawn-on sketch pad. The
      pad's PNG payload goes to the service with the prompt.
     */
    method HandleSketchToImage(service: seq<S.RequestPart> -> S.ContentReply,
                               encodePng: (seq<bv8>, nat, nat) -> DataUrl.Base64)
      modifies this`loading, this`error, this`image
      ensures var guard := Validate(SketchOp, old(Checked()));
              guard.Some? ==> error == guard && loading == old(loading) && image == old(image)
      ensures var guard := Validate(SketchOp, old(Checked()));
              guard.None? ==>
                var pad := old(sketchCanvas);
                var r := S.Settle(service(S.SketchParts(old(prompt), encodePng(old(pad.data[..]), pad.width, pad.height))),
                                  S.NoSketchImage, S.SketchFailure);
                !loading && error == ErrorAfter(r, SketchNoImage) && image == ImageAfter(r, old(image))
    {
      var guard := Validate(SketchOp, Checked());
      if guard.Some? {
        error := guard;
      } else {
        SketchToImage(service, encodePng);
      }
    }

    /** The part of `handleSketchToImage` after its checks passed. */
    method SketchToImage(service: seq<S.RequestPart> -> S.ContentReply,
                         encodePng: (seq<bv8>, nat, nat) -> DataUrl.Base64)
      requires sketchCanvas != null
      modifies this`loading, this`error, this`image
      ensures var pad := old(sketchCanvas);
              var r := S.Settle(service(S.SketchParts(old(prompt), encodePng(old(pad.data[..]), pad.width, pad.height))),
                                S.NoSketchImage, S.SketchFailure);
              !loading && error == ErrorAfter(r, SketchNoImage) && image == ImageAfter(r, old(image))
    {
      var description, pad := prompt, sketchCanvas;
      loading, error := true, None;
      var sketchData := PngPayload(pad.Pixels(), pad.width, pad.height, encodePng);
      var r := S.SketchToImage(description, sketchData, service);
      Settled(r, SketchNoImage);
      loading := false;
    }

    /**
      `handleInpaint`: needs a prompt, then an upload and its mounted image,
      then a mounted overlay with a mask drawn. A mask canvas of the image's
      natural size receives the overlay resampled to that size and is
      binarized; its PNG payload goes to the service with the upload. On
      success the page leaves inpaint mode. Without a 2D context for the mask
      canvas the page reports that the mask could not be created. When the
      image or the overlay has no area, building the mask throws before the
      `try`: no call is made and the page is left loading.
     */
    method HandleInpaint(service: seq<S.RequestPart> -> S.ContentReply, contextAvailable: bool,
                         resample: (seq<bv8>, nat, nat, nat, nat) -> seq<bv8>,
                         encodePng: (seq<bv8>, nat, nat) -> DataUrl.Base64)
      returns (ghost mask: Canvas?)
      modifies this`loading, this`error, this`image, this`editMode
      ensures var guard := Validate(InpaintOp, old(Checked()));
              guard.Some? ==>
                error == guard && loading == old(loading) && image == old(image) && editMode == old(editMode)
                && mask == null
      ensures var guard := Validate(InpaintOp, old(Checked()));
              guard.None? && !contextAvailable ==>
                !loading && error == Some(MaskContextMissing) && image == old(image) && editMode == old(editMode)
                && mask == null
      ensures var guard := Validate(InpaintOp, old(Checked()));
              guard.None? && contextAvailable
              && !MaskDrawable(old(imageElement).value, old(inpaintCanvas).width, old(inpaintCanvas).height) ==>
                loading && error == None && image == old(image) && editMode == old(editMode) && mask == null
      ensures var guard := Validate(InpaintOp, old(Checked()));
              guard.None? && contextAvailable
              && MaskDrawable(old(imageElement).value, old(inpaintCanvas).width, old(inpaintCanvas).height) ==>
                var element, overlay := old(imageElement).value, old(inpaintCanvas);
                && mask != null && fresh(mask.data)
                && mask.width == element.naturalWidth && mask.height == element.naturalHeight
                && mask.data[..] == MaskBytes(resample(old(overlay.data[..]), overlay.width, overlay.height,
                                                       mask.width, mask.height), mask.width, mask.height)
      ensures var guard := Validate(InpaintOp, old(Checked()));
              guard.None? && contextAvailable && mask != null ==>
                var r := S.Settle(service(S.InpaintParts(old(prompt), old(originalImage).value.data,
                                                         old(originalImage).value.mime,
                                                         encodePng(mask.data[..], mask.width, mask.height))),
                                  S.NoInpaintedImage, S.InpaintFailure);
                && !loading && error == ErrorAfter(r, InpaintNoImage) && image == ImageAfter(r, old(image))
                && editMode == if r.Ok? && r.value.imageUrl.Some? then NoEdit else old(editMode)
    {
      var guard := Validate(InpaintOp, Checked());
      if guard.Some? {
        error := guard;
        mask := null;
      } else {
        mask := Inpaint(service, contextAvailable, resample, encodePng);
      }
    }

    /** The part of `handleInpaint` after its checks passed. */
    method Inpaint(service: seq<S.RequestPart> -> S.ContentReply, contextAvailable: bool,
                   resample: (seq<bv8>, nat, nat, nat, nat) -> seq<bv8>,
                   encodePng: (seq<bv8>, nat, nat) -> DataUrl.Base64)
      returns (ghost mask: Canvas?)
      requires originalImage.Some? && imageElement.Some? && inpaintCanvas != null
      modifies this`loading, this`error, this`image, this`editMode
      ensures !contextAvailable ==>
                !loading && error == Some(MaskContextMissing) && image == old(image) && editMode == old(editMode)
                && mask == null
      ensures contextAvailable && !MaskDrawable(old(imageElement).value, old(inpaintCanvas).width, old(inpaintCanvas).height) ==>
                loading && error == None && image == old(image) && editMode == old(editMode) && mask == null
      ensures contextAvailable && MaskDrawable(old(imageElement).value, old(inpaintCanvas).width, old(inpaintCanvas).height) ==>
                var element, overlay := old(imageElement).value, old(inpaintCanvas);
                && mask != null && fresh(mask.data)
                && mask.width == element.naturalWidth && mask.height == element.naturalHeight
                && mask.data[..] == MaskBytes(resample(old(overlay.data[..]), overlay.width, overlay.height,
                                                       mask.width, mask.height), mask.width, mask.height)
      ensures contextAvailable && mask != null ==>
                var r := S.Settle(service(S.InpaintParts(old(prompt), old(originalImage).value.data,
                                                         old(originalImage).value.mime,
                                                         encodePng(mask.data[..], mask.width, mask.height))),
                                  S.NoInpaintedImage, S.InpaintFailure);
                && !loading && error == ErrorAfter(r, InpaintNoImage) && image == ImageAfter(r, old(image))
                && editMode == if r.Ok? && r.value.imageUrl.Some? then NoEdit else old(editMode)
    {
      var description, original, element, overlay := prompt, originalImage.value, imageElement.value, inpaintCanvas;
      loading, error := true, None;
      var maskCanvas := new Canvas(element.naturalWidth, element.naturalHeight);
      if !contextAvailable {
        error := Some(MaskContextMissing);
        loading := false;
        mask := null;
        return;
      }
      if !MaskDrawable(element, overlay.width, overlay.height) {
        // drawImage or getImageData throws outside the try: the call is never
        // made and nothing clears `loading`
        mask := null;
        return;
      }
      mask := maskCanvas;
      DrawMask(maskCanvas, overlay.Pixels(), overlay.width, overlay.height, resample);
      var maskData := PngPayload(maskCanvas.Pixels(), maskCanvas.width, maskCanvas.height, encodePng);
      var r := S.InpaintImage(description, original.data, original.mime, maskData, service);
      Settled(r, InpaintNoImage);
      if r.Ok? && r.value.imageUrl.Some? {
        editMode := NoEdit;
      }
      loading := false;
    }

    /** `handleRemoveBackground`: needs an upload only; the prompt is not used. */
    method HandleRemoveBackground(service: seq<S.RequestPart> -> S.ContentReply)
      modifies this`loading, this`error, this`image
      ensures var guard := Validate(RemoveBackgroundOp, old(Checked()));
              guard.Some? ==> error == guard && loading == old(loading) && image == old(image)
      ensures var guard := Validate(RemoveBackgroundOp, old(Checked()));
              guard.None? ==>
                var r := S.Settle(service(S.RemoveBackgroundParts(old(originalImage).value.data,
                                                                  old(originalImage).value.mime)),
                                  S.NoBackgroundRemoved, S.RemoveBackgroundFailure);
                !loading && error == ErrorAfter(r, RemoveBackgroundNoImage) && image == ImageAfter(r, old(image))
    {
      var guard := Validate(RemoveBackgroundOp, Checked());
      if guard.Some? {
        error := guard;
      } else {
        RemoveBackground(service);
      }
    }

    /** The part of `handleRemoveBackground` after its check passed. */
    method RemoveBackground(service: seq<S.RequestPart> -> S.ContentReply)
      requires originalImage.Some?
      modifies this`loading, this`error, this`image
      ensures var r := S.Settle(service(S.RemoveBackgroundParts(old(originalImage).value.data,
                                                                old(originalImage).value.mime)),
                                S.NoBackgroundRemoved, S.RemoveBackgroundFailure);
              !loading && error == ErrorAfter(r, RemoveBackgroundNoImage) && image == ImageAfter(r, old(image))
    {
      var original := originalImage.value;
      loading, error := true, None;
      var r := S.RemoveBackground(original.data, original.mime, service);
      Settled(r, RemoveBackgroundNoImage);
      loading := false;
    }

    /**
      `handleFileChange`: with a file picked, the page is reset (keeping the
      tool) and then shows the file's data URL, keeping its base64 payload
      and MIME type as the upload. Without a file nothing happens.
     */
    method HandleFileChange(file: Option<UploadedFile>)
      modifies this`prompt, this`image, this`originalImage, this`error, this`loading, this`editMode
      modifies this`hasMask, this`hasSketch, this`activeTool, Surfaces()
      ensures file.None? ==> unchanged(this) && unchanged(old(Surfaces()))
      ensures file.Some? ==>
                && image == Some(DataUrl.Build(file.value.mime, file.value.content))
                && originalImage == Some(OriginalImage(UploadedData(file.value), file.value.mime))
                && prompt == "" && error == None && !loading && editMode == NoEdit
                && activeTool == old(activeTool)
                && hasMask == (old(hasMask) && inpaintCanvas == null)
                && hasSketch == (old(hasSketch) && sketchCanvas == null)
      ensures file.Some? && inpaintCanvas != null ==> Blank(inpaintCanvas.data[..])
      ensures file.Some? && sketchCanvas != null ==> Blank(sketchCanvas.data[..])
    {
      if file.None? {
        return;
      }
      ResetState(true);
      var url := DataUrl.Build(file.value.mime, file.value.content);
      DataUrl.BuiltHasPayload(file.value.mime, file.value.content);
      var data := DataUrl.Payload(url).value;
      originalImage := Some(OriginalImage(data, file.value.mime));
      image := Some(url);
    }

    /**
      `handleMainAction`: runs the handler `MainAction` picks; on the
      dashboard nothing changes. The only way a handler leaves the page
      loading that was not loading before is an inpaint whose checks passed
      and whose mask could not be drawn.
     */
    method HandleMainAction(images: S.GenerateRequest -> S.GenerateReply,
                            service: seq<S.RequestPart> -> S.ContentReply,
                            contextAvailable: bool,
                            resample: (seq<bv8>, nat, nat, nat, nat) -> seq<bv8>,
                            encodePng: (seq<bv8>, nat, nat) -> DataUrl.Base64)
      modifies this`loading, this`error, this`image, this`originalImage, this`editMode
      ensures MainAction(old(activeTool), old(editMode)) == NoAction ==> unchanged(this)
      ensures loading && !old(loading) ==>
                && MainAction(old(activeTool), old(editMode)) == RunInpaint
                && Validate(InpaintOp, old(Checked())).None? && contextAvailable
                && old(imageElement).Some? && old(inpaintCanvas) != null
                && !MaskDrawable(old(imageElement).value, old(inpaintCanvas).width, old(inpaintCanvas).height)
    {
      match MainAction(activeTool, editMode)
      case RunGenerate => HandleGenerate(images);
      case RunInpaint =>
        ghost var mask := HandleInpaint(service, contextAvailable, resample, encodePng);
      case RunEdit => HandleEdit(service);
      case RunSketch => HandleSketchToImage(service, encodePng);
      case NoAction =>
    }
  }
}
